/** Request-body validation as the global validation pipe performs it:
    undeclared properties are rejected, optional properties that are
    missing or null skip their constraints, and every other declared
    property must satisfy all of its constraints. Bodies are JSON objects;
    no implicit type conversion takes place. */
module Dto {
  import opened Wrappers
  import TitlePipeline
  import TagsPipeline
  import SocialPostPipeline

  /** A JSON value as the body parser hands it on; a number is the finite
      value `JSON.parse` produced, after rounding, so an integer is a number
      without a fractional part. */
  datatype Json =
    | JNull
    | JBool(b: bool)
    | JNum(n: real)
    | JStr(s: string)
    | JArr(items: seq<Json>)
    | JObj(fields: map<string, Json>)

  type Body = map<string, Json>

  /** The property decorators used by the request classes. */
  datatype Constraint =
    | IsString
    | IsNotEmpty
    | MaxLength(max: nat)
    | IsInt
    | Min(min: int)
    | IsIn(options: seq<string>)

  /** A declared property: `optional` is the `@IsOptional()` marker. */
  datatype Field = Field(name: string, optional: bool, constraints: seq<Constraint>)

  type Schema = seq<Field>

  predicate IsInteger(x: real) {
    x.Floor as real == x
  }

  /** The variation selectors U+FE0E and U+FE0F, which the length check
      does not count. */
  predicate IsSelector(c: char) {
    c == '\U{FE0E}' || c == '\U{FE0F}'
  }

  function CountSelectors(s: string): (r: nat)
    ensures r <= |s|
  {
    if |s| == 0 then 0
    else (if IsSelector(s[0]) then 1 else 0) + CountSelectors(s[1..])
  }

  /** The length `MaxLength` compares: code points, selectors excluded. */
  function CheckedLength(s: string): nat {
    |s| - CountSelectors(s)
  }

  /** Whether constraint `c` accepts the property value `v` (None when the
      property is missing). */
  predicate Holds(c: Constraint, v: Option<Json>) {
    match c
    case IsString => v.Some? && v.value.JStr?
    case IsNotEmpty => v.Some? && v.value != JStr("") && v.value != JNull
    case MaxLength(m) => v.Some? && v.value.JStr? && CheckedLength(v.value.s) <= m
    case IsInt => v.Some? && v.value.JNum? && IsInteger(v.value.n)
    case Min(m) => v.Some? && v.value.JNum? && v.value.n >= m as real
    case IsIn(options) => v.Some? && v.value.JStr? && v.value.s in options
  }

  function Get(body: Body, k: string): Option<Json> {
    if k in body then Some(body[k]) else None
  }

  /** `@IsOptional()` skips the other constraints for a missing or null
      value. */
  predicate Skipped(f: Field, body: Body) {
    f.optional && (f.name !in body || body[f.name] == JNull)
  }

  predicate FieldOk(f: Field, body: Body) {
    Skipped(f, body) || forall i :: 0 <= i < |f.constraints| ==> Holds(f.constraints[i], Get(body, f.name))
  }

  function Names(schema: Schema): set<string> {
    set i | 0 <= i < |schema| :: schema[i].name
  }

  /** The declared properties whose constraints fail, in declaration order. */
  function FailedFields(schema: Schema, body: Body): (r: seq<string>)
    ensures forall k :: k in r <==> exists i :: 0 <= i < |schema| && schema[i].name == k && !FieldOk(schema[i], body)
  {
    if |schema| == 0 then []
    else
      var rest := FailedFields(schema[1..], body);
      assert forall i :: 1 <= i < |schema| ==> schema[i] == schema[1..][i - 1];
      (if FieldOk(schema[0], body) then [] else [schema[0].name]) + rest
  }

  lemma NoFailedFields(schema: Schema, body: Body)
    requires |FailedFields(schema, body)| == 0
    ensures forall i :: 0 <= i < |schema| ==> FieldOk(schema[i], body)
  {
  }

  /** The properties the request class does not declare. */
  function Undeclared(schema: Schema, body: Body): (r: set<string>)
    ensures forall k :: k in r <==> k in body && k !in Names(schema)
  {
    body.Keys - Names(schema)
  }

  /** The validation pipe: the body itself when it is accepted, otherwise
      a 400 error. */
  function Validate(schema: Schema, body: Body): (r: Result<Body>)
    ensures r.Ok? <==> body.Keys <= Names(schema) && forall i :: 0 <= i < |schema| ==> FieldOk(schema[i], body)
    ensures r.Ok? ==> r.value == body
    ensures r.Err? ==> r.error.BadRequest?
  {
    var failed := FailedFields(schema, body);
    if |failed| == 0 && |Undeclared(schema, body)| == 0 then
      NoFailedFields(schema, body);
      Ok(body)
    else
      if |failed| > 0 then
        assert failed[0] in failed;
        Err(BadRequest("Bad Request"))
      else
        var k :| k in Undeclared(schema, body);
        Err(BadRequest("Bad Request"))
  }

  // ----------------------------------------------------- request classes

  const Marketplaces: seq<string> := ["mercado_livre", "amazon", "shopee", "generic"]
  const Tones: seq<string> := ["casual", "premium", "jovem", "neutro"]

  const CreateProductSchema: Schema := [
    Field("name", false, [IsString, IsNotEmpty, MaxLength(255)]),
    Field("description", true, [IsString])]

  const UpdateProductSchema: Schema := [
    Field("name", true, [IsString]),
    Field("description", true, [IsString]),
    Field("imageUrl", true, [IsString])]

  const TitleSchema: Schema := [
    Field("name", false, [IsString]),
    Field("description", true, [IsString]),
    Field("maxLength", true, [IsInt, Min(20)]),
    Field("marketplace", true, [IsIn(Marketplaces)])]

  const TagsSchema: Schema := [
    Field("name", false, [IsString]),
    Field("description", true, [IsString]),
    Field("maxTags", true, [IsInt, Min(1)])]

  const SocialSchema: Schema := [
    Field("name", false, [IsString, IsNotEmpty]),
    Field("description", true, [IsString]),
    Field("channel", false, [IsIn(SocialPostPipeline.Channels)]),
    Field("tone", true, [IsIn(Tones)])]

  // Reference readings of each request class, written property by property.

  predicate StringAt(body: Body, k: string) {
    k in body && body[k].JStr?
  }

  /** Missing, null, or a string. */
  predicate OptionalString(body: Body, k: string) {
    k !in body || body[k] == JNull || body[k].JStr?
  }

  /** Missing, null, or an integer of at least `min`. */
  predicate OptionalIntAtLeast(body: Body, k: string, min: int) {
    k !in body || body[k] == JNull || (body[k].JNum? && IsInteger(body[k].n) && body[k].n >= min as real)
  }

  /** Missing, null, or one of `options`. */
  predicate OptionalOneOf(body: Body, k: string, options: seq<string>) {
    k !in body || body[k] == JNull || (body[k].JStr? && body[k].s in options)
  }

  predicate CreateProductValid(body: Body) {
    body.Keys <= {"name", "description"}
    && StringAt(body, "name") && body["name"].s != "" && CheckedLength(body["name"].s) <= 255
    && OptionalString(body, "description")
  }

  predicate UpdateProductValid(body: Body) {
    body.Keys <= {"name", "description", "imageUrl"}
    && OptionalString(body, "name") && OptionalString(body, "description") && OptionalString(body, "imageUrl")
  }

  predicate TitleValid(body: Body) {
    body.Keys <= {"name", "description", "maxLength", "marketplace"}
    && StringAt(body, "name") && OptionalString(body, "description")
    && OptionalIntAtLeast(body, "maxLength", 20) && OptionalOneOf(body, "marketplace", Marketplaces)
  }

  predicate TagsValid(body: Body) {
    body.Keys <= {"name", "description", "maxTags"}
    && StringAt(body, "name") && OptionalString(body, "description")
    && OptionalIntAtLeast(body, "maxTags", 1)
  }

  predicate SocialValid(body: Body) {
    body.Keys <= {"name", "description", "channel", "tone"}
    && StringAt(body, "name") && body["name"].s != ""
    && OptionalString(body, "description")
    && StringAt(body, "channel") && body["channel"].s in SocialPostPipeline.Channels
    && OptionalOneOf(body, "tone", Tones)
  }

  lemma FieldOkOne(f: Field, body: Body, c: Constraint)
    requires f.constraints == [c]
    ensures FieldOk(f, body) <==> Skipped(f, body) || Holds(c, Get(body, f.name))
  {
    assert f.constraints[0] == c;
    if Holds(c, Get(body, f.name)) {
      forall i | 0 <= i < |f.constraints|
        ensures Holds(f.constraints[i], Get(body, f.name))
      {
        assert i == 0;
      }
    }
  }

  lemma FieldOkTwo(f: Field, body: Body, c: Constraint, d: Constraint)
    requires f.constraints == [c, d]
    ensures FieldOk(f, body) <==> Skipped(f, body) || (Holds(c, Get(body, f.name)) && Holds(d, Get(body, f.name)))
  {
    if !Skipped(f, body) && FieldOk(f, body) {
      assert f.constraints[0] == c && f.constraints[1] == d;
    }
  }

  lemma FieldOkThree(f: Field, body: Body, c: Constraint, d: Constraint, e: Constraint)
    requires f.constraints == [c, d, e]
    ensures FieldOk(f, body)
        <==> Skipped(f, body) || (Holds(c, Get(body, f.name)) && Holds(d, Get(body, f.name)) && Holds(e, Get(body, f.name)))
  {
    if !Skipped(f, body) && FieldOk(f, body) {
      assert f.constraints[0] == c && f.constraints[1] == d && f.constraints[2] == e;
    }
  }

  lemma AllFieldsTwo(schema: Schema, body: Body)
    requires |schema| == 2
    ensures (forall i :: 0 <= i < |schema| ==> FieldOk(schema[i], body))
        <==> FieldOk(schema[0], body) && FieldOk(schema[1], body)
  {
  }

  lemma AllFieldsThree(schema: Schema, body: Body)
    requires |schema| == 3
    ensures (forall i :: 0 <= i < |schema| ==> FieldOk(schema[i], body))
        <==> FieldOk(schema[0], body) && FieldOk(schema[1], body) && FieldOk(schema[2], body)
  {
  }

  lemma AllFieldsFour(schema: Schema, body: Body)
    requires |schema| == 4
    ensures (forall i :: 0 <= i < |schema| ==> FieldOk(schema[i], body))
        <==> FieldOk(schema[0], body) && FieldOk(schema[1], body) && FieldOk(schema[2], body) && FieldOk(schema[3], body)
  {
  }

  /** Each request class accepts exactly the bodies its reference reading
      describes. */
  lemma CreateProductSchemaMeaning(body: Body)
    ensures Validate(CreateProductSchema, body).Ok? <==> CreateProductValid(body)
  {
    var s := CreateProductSchema;
    assert Names(s) == {"name", "description"} by {
      assert s[0].name == "name" && s[1].name == "description";
    }
    AllFieldsTwo(s, body);
    FieldOkThree(s[0], body, IsString, IsNotEmpty, MaxLength(255));
    FieldOkOne(s[1], body, IsString);
  }

  lemma UpdateProductSchemaMeaning(body: Body)
    ensures Validate(UpdateProductSchema, body).Ok? <==> UpdateProductValid(body)
  {
    var s := UpdateProductSchema;
    assert Names(s) == {"name", "description", "imageUrl"} by {
      assert s[0].name == "name" && s[1].name == "description" && s[2].name == "imageUrl";
    }
    AllFieldsThree(s, body);
    FieldOkOne(s[0], body, IsString);
    FieldOkOne(s[1], body, IsString);
    FieldOkOne(s[2], body, IsString);
  }

  lemma TitleSchemaMeaning(body: Body)
    ensures Validate(TitleSchema, body).Ok? <==> TitleValid(body)
  {
    var s := TitleSchema;
    assert Names(s) == {"name", "description", "maxLength", "marketplace"} by {
      assert s[0].name == "name" && s[1].name == "description" && s[2].name == "maxLength" && s[3].name == "marketplace";
    }
    AllFieldsFour(s, body);
    assert FieldOk(s[0], body) <==> StringAt(body, "name") by {
      FieldOkOne(s[0], body, IsString);
    }
    assert FieldOk(s[1], body) <==> OptionalString(body, "description") by {
      FieldOkOne(s[1], body, IsString);
    }
    assert FieldOk(s[2], body) <==> OptionalIntAtLeast(body, "maxLength", 20) by {
      FieldOkTwo(s[2], body, IsInt, Min(20));
    }
    assert FieldOk(s[3], body) <==> OptionalOneOf(body, "marketplace", Marketplaces) by {
      FieldOkOne(s[3], body, IsIn(Marketplaces));
    }
  }

  lemma TagsSchemaMeaning(body: Body)
    ensures Validate(TagsSchema, body).Ok? <==> TagsValid(body)
  {
    var s := TagsSchema;
    assert Names(s) == {"name", "description", "maxTags"} by {
      assert s[0].name == "name" && s[1].name == "description" && s[2].name == "maxTags";
    }
    AllFieldsThree(s, body);
    assert FieldOk(s[0], body) <==> StringAt(body, "name") by {
      FieldOkOne(s[0], body, IsString);
    }
    assert FieldOk(s[1], body) <==> OptionalString(body, "description") by {
      FieldOkOne(s[1], body, IsString);
    }
    assert FieldOk(s[2], body) <==> OptionalIntAtLeast(body, "maxTags", 1) by {
      FieldOkTwo(s[2], body, IsInt, Min(1));
    }
  }

  lemma SocialSchemaMeaning(body: Body)
    ensures Validate(SocialSchema, body).Ok? <==> SocialValid(body)
  {
    var s := SocialSchema;
    assert Names(s) == {"name", "description", "channel", "tone"} by {
      assert s[0].name == "name" && s[1].name == "description" && s[2].name == "channel" && s[3].name == "tone";
    }
    AllFieldsFour(s, body);
    assert FieldOk(s[0], body) <==> StringAt(body, "name") && body["name"].s != "" by {
      FieldOkTwo(s[0], body, IsString, IsNotEmpty);
    }
    assert FieldOk(s[1], body) <==> OptionalString(body, "description") by {
      FieldOkOne(s[1], body, IsString);
    }
    assert FieldOk(s[2], body) <==> StringAt(body, "channel") && body["channel"].s in SocialPostPipeline.Channels by {
      FieldOkOne(s[2], body, IsIn(SocialPostPipeline.Channels));
    }
    assert FieldOk(s[3], body) <==> OptionalOneOf(body, "tone", Tones) by {
      FieldOkOne(s[3], body, IsIn(Tones));
    }
  }

  // ----------------------------------------------------- typed requests

  /** A string property; missing and null both read as None. */
  function OptStr(body: Body, k: string): (r: Option<string>)
    ensures r.Some? <==> k in body && body[k].JStr?
    ensures r.Some? ==> body[k] == JStr(r.value)
  {
    if k in body && body[k].JStr? then Some(body[k].s) else None
  }

  /** An integer property; missing and null both read as None. */
  function OptInt(body: Body, k: string): (r: Option<int>)
    requires k in body && body[k] != JNull ==> body[k].JNum? && IsInteger(body[k].n)
    ensures r.Some? <==> k in body && body[k] != JNull
    ensures r.Some? ==> body[k] == JNum(r.value as real)
  {
    if k in body && body[k].JNum? then Some(body[k].n.Floor) else None
  }

  /** `v` is what the body says about optional string property `k`:
      None for missing or null, otherwise the string itself. */
  predicate ReadsString(body: Body, k: string, v: Option<string>) {
    (v.Some? <==> k in body && body[k] != JNull) && (v.Some? ==> body[k] == JStr(v.value))
  }

  /** `v` is what the body says about optional integer property `k`. */
  predicate ReadsInt(body: Body, k: string, v: Option<int>) {
    (v.Some? <==> k in body && body[k] != JNull) && (v.Some? ==> body[k] == JNum(v.value as real))
  }

  /** A partial update of one column: leave it, clear it, or set it. */
  datatype Patch<T> = Keep | SetNull | SetTo(value: T)

  /** `p` is what the body says about property `k` of an update: missing
      keeps the column, null clears it, a string sets it. */
  predicate ReadsPatch(body: Body, k: string, p: Patch<string>) {
    && (p.Keep? <==> k !in body)
    && (p.SetNull? <==> k in body && body[k] == JNull)
    && (p.SetTo? ==> k in body && body[k] == JStr(p.value))
  }

  function PatchOf(body: Body, k: string): (r: Patch<string>)
    requires OptionalString(body, k)
    ensures ReadsPatch(body, k, r)
  {
    if k !in body then Keep
    else if body[k] == JNull then SetNull
    else SetTo(body[k].s)
  }

  datatype CreateProductRequest = CreateProductRequest(name: string, description: Option<string>)

  datatype UpdateProductRequest = UpdateProductRequest(
    name: Patch<string>,
    description: Patch<string>,
    imageUrl: Patch<string>)

  /** The body of a product creation, once it has passed validation. */
  function ParseCreateProduct(body: Body): (r: Result<CreateProductRequest>)
    ensures r.Ok? <==> CreateProductValid(body)
    ensures r.Ok? ==> body["name"] == JStr(r.value.name) && r.value.name != "" && CheckedLength(r.value.name) <= 255
    ensures r.Ok? ==> ReadsString(body, "description", r.value.description)
    ensures r.Err? ==> r.error.BadRequest?
  {
    CreateProductSchemaMeaning(body);
    var checked :- Validate(CreateProductSchema, body);
    Ok(CreateProductRequest(checked["name"].s, OptStr(checked, "description")))
  }

  /** The body of a product update, once it has passed validation. */
  function ParseUpdateProduct(body: Body): (r: Result<UpdateProductRequest>)
    ensures r.Ok? <==> UpdateProductValid(body)
    ensures r.Ok? ==> ReadsPatch(body, "name", r.value.name)
    ensures r.Ok? ==> ReadsPatch(body, "description", r.value.description)
    ensures r.Ok? ==> ReadsPatch(body, "imageUrl", r.value.imageUrl)
    ensures r.Err? ==> r.error.BadRequest?
  {
    UpdateProductSchemaMeaning(body);
    var checked :- Validate(UpdateProductSchema, body);
    Ok(UpdateProductRequest(PatchOf(checked, "name"), PatchOf(checked, "description"), PatchOf(checked, "imageUrl")))
  }

  /** The title request as the controller hands it to the pipeline. */
  function ParseTitle(body: Body): (r: Result<TitlePipeline.TitleInput>)
    ensures r.Ok? <==> TitleValid(body)
    ensures r.Ok? ==> body["name"] == JStr(r.value.name)
    ensures r.Ok? && r.value.maxLength.Some? ==> r.value.maxLength.value >= 20
    ensures r.Ok? && r.value.marketplace.Some? ==> r.value.marketplace.value in Marketplaces
    ensures r.Ok? ==> ReadsString(body, "description", r.value.description)
    ensures r.Ok? ==> ReadsInt(body, "maxLength", r.value.maxLength)
    ensures r.Ok? ==> ReadsString(body, "marketplace", r.value.marketplace)
    ensures r.Err? ==> r.error.BadRequest?
  {
    TitleSchemaMeaning(body);
    var checked :- Validate(TitleSchema, body);
    Ok(TitlePipeline.TitleInput(checked["name"].s, OptStr(checked, "description"),
      OptInt(checked, "maxLength"), OptStr(checked, "marketplace")))
  }

  /** The tags request as the controller hands it to the pipeline. */
  function ParseTags(body: Body): (r: Result<TagsPipeline.TagsInput>)
    ensures r.Ok? <==> TagsValid(body)
    ensures r.Ok? ==> body["name"] == JStr(r.value.name)
    ensures r.Ok? && r.value.maxTags.Some? ==> r.value.maxTags.value >= 1
    ensures r.Ok? ==> ReadsString(body, "description", r.value.description)
    ensures r.Ok? ==> ReadsInt(body, "maxTags", r.value.maxTags)
    ensures r.Err? ==> r.error.BadRequest?
  {
    TagsSchemaMeaning(body);
    var checked :- Validate(TagsSchema, body);
    Ok(TagsPipeline.TagsInput(checked["name"].s, OptStr(checked, "description"), OptInt(checked, "maxTags")))
  }

  /** The social-post request as the controller hands it to the pipeline. */
  function ParseSocial(body: Body): (r: Result<SocialPostPipeline.SocialInput>)
    ensures r.Ok? <==> SocialValid(body)
    ensures r.Ok? ==> body["name"] == JStr(r.value.name) && r.value.name != ""
    ensures r.Ok? ==> body["channel"] == JStr(r.value.channel) && r.value.channel in SocialPostPipeline.Channels
    ensures r.Ok? ==> ReadsString(body, "description", r.value.description)
    ensures r.Ok? ==> ReadsString(body, "tone", r.value.tone)
    ensures r.Ok? && r.value.tone.Some? ==> r.value.tone.value in Tones
    ensures r.Err? ==> r.error.BadRequest?
  {
    SocialSchemaMeaning(body);
    var checked :- Validate(SocialSchema, body);
    Ok(SocialPostPipeline.SocialInput(checked["name"].s, OptStr(checked, "description"),
      checked["channel"].s, OptStr(checked, "tone")))
  }

  // ------------------------------------------------ comparisons

  /** An undeclared property is rejected whatever else the body holds. */
  lemma UndeclaredRejected(schema: Schema, body: Body, k: string)
    requires k in body && k !in Names(schema)
    ensures Validate(schema, body).Err?
  {
  }

  /** A creation body is a valid update body; the converse fails for the
      empty body and for an empty name. */
  lemma CreateBodyIsUpdateBody(body: Body)
    requires CreateProductValid(body)
    ensures UpdateProductValid(body)
  {
  }

  lemma UpdateLooserThanCreate(s: string)
    ensures UpdateProductValid(map[])
    ensures !CreateProductValid(map[])
    ensures UpdateProductValid(map["name" := JStr(s)])
    ensures CreateProductValid(map["name" := JStr(s)]) <==> s != "" && CheckedLength(s) <= 255
  {
  }

  /** Creation bodies carry no image URL or owner: the controller adds them. */
  lemma CreateRejectsImageUrlAndOwner(body: Body)
    requires "imageUrl" in body || "ownerId" in body
    ensures !CreateProductValid(body)
  {
  }

  /** The title request takes any string name, the empty one included. */
  lemma TitleAcceptsAnyName(s: string)
    ensures TitleValid(map["name" := JStr(s)])
  {
  }

  /** `maxLength` accepts exactly the integers from 20 up. */
  lemma TitleMaxLengthBound(name: string, n: int)
    ensures TitleValid(map["name" := JStr(name), "maxLength" := JNum(n as real)]) <==> n >= 20
  {
    assert IsInteger(n as real);
  }

  /** No conversion: a numeric string or a fraction is not a valid length. */
  lemma TitleMaxLengthNotConverted(name: string, digits: string, x: real)
    requires !IsInteger(x)
    ensures !TitleValid(map["name" := JStr(name), "maxLength" := JStr(digits)])
    ensures !TitleValid(map["name" := JStr(name), "maxLength" := JNum(x)])
  {
  }

  /** `maxTags` accepts exactly the integers from 1 up. */
  lemma TagsMaxTagsBound(name: string, n: int)
    ensures TagsValid(map["name" := JStr(name), "maxTags" := JNum(n as real)]) <==> n >= 1
  {
    assert IsInteger(n as real);
  }

  /** A social-post request needs a non-empty name and one of the four
      channels; the tone may be left out. */
  lemma SocialRequiredFields(name: string, channel: string)
    ensures SocialValid(map["name" := JStr(name), "channel" := JStr(channel)])
        <==> name != "" && channel in SocialPostPipeline.Channels
  {
  }
}
