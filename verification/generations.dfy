/** Generations: the seven-way content generation for one product, stored as
    a single row only when every call succeeds, and the routes that read
    generations back. The content calls are an oracle: each call either
    yields its text or fails. */
module Generations {
  import opened Wrappers
  import opened Store
  import Products

  const ProductNotFound := "Produto não encontrado"
  const GenerationNotFound := "Geração não encontrada"
  const AccessDenied := "Acesso negado a esta geração"
  const NullProductOwner := "Cannot read properties of null (reading 'ownerId')"

  /** The title length the generation asks for. */
  const TitleMaxLength := 80

  /** The social channels, in the order of the calls and columns. */
  const SocialChannels: seq<string> := ["instagram", "tiktok", "facebook", "pinterest"]

  /** One call into the AI service, with the arguments it is given. */
  datatype AiCall =
    | TitleCall(name: string, description: Option<string>, maxLength: nat, imageUrl: Option<string>)
    | LongDescriptionCall(name: string, description: Option<string>, imageUrl: Option<string>)
    | TagsCall(name: string, description: Option<string>, imageUrl: Option<string>)
    | SocialCall(name: string, description: Option<string>, channel: string, imageUrl: Option<string>)

  /** What each call yields: its text, or the error it fails with. */
  type AiService = AiCall -> Result<string>

  function SocialFor(p: Product, channel: string): AiCall {
    SocialCall(p.name, p.description, channel, p.imageUrl)
  }

  /** The seven calls of `generateAll`, in the order of `Promise.all`. */
  function Calls(p: Product): (r: seq<AiCall>)
    ensures |r| == 7
    ensures forall c :: c in r ==> c.name == p.name && c.description == p.description && c.imageUrl == p.imageUrl
    ensures r[0] == TitleCall(p.name, p.description, TitleMaxLength, p.imageUrl)
    ensures r[1] == LongDescriptionCall(p.name, p.description, p.imageUrl)
    ensures r[2] == TagsCall(p.name, p.description, p.imageUrl)
    ensures forall k :: 0 <= k < |SocialChannels| ==> r[3 + k] == SocialFor(p, SocialChannels[k])
  {
    [TitleCall(p.name, p.description, TitleMaxLength, p.imageUrl),
     LongDescriptionCall(p.name, p.description, p.imageUrl),
     TagsCall(p.name, p.description, p.imageUrl),
     SocialFor(p, "instagram"), SocialFor(p, "tiktok"), SocialFor(p, "facebook"), SocialFor(p, "pinterest")]
  }

  /** `Promise.all`: every text when every call succeeds; otherwise the
      error of a failing call. (Which one, when several fail, depends on
      timing; this model takes the first in list order.) */
  function Gather(calls: seq<AiCall>, ai: AiService): (r: Result<seq<string>>)
    ensures r.Ok? <==> forall i :: 0 <= i < |calls| ==> ai(calls[i]).Ok?
    ensures r.Ok? ==> |r.value| == |calls| && forall i :: 0 <= i < |calls| ==> r.value[i] == ai(calls[i]).value
    ensures r.Err? ==> exists i :: 0 <= i < |calls| && ai(calls[i]) == Err(r.error)
  {
    if calls == [] then Ok([])
    else
      var first :- ai(calls[0]);
      var rest := Gather(calls[1..], ai);
      if rest.Err? then
        assert exists i :: 0 <= i < |calls[1..]| && ai(calls[1..][i]) == Err(rest.error);
        assert !ai(calls[1..][0]).Ok? || exists i :: 0 < i < |calls| && ai(calls[i]) == Err(rest.error);
        Err(rest.error)
      else
        Ok([first] + rest.value)
  }

  /** The row for a product and the seven texts, each text in the column
      named after its call. */
  function Row(id: Id, productId: Id, texts: seq<string>, now: nat): Generation
    requires |texts| == 7
  {
    Generation(id, productId, texts[0], texts[1], texts[2], texts[3], texts[4], texts[5], texts[6], now)
  }

  /** A new row for a stored product extends a valid table. */
  lemma AppendGenerationKeepsValid(db: Db, g: Generation)
    requires Valid(db) && g.id == db.nextId && g.createdAt == db.clock
    requires exists p :: p in db.products && p.id == g.productId
    ensures forall x :: x in db.generations ==> x.id != g.id
    ensures Valid(db.(generations := db.generations + [g], nextId := db.nextId + 1, clock := db.clock + 1))
  {
    var after := db.(generations := db.generations + [g], nextId := db.nextId + 1, clock := db.clock + 1);
    assert forall x :: x in after.generations ==> x in db.generations || x == g;
  }

  /** Gathering the seven calls, in terms of the calls themselves. */
  lemma GatherCalls(p: Product, ai: AiService)
    ensures var r := Gather(Calls(p), ai);
      && (r.Ok? <==> forall c :: c in Calls(p) ==> ai(c).Ok?)
      && (r.Err? ==> exists c :: c in Calls(p) && ai(c) == Err(r.error))
  {
    var calls := Calls(p);
    assert forall c :: c in calls <==> exists i :: 0 <= i < |calls| && calls[i] == c;
  }

  /** `generateAll`: a product that is missing and one that belongs to
      someone else are refused alike with 404; otherwise the seven calls run
      on the stored product's name, description and image, and one row is
      inserted only if all of them succeed. */
  function GenerateAll(db: Db, productId: Id, ownerId: Id, ai: AiService): (r: Result<(Db, Generation)>)
    requires Valid(db)
    ensures FindProduct(db, productId).None? ==> r == Err(NotFound(ProductNotFound))
    ensures FindProduct(db, productId).Some? && FindProduct(db, productId).value.ownerId != ownerId
        ==> r == Err(NotFound(ProductNotFound))
    ensures r.Ok? <==> (
      && FindProduct(db, productId).Some? && FindProduct(db, productId).value.ownerId == ownerId
      && forall c :: c in Calls(FindProduct(db, productId).value) ==> ai(c).Ok?)
    ensures r.Err? && FindProduct(db, productId).Some? && FindProduct(db, productId).value.ownerId == ownerId
        ==> exists c :: c in Calls(FindProduct(db, productId).value) && ai(c) == Err(r.error)
    ensures r.Ok? ==> (
      var p := FindProduct(db, productId).value;
      var (after, g) := r.value;
      && g.productId == productId
      && g.title == ai(Calls(p)[0]).value
      && g.longDescription == ai(Calls(p)[1]).value
      && g.tags == ai(Calls(p)[2]).value
      && g.socialInstagram == ai(Calls(p)[3]).value
      && g.socialTikTok == ai(Calls(p)[4]).value
      && g.socialFacebook == ai(Calls(p)[5]).value
      && g.socialPinterest == ai(Calls(p)[6]).value
      && (forall x :: x in db.generations ==> x.id != g.id)
      && after.generations == db.generations + [g]
      && after.products == db.products && after.users == db.users
      && Valid(after))
  {
    match FindProduct(db, productId)
    case None => Err(NotFound(ProductNotFound))
    case Some(p) =>
      if p.ownerId != ownerId then Err(NotFound(ProductNotFound))
      else
        GatherCalls(p, ai);
        var texts :- Gather(Calls(p), ai);
        var g := Row(db.nextId, productId, texts, db.clock);
        AppendGenerationKeepsValid(db, g);
        Ok((db.(generations := db.generations + [g], nextId := db.nextId + 1, clock := db.clock + 1), g))
  }

  /** `findAllByProduct`: the product's generations (the order is the
      subject of `HistoryNewestFirst`). */
  function FindAllByProduct(db: Db, productId: Id): (r: seq<Generation>)
    ensures forall g :: g in r <==> g in db.generations && g.productId == productId
  {
    var mine := Filter(db.generations, (g: Generation) => g.productId == productId);
    ReverseMembers(mine);
    Reverse(mine)
  }

  lemma HistoryNewestFirst(db: Db, productId: Id)
    requires Valid(db)
    ensures Descending(FindAllByProduct(db, productId), GenerationTime)
  {
    var mine := Filter(db.generations, (g: Generation) => g.productId == productId);
    FilterAscending(db.generations, (g: Generation) => g.productId == productId, GenerationTime);
    ReverseDescending(mine, GenerationTime);
  }

  lemma {:induction false} FilterSnoc<T(!new)>(s: seq<T>, x: T, keep: T -> bool)
    ensures Filter(s + [x], keep) == Filter(s, keep) + (if keep(x) then [x] else [])
  {
    if s != [] {
      assert (s + [x])[1..] == s[1..] + [x];
      FilterSnoc(s[1..], x, keep);
    }
  }

  lemma ReverseSnoc<T>(s: seq<T>, x: T)
    ensures Reverse(s + [x]) == [x] + Reverse(s)
  {
  }

  /** A successful generation heads its product's history, in front of the
      earlier ones, which are unchanged. `GenerateAll` ends in exactly this
      step: its result's store is the old one with the new row appended. */
  lemma NewGenerationHeadsHistory(db: Db, after: Db, g: Generation)
    requires after.generations == db.generations + [g]
    ensures FindAllByProduct(after, g.productId) == [g] + FindAllByProduct(db, g.productId)
  {
    var keep := (x: Generation) => x.productId == g.productId;
    FilterSnoc(db.generations, g, keep);
    ReverseSnoc(Filter(db.generations, keep), g);
  }

  /** `findOne` with the `product` relation loaded: the generation and, if
      it is still there, its product. */
  function FindOne(db: Db, id: Id): (r: Option<(Generation, Option<Product>)>)
    ensures r.None? <==> FindGeneration(db, id).None?
    ensures r.Some? ==> r.value.0 == FindGeneration(db, id).value
    ensures r.Some? ==> r.value.1 == FindProduct(db, r.value.0.productId)
  {
    match FindGeneration(db, id)
    case None => None
    case Some(g) => Some((g, FindProduct(db, g.productId)))
  }

  /** In a valid store every generation comes with its product. */
  lemma FindOneHasProduct(db: Db, id: Id)
    requires Valid(db) && FindOne(db, id).Some?
    ensures FindOne(db, id).value.1.Some?
  {
    var g := FindGeneration(db, id).value;
    var p :| p in db.products && p.id == g.productId;
  }

  // ------------------------------------------------------------ controller

  /** POST /generations/generate-all: the body's product, the caller as
      owner. */
  function GenerateAction(db: Db, user: AuthUser, productId: Id, ai: AiService): (r: Result<(Db, Generation)>)
    requires Valid(db)
    ensures r == GenerateAll(db, productId, user.id, ai)
    ensures r.Ok? ==> FindProduct(db, productId).value.ownerId == user.id
  {
    GenerateAll(db, productId, user.id, ai)
  }

  /** GET /generations/product/:id: no ownership check at all. */
  function ListAction(db: Db, productId: Id): (r: seq<Generation>)
    ensures forall g :: g in r <==> g in db.generations && g.productId == productId
  {
    FindAllByProduct(db, productId)
  }

  /** GET /generations/:id: 404 when missing, 403 when the product is
      someone else's, the generation itself otherwise. */
  function GetAction(db: Db, user: AuthUser, id: Id): (r: Result<Generation>)
    ensures FindGeneration(db, id).None? ==> r == Err(NotFound(GenerationNotFound))
    ensures r.Ok? <==> (
      && FindGeneration(db, id).Some?
      && FindProduct(db, FindGeneration(db, id).value.productId).Some?
      && FindProduct(db, FindGeneration(db, id).value.productId).value.ownerId == user.id)
    ensures r.Ok? ==> r.value == FindGeneration(db, id).value
    ensures (FindGeneration(db, id).Some?
             && FindProduct(db, FindGeneration(db, id).value.productId).Some?
             && FindProduct(db, FindGeneration(db, id).value.productId).value.ownerId != user.id)
        ==> r == Err(Forbidden(AccessDenied))
  {
    match FindOne(db, id)
    case None => Err(NotFound(GenerationNotFound))
    case Some((g, product)) =>
      match product
      case None => Err(Internal(NullProductOwner))
      case Some(p) => if p.ownerId != user.id then Err(Forbidden(AccessDenied)) else Ok(g)
  }

  function GenerateRoute(db: Db, caller: Option<AuthUser>, productId: Id, ai: AiService): (r: Result<(Db, Generation)>)
    requires Valid(db)
    ensures caller.None? ==> r == Err(Unauthorized("Unauthorized"))
    ensures caller.Some? ==> r == GenerateAction(db, caller.value, productId, ai)
  {
    var user :- RequireUser(caller);
    GenerateAction(db, user, productId, ai)
  }

  function ListRoute(db: Db, caller: Option<AuthUser>, productId: Id): (r: Result<seq<Generation>>)
    ensures r.Ok? <==> caller.Some?
    ensures caller.None? ==> r == Err(Unauthorized("Unauthorized"))
    ensures caller.Some? ==> r == Ok(ListAction(db, productId))
  {
    var user :- RequireUser(caller);
    Ok(ListAction(db, productId))
  }

  function GetRoute(db: Db, caller: Option<AuthUser>, id: Id): (r: Result<Generation>)
    ensures caller.None? ==> r == Err(Unauthorized("Unauthorized"))
    ensures caller.Some? ==> r == GetAction(db, caller.value, id)
  {
    var user :- RequireUser(caller);
    GetAction(db, user, id)
  }

  // ------------------------------------------------------------ properties

  /** A stranger's product and a missing one are indistinguishable to
      generate-all: same error, same message. */
  lemma ForeignLooksMissing(db: Db, user: AuthUser, p: Product, missing: Id, ai: AiService)
    requires Valid(db) && p in db.products && p.ownerId != user.id
    requires forall q :: q in db.products ==> q.id != missing
    ensures GenerateAction(db, user, p.id, ai) == GenerateAction(db, user, missing, ai)
    ensures GenerateAction(db, user, p.id, ai) == Err(NotFound(ProductNotFound))
  {
    FindStoredProduct(db, p);
  }

  /** All or nothing: when any of the seven calls fails, generate-all fails
      with that kind of error and stores nothing; when they all succeed,
      exactly one row is added. */
  lemma AllOrNothing(db: Db, user: AuthUser, p: Product, ai: AiService)
    requires Valid(db) && p in db.products && p.ownerId == user.id
    ensures (exists c :: c in Calls(p) && ai(c).Err?) <==> GenerateAction(db, user, p.id, ai).Err?
    ensures GenerateAction(db, user, p.id, ai).Err?
        ==> exists c :: c in Calls(p) && ai(c) == Err(GenerateAction(db, user, p.id, ai).error)
    ensures GenerateAction(db, user, p.id, ai).Ok?
        ==> |GenerateAction(db, user, p.id, ai).value.0.generations| == |db.generations| + 1
  {
    FindStoredProduct(db, p);
  }

  /** Reading a generation of someone else's product is refused with 403,
      while generate-all on that same product answers 404. */
  lemma ForbiddenHereNotFoundThere(db: Db, user: AuthUser, g: Generation, ai: AiService)
    requires Valid(db) && g in db.generations
    requires FindProduct(db, g.productId).Some? && FindProduct(db, g.productId).value.ownerId != user.id
    ensures GetAction(db, user, g.id) == Err(Forbidden(AccessDenied))
    ensures GenerateAction(db, user, g.productId, ai) == Err(NotFound(ProductNotFound))
  {
    FindStoredGeneration(db, g);
  }

  lemma FindStoredGeneration(db: Db, g: Generation)
    requires Valid(db) && g in db.generations
    ensures FindGeneration(db, g.id) == Some(g)
  {
    AscendingKeyUnique(db.generations, GenerationId, FindGeneration(db, g.id).value, g);
  }

  /** The owner reads a stored generation back unchanged; in a valid store
      the read never fails for want of a product. */
  lemma OwnerReadsGeneration(db: Db, g: Generation, user: AuthUser)
    requires Valid(db) && g in db.generations
    requires FindProduct(db, g.productId).Some? && FindProduct(db, g.productId).value.ownerId == user.id
    ensures GetAction(db, user, g.id) == Ok(g)
  {
    FindStoredGeneration(db, g);
  }

  lemma NoNullProductInValidStore(db: Db, user: AuthUser, id: Id)
    requires Valid(db)
    ensures GetAction(db, user, id) != Err(Internal(NullProductOwner))
  {
    if FindOne(db, id).Some? {
      FindOneHasProduct(db, id);
    }
  }

  /** The history route answers every signed-in caller alike. */
  lemma ListIgnoresCaller(db: Db, u: AuthUser, v: AuthUser, productId: Id)
    ensures ListRoute(db, Some(u), productId) == ListRoute(db, Some(v), productId)
  {
  }

  /** Deleting a product empties its history. */
  lemma DeletedProductHasNoHistory(db: Db, productId: Id)
    ensures FindAllByProduct(Products.Remove(db, productId), productId) == []
  {
    var r := FindAllByProduct(Products.Remove(db, productId), productId);
    assert forall g :: g !in r;
  }
}
