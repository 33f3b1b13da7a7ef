/** The vision-analysis pipeline: it asks a vision model for a JSON summary
    of a product image and degrades to a fixed neutral record on any failure,
    and renders such a summary as prompt text. */
module VisionAnalysis {
  import opened Wrappers
  import opened Text
  import opened Chat

  datatype Analysis = Analysis(
    category: string,
    colors: seq<string>,
    style: string,
    materials: seq<string>,
    features: seq<string>,
    detailedDescription: string)

  /** The record returned whenever reading, the model call or parsing fails. */
  const FallbackDescription := "Análise visual não disponível"

  const Fallback := Analysis("produto", [], "não identificado", [], [], FallbackDescription)

  const AnalysisPrompt :=
    "Você é um especialista em análise de produtos para e-commerce.\n"
    + "Analise esta imagem de produto e retorne APENAS um JSON válido (sem markdown, sem explicações) com a seguinte estrutura:\n\n"
    + "{\n"
    + "  \"category\": \"categoria do produto (ex: roupa, eletrônico, acessório)\",\n"
    + "  \"colors\": [\"cor1\", \"cor2\"],\n"
    + "  \"style\": \"estilo visual (ex: moderno, clássico, minimalista, esportivo)\",\n"
    + "  \"materials\": [\"material1\", \"material2\"],\n"
    + "  \"features\": [\"característica visual 1\", \"característica visual 2\"],\n"
    + "  \"detailedDescription\": \"descrição objetiva do que você vê na imagem em 2-3 frases\"\n"
    + "}\n\n"
    + "Seja preciso e objetivo. Use português brasileiro."

  /** The multimodal request: the instruction plus the image, announced with
      its MIME type (the base64 data URL encoding is not modelled). */
  datatype VisionRequest = VisionRequest(prompt: string, mimeType: string, image: seq<bv8>)

  // ------------------------------------------------------------ analysis

  /** `analyzeImage`: it never fails. Reading the file, the model call and
      JSON parsing are oracles. `parse` answers None when `JSON.parse`
      throws, and also when the debug log line's `colors.length` throws
      inside the same `try`: the parsed value is null or not an object, or
      its `colors` is null or missing. Otherwise it answers the parsed
      record. */
  function AnalyzeImage(
    imagePath: string,
    readFile: string -> Option<seq<bv8>>,
    vision: VisionRequest -> Result<Content>,
    stringify: Content -> string,
    parse: string -> Option<Analysis>): (r: Analysis)
    ensures readFile(imagePath).None? ==> r == Fallback
    ensures readFile(imagePath).Some? ==>
      var req := VisionRequest(AnalysisPrompt, GetMimeType(imagePath), readFile(imagePath).value);
      && (vision(req).Err? ==> r == Fallback)
      && (vision(req).Ok? && parse(CleanFences(ExtractText(vision(req).value, stringify))).None? ==> r == Fallback)
      && (vision(req).Ok? && parse(CleanFences(ExtractText(vision(req).value, stringify))).Some?
          ==> r == parse(CleanFences(ExtractText(vision(req).value, stringify))).value)
    ensures r != Fallback ==>
      && readFile(imagePath).Some?
      && var req := VisionRequest(AnalysisPrompt, GetMimeType(imagePath), readFile(imagePath).value);
      && vision(req).Ok?
      && parse(CleanFences(ExtractText(vision(req).value, stringify))) == Some(r)
  {
    match readFile(imagePath)
    case None => Fallback
    case Some(bytes) =>
      match vision(VisionRequest(AnalysisPrompt, GetMimeType(imagePath), bytes))
      case Err(_) => Fallback
      case Ok(content) =>
        match parse(CleanFences(ExtractText(content, stringify)))
        case None => Fallback
        case Some(a) => a
  }

  /** A failing model call yields the fallback, whatever the image. */
  lemma ModelFailureGivesFallback(
    imagePath: string,
    readFile: string -> Option<seq<bv8>>,
    vision: VisionRequest -> Result<Content>,
    stringify: Content -> string,
    parse: string -> Option<Analysis>)
    requires forall req :: vision(req).Err?
    ensures AnalyzeImage(imagePath, readFile, vision, stringify, parse) == Fallback
  {
  }

  /** A fence-free string answer is only trimmed before parsing: when the
      trimmed text parses, that record is the analysis. */
  lemma PlainAnswerParsed(
    imagePath: string,
    readFile: string -> Option<seq<bv8>>,
    vision: VisionRequest -> Result<Content>,
    stringify: Content -> string,
    parse: string -> Option<Analysis>,
    text: string,
    a: Analysis)
    requires readFile(imagePath).Some?
    requires vision(VisionRequest(AnalysisPrompt, GetMimeType(imagePath), readFile(imagePath).value)) == Ok(Text(text))
    requires Free(text, Fence) && parse(Trim(text)) == Some(a)
    ensures AnalyzeImage(imagePath, readFile, vision, stringify, parse) == a
  {
    CleanFencesOfFreeText(text);
  }

  // -------------------------------------------------- response extraction

  predicate HasStringText(c: Content) {
    c.Record? && "text" in c.fields && c.fields["text"].Text?
  }

  function TextField(c: Content): string
    requires HasStringText(c)
  {
    c.fields["text"].text
  }

  /** Position of the first block that has a string `text`. */
  function FirstTextBlock(items: seq<Content>): (r: Option<nat>)
    ensures r.Some? ==> r.value < |items| && HasStringText(items[r.value])
    ensures r.Some? ==> forall j :: 0 <= j < r.value ==> !HasStringText(items[j])
    ensures r.None? ==> forall j :: 0 <= j < |items| ==> !HasStringText(items[j])
  {
    if |items| == 0 then None
    else if HasStringText(items[0]) then Some(0)
    else
      match FirstTextBlock(items[1..])
      case None => None
      case Some(i) => Some(i + 1)
  }

  /** `extractTextFromResponse`. */
  function ExtractText(content: Content, stringify: Content -> string): (r: string)
    ensures content.Text? ==> r == content.text
    ensures content.Blocks? ==>
      forall i :: 0 <= i < |content.items| && HasStringText(content.items[i])
        && (forall j :: 0 <= j < i ==> !HasStringText(content.items[j]))
        ==> r == TextField(content.items[i])
    ensures content.Blocks? && (forall i :: 0 <= i < |content.items| ==> !HasStringText(content.items[i]))
      ==> r == stringify(content)
    ensures content.Record? ==> r == if HasStringText(content) then TextField(content) else stringify(content)
    ensures content.Scalar? ==> r == stringify(content)
  {
    match content
    case Text(s) => s
    case Blocks(items) =>
      (match FirstTextBlock(items)
       case Some(i) => TextField(items[i])
       case None => stringify(content))
    case Record(_) => if HasStringText(content) then TextField(content) else stringify(content)
    case Scalar => stringify(content)
  }

  /** Blocks after the first text-bearing one are never looked at. */
  lemma LaterBlocksIgnored(items: seq<Content>, more: seq<Content>, stringify: Content -> string)
    requires exists i :: 0 <= i < |items| && HasStringText(items[i])
    ensures ExtractText(Blocks(items + more), stringify) == ExtractText(Blocks(items), stringify)
  {
    var k := FirstTextBlock(items);
    assert k.Some?;
    var all := items + more;
    assert all[k.value] == items[k.value];
    assert forall j :: 0 <= j < k.value ==> all[j] == items[j];
  }

  // ------------------------------------------------------ fence cleanup

  predicate OccursAt(s: string, m: string, i: nat) {
    i + |m| <= |s| && s[i..i + |m|] == m
  }

  /** `m` occurs nowhere in `s`. */
  predicate Free(s: string, m: string) {
    forall i: nat :: i <= |s| ==> !OccursAt(s, m, i)
  }

  /** `s.replace(/<m>\n?/g, '')`: deletes every occurrence of `m`, leftmost
      first, together with one newline right after it. */
  function StripMarker(s: string, m: string): string
    requires |m| > 0
    decreases |s|
  {
    if |s| == 0 then s
    else if StartsWith(s, m) then
      var rest := s[|m|..];
      if |rest| > 0 && rest[0] == '\n' then StripMarker(rest[1..], m) else StripMarker(rest, m)
    else [s[0]] + StripMarker(s[1..], m)
  }

  const Fence := "```"

  /** The cleanup applied to the model's text before JSON parsing. */
  function CleanFences(s: string): string {
    Trim(StripMarker(StripMarker(s, "```json"), Fence))
  }

  /** No fence marker survives the cleanup. */
  lemma CleanFencesFree(s: string)
    ensures Free(CleanFences(s), Fence)
  {
    var once := StripMarker(s, "```json");
    StripFenceFree(once);
    TrimKeepsFree(StripMarker(once, Fence), Fence);
  }

  /** On fence-free text the cleanup is a plain trim. */
  lemma CleanFencesOfFreeText(s: string)
    requires Free(s, Fence)
    ensures CleanFences(s) == Trim(s)
  {
    FreeOfFenceIsFreeOfJsonFence(s);
    StripMarkerAbsent(s, "```json");
    StripMarkerAbsent(s, Fence);
  }

  lemma {:induction false} StripMarkerAbsent(s: string, m: string)
    requires |m| > 0 && Free(s, m)
    ensures StripMarker(s, m) == s
    decreases |s|
  {
    if |s| > 0 {
      assert !OccursAt(s, m, 0);
      forall i: nat | i <= |s[1..]|
        ensures !OccursAt(s[1..], m, i)
      {
        if i + |m| <= |s[1..]| {
          assert s[1..][i..i + |m|] == s[i + 1..i + 1 + |m|];
          assert !OccursAt(s, m, i + 1);
        }
      }
      StripMarkerAbsent(s[1..], m);
      assert [s[0]] + s[1..] == s;
    }
  }

  lemma FreeOfFenceIsFreeOfJsonFence(s: string)
    requires Free(s, Fence)
    ensures Free(s, "```json")
  {
    forall i: nat | i <= |s|
      ensures !OccursAt(s, "```json", i)
    {
      if i + 7 <= |s| {
        assert s[i..i + 3] == s[i..i + 7][..3];
        assert !OccursAt(s, Fence, i);
      }
    }
  }

  /** The first character survives when `s` does not start with a fence
      marker. */
  lemma StripHead(s: string)
    requires |s| > 0 && !StartsWith(s, Fence)
    ensures StripMarker(s, Fence) == [s[0]] + StripMarker(s[1..], Fence)
  {
  }

  /** After the fence pass no three backticks remain: the scan visits every
      position it keeps, so a kept backtick is never followed by two more. */
  lemma {:induction false} StripFenceFree(s: string)
    ensures Free(StripMarker(s, Fence), Fence)
    decreases |s|
  {
    if |s| == 0 {
    } else if StartsWith(s, Fence) {
      var rest := s[3..];
      if |rest| > 0 && rest[0] == '\n' {
        StripFenceFree(rest[1..]);
      } else {
        StripFenceFree(rest);
      }
    } else {
      var tail := StripMarker(s[1..], Fence);
      var out := [s[0]] + tail;
      StripHead(s);
      StripFenceFree(s[1..]);
      assert out == StripMarker(s, Fence);
      forall i: nat | i <= |out|
        ensures !OccursAt(out, Fence, i)
      {
        if i == 0 {
          NoFenceAtStart(s);
          if i + 3 <= |out| {
            assert out[..3] == [out[0], out[1], out[2]];
          }
        } else if i + 3 <= |out| {
          assert out[i..i + 3] == tail[i - 1..i - 1 + 3];
          assert !OccursAt(tail, Fence, i - 1);
        }
      }
    }
  }

  /** A kept leading backtick is not followed by two more in the output. */
  lemma NoFenceAtStart(s: string)
    requires |s| > 0 && !StartsWith(s, Fence)
    ensures var out := [s[0]] + StripMarker(s[1..], Fence);
      !(|out| >= 3 && out[0] == '`' && out[1] == '`' && out[2] == '`')
  {
    if s[0] == '`' && |s| >= 2 {
      var t := s[1..];
      if t[0] != '`' {
        StripHead(t);
      } else {
        StripHead(t);
        if |s| >= 3 {
          assert s[..3] != Fence;
          assert s[2] != '`';
          StripHead(t[1..]);
        }
      }
    }
  }

  lemma TrimKeepsFree(s: string, m: string)
    requires Free(s, m)
    ensures Free(Trim(s), m)
  {
    TrimIsSlice(s);
    FreeSlice(s, m, TrimOffset(s), TrimOffset(s) + |Trim(s)|);
  }

  /** A slice of text free of `m` is free of `m`. */
  lemma FreeSlice(s: string, m: string, a: nat, b: nat)
    requires Free(s, m) && a <= b <= |s|
    ensures Free(s[a..b], m)
  {
    var r := s[a..b];
    forall i: nat | i <= |r|
      ensures !OccursAt(r, m, i)
    {
      if i + |m| <= |r| {
        var w, v := r[i..i + |m|], s[a + i..a + i + |m|];
        forall j | 0 <= j < |m|
          ensures w[j] == v[j]
        {
          assert w[j] == r[i + j] == s[a + i + j];
        }
        assert w == v;
        assert !OccursAt(s, m, a + i);
      }
    }
  }

  // ---------------------------------------------------------- MIME type

  /** `getMimeType`: by lower-cased extension, JPEG for anything unknown. */
  function GetMimeType(filePath: string): (r: string)
    ensures r in {"image/jpeg", "image/png", "image/gif", "image/webp"}
    ensures r == "image/png" <==> AsciiLower(ExtName(filePath)) == ".png"
    ensures r == "image/gif" <==> AsciiLower(ExtName(filePath)) == ".gif"
    ensures r == "image/webp" <==> AsciiLower(ExtName(filePath)) == ".webp"
  {
    var ext := AsciiLower(ExtName(filePath));
    if ext == ".jpg" || ext == ".jpeg" then "image/jpeg"
    else if ext == ".png" then "image/png"
    else if ext == ".gif" then "image/gif"
    else if ext == ".webp" then "image/webp"
    else "image/jpeg"
  }

  /** The lookup ignores the case of the whole path. */
  lemma MimeTypeIgnoresCase(p: string, q: string)
    requires AsciiLower(p) == AsciiLower(q)
    ensures GetMimeType(p) == GetMimeType(q)
  {
    ExtNameLower(p);
    ExtNameLower(q);
  }

  lemma LowerSlice(s: string, a: nat, b: nat)
    requires a <= b <= |s|
    ensures AsciiLower(s[a..b]) == AsciiLower(s)[a..b]
  {
  }

  lemma {:induction false} StripTrailingSlashesLower(p: string)
    ensures StripTrailingSlashes(AsciiLower(p)) == AsciiLower(StripTrailingSlashes(p))
  {
    if |p| > 0 && p[|p| - 1] == '/' {
      LowerSlice(p, 0, |p| - 1);
      StripTrailingSlashesLower(p[..|p| - 1]);
    }
  }

  lemma {:induction false} LastIndexOfLower(s: string, c: char)
    requires !('A' <= c <= 'Z') && !('a' <= c <= 'z')
    ensures LastIndexOf(AsciiLower(s), c) == LastIndexOf(s, c)
  {
    if |s| > 0 {
      LowerSlice(s, 0, |s| - 1);
      LastIndexOfLower(s[..|s| - 1], c);
    }
  }

  lemma BaseNameLower(p: string)
    ensures BaseName(AsciiLower(p)) == AsciiLower(BaseName(p))
  {
    StripTrailingSlashesLower(p);
    LastSegmentLower(StripTrailingSlashes(p));
  }

  lemma LastSegmentLower(q: string)
    ensures LastSegment(AsciiLower(q)) == AsciiLower(LastSegment(q))
  {
    var l := AsciiLower(q);
    LastIndexOfLower(q, '/');
    LastSegmentCases(q);
    LastSegmentCases(l);
    var k := LastIndexOf(q, '/');
    if k.Some? {
      LowerSuffix(q, k.value + 1);
    }
  }

  lemma LastSegmentCases(q: string)
    ensures LastIndexOf(q, '/').None? ==> LastSegment(q) == q
    ensures LastIndexOf(q, '/').Some? ==> LastSegment(q) == q[LastIndexOf(q, '/').value + 1..]
  {
  }

  lemma LowerSuffix(s: string, a: nat)
    requires a <= |s|
    ensures AsciiLower(s[a..]) == AsciiLower(s)[a..]
  {
    LowerSlice(s, a, |s|);
    assert s[a..] == s[a..|s|];
  }

  lemma DotDotLower(b: string)
    ensures AsciiLower(b) == ".." <==> b == ".."
  {
    if AsciiLower(b) == ".." {
      assert |b| == 2 && LowerChar(b[0]) == '.' && LowerChar(b[1]) == '.';
      assert b == [b[0], b[1]];
    }
  }

  lemma ExtNameLower(p: string)
    ensures ExtName(AsciiLower(p)) == AsciiLower(ExtName(p))
  {
    BaseNameLower(p);
    SegmentExtLower(BaseName(p));
  }

  lemma SegmentExtLower(b: string)
    ensures SegmentExt(AsciiLower(b)) == AsciiLower(SegmentExt(b))
  {
    LastIndexOfLower(b, '.');
    var k := LastIndexOf(b, '.');
    DotDotLower(b);
    if k.Some? {
      LowerSlice(b, k.value, |b|);
    }
  }

  // --------------------------------------------------- prompt rendering

  /** One line of `formatAnalysisForPrompt`'s output. */
  datatype PromptLine =
    | CategoryLine(category: string)
    | ColorsLine(colors: seq<string>)
    | StyleLine(style: string)
    | MaterialsLine(materials: seq<string>)
    | FeaturesLine(features: seq<string>)
    | DescriptionLine(description: string)
  {
    /** Position of the line kind in the fixed output order. */
    function Rank(): nat {
      match this
      case CategoryLine(_) => 0
      case ColorsLine(_) => 1
      case StyleLine(_) => 2
      case MaterialsLine(_) => 3
      case FeaturesLine(_) => 4
      case DescriptionLine(_) => 5
    }

    function Render(): string {
      match this
      case CategoryLine(c) => "Categoria: " + c
      case ColorsLine(xs) => "Cores: " + Join(xs, ", ")
      case StyleLine(s) => "Estilo: " + s
      case MaterialsLine(xs) => "Materiais: " + Join(xs, ", ")
      case FeaturesLine(xs) => "Características visuais: " + Join(xs, "; ")
      case DescriptionLine(d) => "\nDescrição visual: " + d
    }
  }

  /** Whether a candidate line is worth printing: a non-empty field, and
      for category and style one that differs from the fallback's
      placeholder. */
  predicate Informative(l: PromptLine) {
    match l
    case CategoryLine(c) => c != "" && c != "produto"
    case ColorsLine(xs) => |xs| > 0
    case StyleLine(st) => st != "" && st != "não identificado"
    case MaterialsLine(xs) => |xs| > 0
    case FeaturesLine(xs) => |xs| > 0
    case DescriptionLine(d) => d != ""
  }

  /** Every line the analysis could produce, in output order. */
  function Candidates(a: Analysis): seq<PromptLine> {
    [CategoryLine(a.category), ColorsLine(a.colors), StyleLine(a.style),
     MaterialsLine(a.materials), FeaturesLine(a.features), DescriptionLine(a.detailedDescription)]
  }

  predicate RankOrdered(ls: seq<PromptLine>) {
    forall i, j :: 0 <= i < j < |ls| ==> ls[i].Rank() < ls[j].Rank()
  }

  /** The informative lines of `ls`, in their original order. */
  function KeepInformative(ls: seq<PromptLine>): (r: seq<PromptLine>)
    ensures forall l :: l in r <==> l in ls && Informative(l)
    ensures RankOrdered(ls) ==> RankOrdered(r)
  {
    if |ls| == 0 then []
    else
      var rest := KeepInformative(ls[1..]);
      assert forall l :: l in ls <==> l == ls[0] || l in ls[1..];
      if Informative(ls[0]) then
        assert forall k :: 0 <= k < |rest| ==> rest[k] in ls[1..];
        [ls[0]] + rest
      else rest
  }

  /** The lines `formatAnalysisForPrompt` pushes, in order. */
  function PromptLines(a: Analysis): (ls: seq<PromptLine>)
    ensures RankOrdered(ls)
    ensures forall l :: l in ls <==> l in Candidates(a) && Informative(l)
  {
    var c := Candidates(a);
    assert RankOrdered(c) by {
      assert forall i :: 0 <= i < |c| ==> c[i].Rank() == i;
    }
    KeepInformative(c)
  }

  function RenderLines(ls: seq<PromptLine>): (r: seq<string>)
    ensures |r| == |ls|
    ensures forall i :: 0 <= i < |ls| ==> r[i] == ls[i].Render()
  {
    seq(|ls|, i requires 0 <= i < |ls| => ls[i].Render())
  }

  /** `formatAnalysisForPrompt`: the rendered lines joined by newlines. */
  function FormatAnalysisForPrompt(a: Analysis): string {
    Join(RenderLines(PromptLines(a)), "\n")
  }

  /** Of the fallback record only the description is informative. */
  lemma FallbackLines()
    ensures PromptLines(Fallback) == [DescriptionLine(FallbackDescription)]
  {
    var c := Candidates(Fallback);
    assert c[5..][1..] == [];
    assert c[4..][1..] == c[5..];
    assert c[3..][1..] == c[4..];
    assert c[2..][1..] == c[3..];
    assert c[1..][1..] == c[2..];
  }

  /** A record whose only informative field is its description renders as
      the description line alone. */
  lemma FormatDescriptionOnly(a: Analysis)
    requires PromptLines(a) == [DescriptionLine(a.detailedDescription)]
    ensures FormatAnalysisForPrompt(a) == "\nDescrição visual: " + a.detailedDescription
  {
    var r := RenderLines(PromptLines(a));
    assert r == [DescriptionLine(a.detailedDescription).Render()];
  }

  lemma FormatFallback()
    ensures FormatAnalysisForPrompt(Fallback) == "\nDescrição visual: " + FallbackDescription
  {
    FallbackLines();
    FormatDescriptionOnly(Fallback);
  }
}
