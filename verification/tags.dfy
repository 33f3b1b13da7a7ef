/** The tags pipeline: one chat call whose comma-separated answer gets
    uniform ", " separators. */
module TagsPipeline {
  import opened Wrappers
  import opened Text
  import opened Chat

  datatype TagsInput = TagsInput(name: string, description: Option<string>, maxTags: Option<int>)

  const DefaultMaxTags := 10

  const Intro := "Gere uma lista de palavras-chave (tags) para e-commerce brasileiro."
  const OnlyTags := "Responda APENAS com as tags separadas por vírgula."

  function CountSentence(maxTags: int): string {
    "Gere no máximo " + DecimalString(maxTags) + " tags."
  }

  function TagsPrompt(input: TagsInput): Prompt {
    Prompt(
      Join([Intro, OnlyTags, CountSentence(input.maxTags.GetOr(DefaultMaxTags))], " "),
      Join(["Nome do produto: " + input.name, "Descrição base (se houver): " + input.description.GetOr("")], "\n"))
  }

  /** A missing description and tag count render as "" and 10. */
  lemma TagsPromptDefaults(name: string)
    ensures TagsPrompt(TagsInput(name, None, None)) == TagsPrompt(TagsInput(name, Some(""), Some(10)))
  {
  }

  // ------------------------------------------------- comma normalisation

  /** The leading whitespace of `s` is followed by a comma. */
  predicate CommaNext(s: string) {
    var t := TrimStart(s);
    |t| > 0 && t[0] == ','
  }

  lemma TrimStartCons(s: string)
    requires |s| > 0
    ensures IsWs(s[0]) ==> TrimStart(s) == TrimStart(s[1..])
  {
  }

  /** The global replacement of the pattern `\s*,\s*` by ", ": scanning
      left to right, a whitespace run that ends in a comma, the comma and
      the whitespace after it become ", "; every other character is
      copied. */
  function CommaSpacing(s: string): (r: string)
    ensures |s| > 0 ==> |r| > 0 && (r[0] == ',' <==> CommaNext(s))
    ensures |s| > 0 && !IsWs(s[0]) ==> !IsWs(r[0])
    decreases |s|
  {
    if |s| == 0 then []
    else
      var t := TrimStart(s);
      if |t| > 0 && t[0] == ',' then
        ", " + CommaSpacing(TrimStart(t[1..]))
      else
        TrimStartCons(s);
        [s[0]] + CommaSpacing(s[1..])
  }

  /** CommaSpacing's two steps, unfolded once. */
  lemma CommaSpacingStep(s: string)
    requires |s| > 0
    ensures CommaNext(s) ==> CommaSpacing(s) == ", " + CommaSpacing(TrimStart(TrimStart(s)[1..]))
    ensures !CommaNext(s) ==> CommaSpacing(s) == [s[0]] + CommaSpacing(s[1..])
  {
  }

  /** A comma at `i` that is not last is followed by one space and then by
      a non-whitespace character or the end. */
  predicate CommaSpacedAt(r: string, i: nat)
    requires i < |r|
  {
    r[i] == ',' && i + 1 < |r| ==> r[i + 1] == ' ' && (i + 2 < |r| ==> !IsWs(r[i + 2]))
  }

  predicate CommasSpaced(r: string) {
    forall i: nat :: i < |r| ==> CommaSpacedAt(r, i)
  }

  /** Whitespace right before a comma at `i + 1` is a single space emitted
      after a preceding comma. */
  predicate SpaceRuleAt(r: string, i: nat)
    requires i + 1 < |r|
  {
    r[i + 1] == ',' && IsWs(r[i]) ==> r[i] == ' ' && 1 <= i && r[i - 1] == ','
  }

  predicate SpaceBeforeCommaFollowsComma(r: string) {
    forall i: nat :: i + 1 < |r| ==> SpaceRuleAt(r, i)
  }

  lemma PrependSeparator(x: string)
    requires CommasSpaced(x) && (|x| > 0 ==> !IsWs(x[0]))
    ensures CommasSpaced(", " + x)
  {
    var r := ", " + x;
    forall i: nat | i < |r|
      ensures CommaSpacedAt(r, i)
    {
      if i >= 2 {
        assert CommaSpacedAt(x, i - 2);
        assert r[i] == x[i - 2];
        if i + 1 < |r| { assert r[i + 1] == x[i - 1]; }
        if i + 2 < |r| { assert r[i + 2] == x[i]; }
      }
    }
  }

  lemma PrependOther(c: char, x: string)
    requires CommasSpaced(x) && c != ','
    ensures CommasSpaced([c] + x)
  {
    var r := [c] + x;
    forall i: nat | i < |r|
      ensures CommaSpacedAt(r, i)
    {
      if i >= 1 {
        assert CommaSpacedAt(x, i - 1);
        assert r[i] == x[i - 1];
        if i + 1 < |r| { assert r[i + 1] == x[i]; }
        if i + 2 < |r| { assert r[i + 2] == x[i + 1]; }
      }
    }
  }

  lemma {:induction false} CommaSpacingCommasSpaced(s: string)
    ensures CommasSpaced(CommaSpacing(s))
    decreases |s|
  {
    if |s| > 0 {
      CommaSpacingStep(s);
      if CommaNext(s) {
        var u := TrimStart(TrimStart(s)[1..]);
        CommaSpacingCommasSpaced(u);
        PrependSeparator(CommaSpacing(u));
      } else {
        CommaSpacingCommasSpaced(s[1..]);
        PrependOther(s[0], CommaSpacing(s[1..]));
      }
    }
  }

  lemma PrependSeparatorKeepsSpaceRule(x: string)
    requires SpaceBeforeCommaFollowsComma(x)
    ensures SpaceBeforeCommaFollowsComma(", " + x)
  {
    var r := ", " + x;
    forall i: nat | i + 1 < |r|
      ensures SpaceRuleAt(r, i)
    {
      if i >= 2 {
        assert SpaceRuleAt(x, i - 2);
        assert r[i + 1] == x[i - 1] && r[i] == x[i - 2];
        if i >= 3 { assert r[i - 1] == x[i - 3]; }
      }
    }
  }

  lemma PrependOtherKeepsSpaceRule(c: char, x: string)
    requires SpaceBeforeCommaFollowsComma(x)
    requires IsWs(c) ==> |x| == 0 || x[0] != ','
    ensures SpaceBeforeCommaFollowsComma([c] + x)
  {
    var r := [c] + x;
    forall i: nat | i + 1 < |r|
      ensures SpaceRuleAt(r, i)
    {
      assert r[i + 1] == x[i];
      if i >= 1 {
        assert SpaceRuleAt(x, i - 1);
        assert r[i] == x[i - 1];
        if i >= 2 { assert r[i - 1] == x[i - 2]; }
      }
    }
  }

  lemma {:induction false} CommaSpacingSpaceRule(s: string)
    ensures SpaceBeforeCommaFollowsComma(CommaSpacing(s))
    decreases |s|
  {
    if |s| > 0 {
      CommaSpacingStep(s);
      if CommaNext(s) {
        var u := TrimStart(TrimStart(s)[1..]);
        CommaSpacingSpaceRule(u);
        PrependSeparatorKeepsSpaceRule(CommaSpacing(u));
      } else {
        CommaSpacingSpaceRule(s[1..]);
        TrimStartCons(s);
        PrependOtherKeepsSpaceRule(s[0], CommaSpacing(s[1..]));
      }
    }
  }

  /** Only whitespace is added or deleted. */
  lemma {:induction false} CommaSpacingVisible(s: string)
    ensures Visible(CommaSpacing(s)) == Visible(s)
    decreases |s|
  {
    if |s| > 0 {
      CommaSpacingStep(s);
      if CommaNext(s) {
        var t := TrimStart(s);
        var u := TrimStart(t[1..]);
        var x := CommaSpacing(u);
        CommaSpacingVisible(u);
        VisibleTrimStart(s);
        VisibleTrimStart(t[1..]);
        VisibleSeparator(t, x);
      } else {
        CommaSpacingVisible(s[1..]);
        VisibleCons(s, CommaSpacing(s[1..]));
      }
    }
  }

  lemma VisibleSeparator(t: string, x: string)
    requires |t| > 0 && t[0] == ','
    ensures Visible(", " + x) == [','] + Visible(x)
    ensures Visible(t) == [','] + Visible(t[1..])
  {
    assert (", " + x)[1..] == " " + x;
    assert (" " + x)[1..] == x;
  }

  lemma VisibleCons(s: string, x: string)
    requires |s| > 0
    ensures Visible([s[0]] + x) == (if IsWs(s[0]) then [] else [s[0]]) + Visible(x)
    ensures Visible(s) == (if IsWs(s[0]) then [] else [s[0]]) + Visible(s[1..])
  {
    VisibleOfCons([s[0]] + x, s[0], x);
  }

  lemma VisibleOfCons(y: string, c: char, x: string)
    requires |y| > 0 && y[0] == c && y[1..] == x
    ensures Visible(y) == (if IsWs(c) then [] else [c]) + Visible(x)
  {
  }

  /** Text without commas is copied unchanged. */
  lemma {:induction false} CommaSpacingNoComma(s: string)
    requires ',' !in s
    ensures CommaSpacing(s) == s
    decreases |s|
  {
    if |s| > 0 {
      var t := TrimStart(s);
      assert t == s[|s| - |t|..];
      assert !CommaNext(s);
      CommaSpacingStep(s);
      CommaSpacingNoComma(s[1..]);
      assert [s[0]] + s[1..] == s;
    }
  }

  lemma TrimKeepsCommasSpaced(c: string)
    requires CommasSpaced(c)
    ensures CommasSpaced(Trim(c))
  {
    TrimIsSlice(c);
    CommasSpacedSlice(c, TrimOffset(c), TrimOffset(c) + |Trim(c)|);
  }

  lemma CommasSpacedSlice(c: string, a: nat, b: nat)
    requires CommasSpaced(c) && a <= b <= |c|
    ensures CommasSpaced(c[a..b])
  {
    var r := c[a..b];
    forall i: nat | i < |r|
      ensures CommaSpacedAt(r, i)
    {
      assert CommaSpacedAt(c, a + i);
      assert r[i] == c[a + i];
      if i + 1 < |r| { assert r[i + 1] == c[a + i + 1]; }
      if i + 2 < |r| { assert r[i + 2] == c[a + i + 2]; }
    }
  }

  lemma TrimKeepsSpaceRule(c: string)
    requires SpaceBeforeCommaFollowsComma(c)
    ensures SpaceBeforeCommaFollowsComma(Trim(c))
  {
    TrimIsSlice(c);
    var a := TrimOffset(c);
    var r := Trim(c);
    forall i: nat | i + 1 < |r|
      ensures SpaceRuleAt(r, i)
    {
      assert SpaceRuleAt(c, a + i);
      assert r[i] == c[a + i] && r[i + 1] == c[a + i + 1];
      if i >= 1 { assert r[i - 1] == c[a + i - 1]; }
    }
  }

  // ------------------------------------------------- reference reading

  /** One piece of a comma split with the whitespace next to its commas
      removed: the start unless it is the first piece, the end unless it is
      the last. */
  function TrimAround(p: string, first: bool, last: bool): string {
    var q := if first then p else TrimStart(p);
    if last then q else TrimEnd(q)
  }

  /** Applies `f` to every element, telling it whether the element is the
      first and whether it is the last. */
  function EdgeMap<T, U>(ps: seq<T>, f: (T, bool, bool) -> U): seq<U> {
    seq(|ps|, i requires 0 <= i < |ps| => f(ps[i], i == 0, i == |ps| - 1))
  }

  function TrimPieces(ps: seq<string>): seq<string> {
    EdgeMap(ps, TrimAround)
  }

  /** The replacement read piece by piece: split at the commas, drop the
      whitespace on both sides of each comma, join again with ", ". */
  function SpacedPieces(s: string): string {
    Join(TrimPieces(Split(s, ',')), ", ")
  }

  /** Without a comma there is one piece, kept whole. */
  lemma SpacedPiecesNoComma(s: string)
    requires ',' !in s
    ensures SpacedPieces(s) == s
  {
    SplitNoSeparator(s, ',');
    assert TrimPieces([s]) == [s];
  }

  lemma NoCommaInWs(w: string)
    requires AllWs(w)
    ensures ',' !in w
  {
    forall i | 0 <= i < |w|
      ensures w[i] != ','
    {
      assert IsWs(w[i]);
    }
  }

  /** Text is its leading whitespace followed by TrimStart of it. */
  lemma TrimStartSplits(b: string)
    ensures b == b[..|b| - |TrimStart(b)|] + TrimStart(b)
    ensures AllWs(b[..|b| - |TrimStart(b)|])
  {
  }

  /** The piece after the first comma is its leading whitespace followed by
      the first piece of the split of the trimmed rest. */
  lemma SplitAtComma(a: string, b: string)
    requires ',' !in a
    ensures var x := TrimStart(b);
      var xs := Split(x, ',');
      exists w :: AllWs(w) && Split(a + [','] + b, ',') == [a] + ([w + xs[0]] + xs[1..])
  {
    SplitAfterPiece(a, b, ',');
    var x := TrimStart(b);
    var w := b[..|b| - |x|];
    TrimStartSplits(b);
    NoCommaInWs(w);
    SplitFreePrefix(w, x, ',');
  }

  /** The first split piece of trimmed text starts where the text does. */
  lemma TrimmedHead(b: string)
    ensures var h := Split(TrimStart(b), ',')[0];
      |h| == 0 || !IsWs(h[0])
  {
    var x := TrimStart(b);
    SplitHeadPrefix(x, ',');
    var h := Split(x, ',')[0];
    assert |h| > 0 ==> h[0] == x[0];
  }

  /** The piece after a comma is read after its leading whitespace. */
  lemma TrimPiecesCons(a: string, p: string, rest: seq<string>)
    ensures TrimPieces([a] + ([p] + rest)) == [TrimEnd(a)] + TrimPieces([TrimStart(p)] + rest)
  {
    EdgeMapShift(TrimAround, a, p, TrimStart(p), rest);
  }

  /** Once an element is no longer first, `f` may see it through `p2`. */
  lemma EdgeMapShift<T, U>(f: (T, bool, bool) -> U, a: T, p: T, p2: T, rest: seq<T>)
    requires f(p, false, false) == f(p2, true, false)
    requires f(p, false, true) == f(p2, true, true)
    ensures EdgeMap([a] + ([p] + rest), f) == [f(a, true, false)] + EdgeMap([p2] + rest, f)
  {
    var ps := [a] + ([p] + rest);
    var qs := [p2] + rest;
    var l := EdgeMap(ps, f);
    var r := EdgeMap(qs, f);
    forall i | 0 <= i < |r|
      ensures l[i + 1] == r[i]
    {
      if i > 0 {
        assert ps[i + 1] == rest[i - 1] == qs[i];
      }
    }
    assert l == [l[0]] + r;
  }

  /** The reference reading at the first comma: the text before it loses
      its trailing whitespace, the comma becomes ", ", and the rest is read
      after its leading whitespace. */
  lemma SpacedPiecesAtComma(a: string, b: string)
    requires ',' !in a
    ensures SpacedPieces(a + [','] + b) == TrimEnd(a) + ", " + SpacedPieces(TrimStart(b))
  {
    var xs := Split(TrimStart(b), ',');
    SplitAtComma(a, b);
    var w :| AllWs(w) && Split(a + [','] + b, ',') == [a] + ([w + xs[0]] + xs[1..]);
    TrimmedHead(b);
    TrimStartFramed(w, xs[0]);
    TrimPiecesCons(a, w + xs[0], xs[1..]);
    assert [xs[0]] + xs[1..] == xs;
    JoinCons(TrimEnd(a), TrimPieces(xs), ", ");
  }

  /** CommaSpacing at a comma preceded by whitespace only. */
  lemma CommaSpacingAfterWs(a: string, b: string)
    requires AllWs(a)
    ensures CommaSpacing(a + [','] + b) == TrimEnd(a) + ", " + CommaSpacing(TrimStart(b))
  {
    var t := [','] + b;
    var s := a + t;
    assert a + [','] + b == s;
    TrimStartFramed(a, t);
    assert t[1..] == b;
    CommaSpacingStep(s);
    var u := CommaSpacing(TrimStart(b));
    assert CommaSpacing(s) == ", " + u;
    TrimEndAllWs(a);
    EmptyHead(TrimEnd(a), ", ", u);
  }

  lemma EmptyHead(e: string, x: string, y: string)
    requires e == []
    ensures e + x + y == x + y
  {
  }

  /** CommaSpacing copies a visible character that precedes the first
      comma. */
  lemma CommaSpacingBeforeComma(a: string, b: string)
    requires ',' !in a && !AllWs(a)
    ensures CommaSpacing(a + [','] + b) == [a[0]] + CommaSpacing(a[1..] + [','] + b)
  {
    var t := [','] + b;
    assert a + [','] + b == a + t;
    NoCommaNextBefore(a, t);
    CommaSpacingStep(a + t);
    assert (a + t)[1..] == a[1..] + [','] + b;
  }

  /** CommaSpacing at the first comma, in the same terms. */
  lemma {:induction false} CommaSpacingAtComma(a: string, b: string)
    requires ',' !in a
    ensures CommaSpacing(a + [','] + b) == TrimEnd(a) + ", " + CommaSpacing(TrimStart(b))
    decreases |a|
  {
    if AllWs(a) {
      CommaSpacingAfterWs(a, b);
    } else {
      var c := CommaSpacing(TrimStart(b));
      CommaSpacingBeforeComma(a, b);
      assert ',' !in a[1..] by {
        forall i | 0 <= i < |a[1..]|
          ensures a[1..][i] != ','
        {
          assert a[1..][i] == a[i + 1];
        }
      }
      CommaSpacingAtComma(a[1..], b);
      TrimEndCons(a);
      ConsAssoc3(a[0], TrimEnd(a[1..]), ", ", c);
    }
  }

  lemma ConsAssoc3(h: char, x: string, y: string, z: string)
    ensures [h] + (x + y + z) == ([h] + x) + y + z
  {
  }

  /** A visible character before the first comma stops the comma rule from
      applying at the start. */
  lemma NoCommaNextBefore(a: string, b: string)
    requires ',' !in a && !AllWs(a)
    ensures !CommaNext(a + b)
  {
    var s := a + b;
    var t := TrimStart(s);
    var k := |s| - |t|;
    var j :| 0 <= j < |a| && !IsWs(a[j]);
    assert s[j] == a[j];
    forall i | 0 <= i < k
      ensures IsWs(s[i])
    {
      assert s[i] == s[..k][i];
    }
    assert k <= j;
    assert t[0] == s[k] == a[k];
  }

  /** The replacement equals its reference reading on every text. */
  lemma {:induction false} CommaSpacingReference(s: string)
    ensures CommaSpacing(s) == SpacedPieces(s)
    decreases |s|
  {
    match FirstIndexOf(s, ',')
    case None =>
      CommaSpacingNoComma(s);
      SpacedPiecesNoComma(s);
    case Some(i) =>
      var a, b := s[..i], s[i + 1..];
      assert s == a + [','] + b;
      CommaSpacingAtComma(a, b);
      SpacedPiecesAtComma(a, b);
      CommaSpacingReference(TrimStart(b));
  }

  /** The separator normalisation of `run`: the replacement above, then
      `trim`. */
  function NormalizeTags(s: string): (r: string)
    ensures r == Trim(SpacedPieces(s))
    ensures IsTrimmed(r)
    ensures Visible(r) == Visible(s)
    ensures CommasSpaced(r)
    ensures SpaceBeforeCommaFollowsComma(r)
  {
    var c := CommaSpacing(s);
    CommaSpacingVisible(s);
    VisibleTrim(c);
    CommaSpacingCommasSpaced(s);
    CommaSpacingSpaceRule(s);
    TrimKeepsCommasSpaced(c);
    TrimKeepsSpaceRule(c);
    CommaSpacingReference(s);
    Trim(c)
  }

  /** Input without commas is only trimmed. */
  lemma NormalizeTagsNoComma(s: string)
    requires ',' !in s
    ensures NormalizeTags(s) == Trim(s)
  {
    CommaSpacingNoComma(s);
  }

  // ------------------------------------------------------ idempotence

  /** Spaced the way the normalisation spaces it, up to a final ", ". */
  predicate WellSpaced(t: string) {
    CommasSpaced(t) && SpaceBeforeCommaFollowsComma(t)
  }

  lemma WellSpacedTail(t: string, k: nat)
    requires WellSpaced(t) && k <= |t|
    requires k > 0 ==> t[k - 1] != ','
    ensures WellSpaced(t[k..])
  {
    var u := t[k..];
    forall i: nat | i < |u|
      ensures CommaSpacedAt(u, i)
    {
      assert CommaSpacedAt(t, k + i);
      assert u[i] == t[k + i];
      if i + 1 < |u| { assert u[i + 1] == t[k + i + 1]; }
      if i + 2 < |u| { assert u[i + 2] == t[k + i + 2]; }
    }
    forall i: nat | i + 1 < |u|
      ensures SpaceRuleAt(u, i)
    {
      assert SpaceRuleAt(t, k + i);
      assert u[i] == t[k + i] && u[i + 1] == t[k + i + 1];
      if i >= 1 { assert u[i - 1] == t[k + i - 1]; }
    }
  }

  /** After a leading whitespace character of a well-spaced text, no comma
      follows the whitespace run. */
  lemma WellSpacedNoCommaAfterWs(t: string)
    requires WellSpaced(t) && |t| > 0 && IsWs(t[0])
    ensures !CommaNext(t)
  {
    var u := TrimStart(t);
    var k := |t| - |u|;
    if k < |t| {
      NoCommaAfterWsRun(t, k);
      assert u[0] == t[k];
    }
  }

  /** A comma never follows a leading whitespace run: the rule would need a
      comma before the run. */
  lemma NoCommaAfterWsRun(t: string, k: nat)
    requires SpaceBeforeCommaFollowsComma(t) && 1 <= k < |t| && AllWs(t[..k])
    ensures t[k] != ','
  {
    assert IsWs(t[k - 1]) by {
      assert t[..k][k - 1] == t[k - 1];
    }
    assert SpaceRuleAt(t, k - 1);
    if k >= 2 {
      assert IsWs(t[k - 2]) by {
        assert t[..k][k - 2] == t[k - 2];
      }
    }
  }

  lemma WellSpacedCommaHead(t: string)
    requires WellSpaced(t) && |t| > 1 && t[0] == ','
    ensures CommaNext(t) && t[1] == ' '
    ensures TrimStart(t[1..]) == t[2..] && WellSpaced(t[2..])
  {
    assert TrimStart(t) == t;
    assert CommaSpacedAt(t, 0);
    TrimStartSingle(t[1..]);
    assert t[1..][1..] == t[2..];
    WellSpacedTail(t, 2);
  }

  lemma WellSpacedOtherHead(t: string)
    requires WellSpaced(t) && |t| > 0 && t[0] != ','
    ensures !CommaNext(t) && WellSpaced(t[1..])
  {
    if IsWs(t[0]) {
      WellSpacedNoCommaAfterWs(t);
    } else {
      assert TrimStart(t) == t;
    }
    WellSpacedTail(t, 1);
  }

  /** What CommaSpacing does to a well-spaced text: one space after a final
      comma, nothing else. */
  function SpacedTail(t: string): string {
    if |t| > 0 && t[|t| - 1] == ',' then t + " " else t
  }

  /** On well-spaced text CommaSpacing only adds a space after a final
      comma. */
  lemma {:induction false} CommaSpacingWellSpaced(t: string)
    requires WellSpaced(t)
    ensures CommaSpacing(t) == SpacedTail(t)
    decreases |t|, 1
  {
    if |t| == 1 && t[0] == ',' {
      CommaSpacingLoneComma(t);
    } else if |t| > 1 && t[0] == ',' {
      CommaSpacingWellSpacedComma(t);
    } else if |t| > 0 {
      CommaSpacingWellSpacedOther(t);
    }
  }

  lemma CommaSpacingLoneComma(t: string)
    requires |t| == 1 && t[0] == ','
    ensures CommaSpacing(t) == SpacedTail(t)
  {
    LoneCommaSpaced(t);
    LoneCommaTail(t);
  }

  lemma LoneCommaSpaced(t: string)
    requires |t| == 1 && t[0] == ','
    ensures CommaSpacing(t) == ", "
  {
    LoneCommaStep(t);
    EmptySpacing(t[1..]);
  }

  lemma LoneCommaStep(t: string)
    requires |t| == 1 && t[0] == ','
    ensures CommaSpacing(t) == ", " + CommaSpacing(t[1..])
  {
    CommaHead(t);
    EmptyTrim(t[1..]);
  }

  /** A leading comma is always rewritten. */
  lemma CommaHead(t: string)
    requires |t| > 0 && t[0] == ','
    ensures CommaSpacing(t) == ", " + CommaSpacing(TrimStart(t[1..]))
  {
    assert TrimStart(t) == t;
    CommaSpacingStep(t);
  }

  lemma EmptyTrim(b: string)
    requires |b| == 0
    ensures TrimStart(b) == b
  {
  }

  lemma EmptySpacing(b: string)
    requires |b| == 0
    ensures CommaSpacing(b) == b
  {
  }

  lemma LoneCommaTail(t: string)
    requires |t| == 1 && t[0] == ','
    ensures SpacedTail(t) == ", "
  {
    assert SpacedTail(t) == t + " ";
  }

  lemma {:induction false} CommaSpacingWellSpacedComma(t: string)
    requires WellSpaced(t) && |t| > 1 && t[0] == ','
    ensures CommaSpacing(t) == SpacedTail(t)
    decreases |t|, 0
  {
    WellSpacedCommaHead(t);
    SeparatorHead(t);
    CommaSpacingStep(t);
    CommaSpacingWellSpaced(t[2..]);
    SpacedTailCons(", ", t[2..]);
  }

  lemma {:induction false} CommaSpacingWellSpacedOther(t: string)
    requires WellSpaced(t) && |t| > 0 && t[0] != ','
    ensures CommaSpacing(t) == SpacedTail(t)
    decreases |t|, 0
  {
    WellSpacedOtherHead(t);
    CommaSpacingStep(t);
    CommaSpacingWellSpaced(t[1..]);
    SpacedTailCons([t[0]], t[1..]);
    assert t == [t[0]] + t[1..];
  }

  lemma SeparatorHead(t: string)
    requires |t| > 1 && t[0] == ',' && t[1] == ' '
    ensures t == ", " + t[2..]
  {
  }

  lemma SpacedTailCons(p: string, x: string)
    requires |x| > 0 || (|p| > 0 && p[|p| - 1] != ',')
    ensures p + SpacedTail(x) == SpacedTail(p + x)
  {
    if |x| > 0 {
      assert (p + x)[|p + x| - 1] == x[|x| - 1];
      if x[|x| - 1] == ',' { assert p + (x + " ") == (p + x) + " "; }
    }
  }

  /** Normalising a normalised answer changes nothing. */
  lemma NormalizeTagsIdempotent(s: string)
    ensures NormalizeTags(NormalizeTags(s)) == NormalizeTags(s)
  {
    var r := NormalizeTags(s);
    CommaSpacingWellSpaced(r);
    if |r| > 0 && r[|r| - 1] == ',' {
      TrimEndSnoc(r, ' ');
      assert TrimStart(r + " ") == r + " ";
    }
    TrimOfTrimmed(r);
  }

  // ------------------------------------------------------------ run

  /** `run`: the model's text with normalised separators. A non-string
      `content` fails on `replace`. */
  function Run(input: TagsInput, llm: ChatModel): (r: Result<string>)
    ensures r.Ok? <==> llm(TagsPrompt(input)).Ok? && RawText(llm(TagsPrompt(input)).value).Text?
    ensures r.Ok? ==> IsTrimmed(r.value) && CommasSpaced(r.value) && SpaceBeforeCommaFollowsComma(r.value)
    ensures r.Ok? ==> Visible(r.value) == Visible(RawText(llm(TagsPrompt(input)).value).text)
    ensures r.Ok? ==> r.value == Trim(SpacedPieces(RawText(llm(TagsPrompt(input)).value).text))
    ensures llm(TagsPrompt(input)).Err? ==> r == Err(llm(TagsPrompt(input)).error)
  {
    var response :- llm(TagsPrompt(input));
    var text :- StringText(response);
    Ok(NormalizeTags(text))
  }

  /** `maxTags` reaches only the instruction: the number of tags in the
      answer is not enforced. */
  lemma MaxTagsOnlyInstructs(input: TagsInput, m: Option<int>, llm1: ChatModel, llm2: ChatModel)
    requires llm1(TagsPrompt(input)) == llm2(TagsPrompt(input.(maxTags := m)))
    ensures TagsPrompt(input).human == TagsPrompt(input.(maxTags := m)).human
    ensures Run(input, llm1) == Run(input.(maxTags := m), llm2)
  {
  }
}
