/** String primitives of the JavaScript runtime that the application relies
    on: the `\s` character class (which is also the set
    `String.prototype.trim` removes), `trim`, `Array.prototype.join`,
    `String.prototype.split` on one character, `startsWith`, ASCII
    lower-casing, POSIX `path.extname` and integer-to-decimal conversion. */
module Text {
  import opened Wrappers

  /** JavaScript's `\s`: WhiteSpace and LineTerminator code points. */
  predicate IsWs(c: char) {
    var n := c as int;
    n == 0x09 || n == 0x0A || n == 0x0B || n == 0x0C || n == 0x0D || n == 0x20
    || n == 0xA0 || n == 0x1680 || (0x2000 <= n <= 0x200A) || n == 0x2028
    || n == 0x2029 || n == 0x202F || n == 0x205F || n == 0x3000 || n == 0xFEFF
  }

  predicate AllWs(s: string) {
    forall i :: 0 <= i < |s| ==> IsWs(s[i])
  }

  /** No leading and no trailing whitespace. */
  predicate IsTrimmed(s: string) {
    |s| == 0 || (!IsWs(s[0]) && !IsWs(s[|s| - 1]))
  }

  predicate StartsWith(s: string, prefix: string) {
    |prefix| <= |s| && s[..|prefix|] == prefix
  }

  /** The non-whitespace characters of `s`, in order. */
  function Visible(s: string): string {
    if |s| == 0 then []
    else if IsWs(s[0]) then Visible(s[1..])
    else [s[0]] + Visible(s[1..])
  }

  // ---------------------------------------------------------------- trim

  /** `trimStart`: drops the leading whitespace run. */
  function TrimStart(s: string): (r: string)
    ensures |r| <= |s| && r == s[|s| - |r|..]
    ensures AllWs(s[..|s| - |r|])
    ensures |r| > 0 ==> !IsWs(r[0])
  {
    if |s| > 0 && IsWs(s[0]) then TrimStart(s[1..]) else s
  }

  /** `trimEnd`: drops the trailing whitespace run. */
  function TrimEnd(s: string): (r: string)
    ensures |r| <= |s| && r == s[..|r|]
    ensures AllWs(s[|r|..])
    ensures |r| > 0 ==> !IsWs(r[|r| - 1])
  {
    if |s| > 0 && IsWs(s[|s| - 1]) then TrimEnd(s[..|s| - 1]) else s
  }

  /** `String.prototype.trim`. */
  function Trim(s: string): (r: string)
    ensures IsTrimmed(r)
  {
    TrimEnd(TrimStart(s))
  }

  /** Where Trim's result starts inside its argument. */
  function TrimOffset(s: string): nat
    ensures TrimOffset(s) <= |s|
  {
    |s| - |TrimStart(s)|
  }

  /** Trim returns the slice of `s` from its first to its last
      non-whitespace character. */
  lemma TrimIsSlice(s: string)
    ensures TrimOffset(s) + |Trim(s)| <= |s|
    ensures Trim(s) == s[TrimOffset(s)..TrimOffset(s) + |Trim(s)|]
  {
    var t := TrimStart(s);
    var r := TrimEnd(t);
    var a := |s| - |t|;
    assert r == t[..|r|];
    assert t == s[a..];
  }

  /** Everything Trim drops is whitespace. */
  lemma TrimDropsOnlyWs(s: string)
    ensures TrimOffset(s) + |Trim(s)| <= |s|
    ensures AllWs(s[..TrimOffset(s)])
    ensures AllWs(s[TrimOffset(s) + |Trim(s)|..])
  {
    var t := TrimStart(s);
    var r := TrimEnd(t);
    var a := |s| - |t|;
    assert t == s[a..];
    assert s[a + |r|..] == t[|r|..];
  }

  /** A lone leading whitespace character is all TrimStart drops. */
  lemma TrimStartSingle(s: string)
    requires |s| > 0 && IsWs(s[0]) && (|s| == 1 || !IsWs(s[1]))
    ensures TrimStart(s) == s[1..]
  {
    var t := TrimStart(s);
    assert |s| - |t| >= 1;
  }

  lemma TrimOfTrimmed(s: string)
    requires IsTrimmed(s)
    ensures Trim(s) == s
  {
  }

  lemma TrimEndSnoc(s: string, c: char)
    requires IsWs(c)
    ensures TrimEnd(s + [c]) == TrimEnd(s)
  {
    assert (s + [c])[..|s + [c]| - 1] == s;
  }

  /** TrimStart drops exactly a whitespace prefix that stops at a
      non-whitespace character or at the end. */
  lemma TrimStartUnique(s: string, k: nat)
    requires k <= |s| && AllWs(s[..k]) && (k == |s| || !IsWs(s[k]))
    ensures TrimStart(s) == s[k..]
  {
    var n := |s| - |TrimStart(s)|;
    forall i | 0 <= i < n
      ensures IsWs(s[i])
    {
      assert s[i] == s[..n][i];
    }
    forall i | 0 <= i < k
      ensures IsWs(s[i])
    {
      assert s[i] == s[..k][i];
    }
    assert n < |s| ==> !IsWs(s[n]) by {
      if n < |s| {
        assert TrimStart(s)[0] == s[n];
      }
    }
  }

  /** TrimEnd keeps exactly a prefix followed by whitespace only and ending
      in a non-whitespace character, or nothing. */
  lemma TrimEndUnique(s: string, m: nat)
    requires m <= |s| && AllWs(s[m..]) && (m == 0 || !IsWs(s[m - 1]))
    ensures TrimEnd(s) == s[..m]
  {
    var n := |TrimEnd(s)|;
    forall i | n <= i < |s|
      ensures IsWs(s[i])
    {
      assert s[i] == s[n..][i - n];
    }
    forall i | m <= i < |s|
      ensures IsWs(s[i])
    {
      assert s[i] == s[m..][i - m];
    }
    assert n > 0 ==> !IsWs(s[n - 1]) by {
      if n > 0 {
        assert TrimEnd(s)[n - 1] == s[n - 1];
      }
    }
  }

  /** Trimming text framed by whitespace gives the text, when the text
      itself starts and ends with a non-whitespace character. */
  lemma TrimFramed(a: string, x: string, b: string)
    requires AllWs(a) && AllWs(b) && |x| > 0 && !IsWs(x[0]) && !IsWs(x[|x| - 1])
    ensures Trim(a + x + b) == x
  {
    var s := a + x + b;
    assert s[..|a|] == a && s[|a|..] == x + b;
    TrimStartUnique(s, |a|);
    var t := x + b;
    assert t[|x|..] == b && t[..|x|] == x;
    TrimEndUnique(t, |x|);
  }

  lemma TrimStartFramed(w: string, y: string)
    requires AllWs(w) && (|y| == 0 || !IsWs(y[0]))
    ensures TrimStart(w + y) == y
  {
    var s := w + y;
    assert s[..|w|] == w && s[|w|..] == y;
    TrimStartUnique(s, |w|);
  }

  lemma TrimEndAllWs(a: string)
    requires AllWs(a)
    ensures TrimEnd(a) == []
  {
    assert a[0..] == a;
    TrimEndUnique(a, 0);
  }

  /** Text that is not all whitespace keeps its first character under
      TrimEnd. */
  lemma TrimEndCons(a: string)
    requires !AllWs(a)
    ensures TrimEnd(a) == [a[0]] + TrimEnd(a[1..])
  {
    var r := TrimEnd(a[1..]);
    var m := |r|;
    assert a[m + 1..] == a[1..][m..];
    forall i | 1 <= i < |a|
      ensures m == 0 ==> IsWs(a[i])
    {
      assert a[i] == a[1..][i - 1];
      if m == 0 {
        assert a[1..][i - 1] == a[1..][m..][i - 1];
      }
    }
    assert m > 0 ==> a[m] == r[m - 1];
    TrimEndUnique(a, m + 1);
    assert a[..m + 1] == [a[0]] + a[1..][..m];
  }

  // ------------------------------------------------------------- words

  /** A `\S+` token: non-empty, no whitespace. */
  predicate IsWord(w: string) {
    |w| > 0 && forall j :: 0 <= j < |w| ==> !IsWs(w[j])
  }

  /** The non-whitespace run at the start of `s`. */
  function LeadingWord(s: string): (r: string)
    ensures |r| <= |s| && r == s[..|r|]
    ensures forall j :: 0 <= j < |r| ==> !IsWs(r[j])
    ensures |r| < |s| ==> IsWs(s[|r|])
    ensures |s| > 0 && !IsWs(s[0]) ==> |r| > 0
  {
    if |s| == 0 || IsWs(s[0]) then [] else [s[0]] + LeadingWord(s[1..])
  }

  /** The maximal whitespace-free runs of `s`, in order. */
  function Words(s: string): (r: seq<string>)
    ensures forall i :: 0 <= i < |r| ==> IsWord(r[i])
    decreases |s|
  {
    var t := TrimStart(s);
    if |t| == 0 then []
    else
      var w := LeadingWord(t);
      [w] + Words(t[|w|..])
  }

  /** Words joined by one space start and end with a word character. */
  lemma {:induction false} JoinWordsFramed(ws: seq<string>)
    requires |ws| > 0 && forall i :: 0 <= i < |ws| ==> IsWord(ws[i])
    ensures var j := Join(ws, " "); |j| > 0 && !IsWs(j[0]) && !IsWs(j[|j| - 1])
  {
    assert IsWord(ws[0]);
    if |ws| > 1 {
      assert forall i :: 0 <= i < |ws[1..]| ==> ws[1..][i] == ws[i + 1];
      JoinWordsFramed(ws[1..]);
      var rest := Join(ws[1..], " ");
      assert Join(ws, " ") == ws[0] + " " + rest;
      assert (ws[0] + " " + rest)[|ws[0] + " " + rest| - 1] == rest[|rest| - 1];
    }
  }

  // ------------------------------------------------------------ visible

  lemma {:induction false} VisibleConcat(a: string, b: string)
    ensures Visible(a + b) == Visible(a) + Visible(b)
  {
    if |a| == 0 {
      assert a + b == b;
    } else {
      assert (a + b)[1..] == a[1..] + b;
      VisibleConcat(a[1..], b);
    }
  }

  lemma {:induction false} VisibleAllWs(s: string)
    requires AllWs(s)
    ensures Visible(s) == []
  {
    if |s| > 0 {
      VisibleAllWs(s[1..]);
    }
  }

  lemma VisibleSplitAt(s: string, i: nat)
    requires i <= |s|
    ensures Visible(s) == Visible(s[..i]) + Visible(s[i..])
  {
    assert s == s[..i] + s[i..];
    VisibleConcat(s[..i], s[i..]);
  }

  /** Dropping leading whitespace keeps the visible characters. */
  lemma VisibleTrimStart(s: string)
    ensures Visible(TrimStart(s)) == Visible(s)
  {
    var t := TrimStart(s);
    VisibleSplitAt(s, |s| - |t|);
    VisibleAllWs(s[..|s| - |t|]);
  }

  /** Trimming deletes only whitespace. */
  lemma VisibleTrim(s: string)
    ensures Visible(Trim(s)) == Visible(s)
  {
    TrimIsSlice(s);
    TrimDropsOnlyWs(s);
    var a := TrimOffset(s);
    var b := a + |Trim(s)|;
    VisibleSplitAt(s, a);
    VisibleAllWs(s[..a]);
    var t := s[a..];
    VisibleSplitAt(t, b - a);
    assert t[..b - a] == Trim(s);
    assert t[b - a..] == s[b..];
    VisibleAllWs(s[b..]);
  }

  // ------------------------------------------------------- join / split

  /** Equal concatenations with equal affixes have equal middles. */
  lemma CancelPrefix(pre: string, a: string, b: string)
    requires pre + a == pre + b
    ensures a == b
  {
    assert a == (pre + a)[|pre|..];
    assert b == (pre + b)[|pre|..];
  }

  lemma CancelAffixes(pre: string, a: string, b: string, post: string)
    requires pre + a + post == pre + b + post
    ensures a == b
  {
    var s := pre + a + post;
    assert a == s[|pre|..|s| - |post|];
    assert b == (pre + b + post)[|pre|..|s| - |post|];
  }

  /** `Array.prototype.join(sep)` over strings. */
  function Join(parts: seq<string>, sep: string): string {
    if |parts| == 0 then []
    else if |parts| == 1 then parts[0]
    else parts[0] + sep + Join(parts[1..], sep)
  }

  /** `String.prototype.split(c)` with a one-character separator: the pieces
      between occurrences of `c`, never an empty list. */
  function Split(s: string, c: char): (r: seq<string>)
    ensures |r| >= 1
    ensures forall i :: 0 <= i < |r| ==> c !in r[i]
  {
    if |s| == 0 then [""]
    else
      var rest := Split(s[1..], c);
      if s[0] == c then [""] + rest
      else [[s[0]] + rest[0]] + rest[1..]
  }

  /** Joining the pieces of a split restores the string. */
  lemma {:induction false} JoinSplit(s: string, c: char)
    ensures Join(Split(s, c), [c]) == s
  {
    if |s| > 0 {
      var rest := Split(s[1..], c);
      JoinSplit(s[1..], c);
      if s[0] == c {
        assert ([""] + rest)[1..] == rest;
      } else if |rest| > 1 {
        var r := [[s[0]] + rest[0]] + rest[1..];
        assert r[1..] == rest[1..];
        assert Join(rest, [c]) == rest[0] + [c] + Join(rest[1..], [c]);
      }
      assert s == [s[0]] + s[1..];
    }
  }

  lemma {:induction false} SplitNoSeparator(a: string, c: char)
    requires c !in a
    ensures Split(a, c) == [a]
  {
    if |a| > 0 {
      SplitNoSeparator(a[1..], c);
      assert [a[0]] + a[1..] == a;
    }
  }

  lemma {:induction false} SplitAfterPiece(a: string, b: string, c: char)
    requires c !in a
    ensures Split(a + [c] + b, c) == [a] + Split(b, c)
  {
    if |a| == 0 {
      assert a + [c] + b == [c] + b;
      assert ([c] + b)[1..] == b;
    } else {
      assert (a + [c] + b)[1..] == a[1..] + [c] + b;
      SplitAfterPiece(a[1..], b, c);
      assert [a[0]] + a[1..] == a;
    }
  }

  /** Splitting a join of separator-free pieces gives the pieces back. */
  lemma {:induction false} SplitJoin(parts: seq<string>, c: char)
    requires |parts| >= 1
    requires forall i :: 0 <= i < |parts| ==> c !in parts[i]
    ensures Split(Join(parts, [c]), c) == parts
  {
    if |parts| == 1 {
      SplitNoSeparator(parts[0], c);
    } else {
      SplitJoin(parts[1..], c);
      SplitAfterPiece(parts[0], Join(parts[1..], [c]), c);
      assert [parts[0]] + parts[1..] == parts;
    }
  }

  /** A separator-free prefix becomes part of the first piece. */
  lemma {:induction false} SplitFreePrefix(w: string, x: string, c: char)
    requires c !in w
    ensures Split(w + x, c) == [w + Split(x, c)[0]] + Split(x, c)[1..]
  {
    if |w| == 0 {
      assert w + x == x;
      var xs := Split(x, c);
      assert w + xs[0] == xs[0];
      assert xs == [xs[0]] + xs[1..];
    } else {
      var xs := Split(x, c);
      SplitFreePrefix(w[1..], x, c);
      assert (w + x)[1..] == w[1..] + x;
      assert (w + x)[0] == w[0] && w[0] != c;
      assert [w[0]] + (w[1..] + xs[0]) == w + xs[0];
    }
  }

  /** The first piece of a split is a prefix of the text. */
  lemma {:induction false} SplitHeadPrefix(x: string, c: char)
    ensures |Split(x, c)[0]| <= |x| && Split(x, c)[0] == x[..|Split(x, c)[0]|]
  {
    if |x| > 0 && x[0] != c {
      SplitHeadPrefix(x[1..], c);
      var h := Split(x[1..], c)[0];
      assert Split(x, c)[0] == [x[0]] + h;
      assert x[..|h| + 1] == [x[0]] + x[1..][..|h|];
    }
  }

  lemma JoinCons(w: string, ws: seq<string>, sep: string)
    requires |ws| > 0
    ensures Join([w] + ws, sep) == w + sep + Join(ws, sep)
  {
    assert ([w] + ws)[1..] == ws;
  }

  /** Index of the first occurrence of `c` in `s`. */
  function FirstIndexOf(s: string, c: char): (r: Option<nat>)
    ensures r.None? <==> c !in s
    ensures r.Some? ==> r.value < |s| && s[r.value] == c && c !in s[..r.value]
  {
    if |s| == 0 then None
    else if s[0] == c then Some(0)
    else
      var r := FirstIndexOf(s[1..], c);
      assert s == [s[0]] + s[1..];
      if r.Some? then
        assert s[..r.value + 1] == [s[0]] + s[1..][..r.value];
        Some(r.value + 1)
      else None
  }

  /** The lines of a text, as `text.split("\n")`. */
  function Lines(s: string): seq<string> {
    Split(s, '\n')
  }

  // ------------------------------------------------------ ASCII lowering

  function LowerChar(c: char): char {
    if 'A' <= c <= 'Z' then (c as int + 32) as char else c
  }

  /** Lower-cases the ASCII letters A-Z and keeps every other character. */
  function AsciiLower(s: string): (r: string)
    ensures |r| == |s|
    ensures forall i :: 0 <= i < |s| ==> r[i] == LowerChar(s[i])
  {
    seq(|s|, i requires 0 <= i < |s| => LowerChar(s[i]))
  }

  // ------------------------------------------------------ path.extname

  /** Index of the last occurrence of `c` in `s`. */
  function LastIndexOf(s: string, c: char): (r: Option<nat>)
    ensures r.None? <==> c !in s
    ensures r.Some? ==> r.value < |s| && s[r.value] == c && c !in s[r.value + 1..]
  {
    if |s| == 0 then None
    else if s[|s| - 1] == c then Some(|s| - 1)
    else
      var r := LastIndexOf(s[..|s| - 1], c);
      assert s == s[..|s| - 1] + [s[|s| - 1]];
      if r.Some? then
        assert s[r.value + 1..] == s[..|s| - 1][r.value + 1..] + [s[|s| - 1]];
        r
      else r
  }

  function StripTrailingSlashes(p: string): (r: string)
    ensures |r| <= |p| && r == p[..|r|]
    ensures |r| == 0 || r[|r| - 1] != '/'
  {
    if |p| > 0 && p[|p| - 1] == '/' then StripTrailingSlashes(p[..|p| - 1]) else p
  }

  /** What follows the last '/', or all of `q` when it has none. */
  function LastSegment(q: string): (r: string)
    ensures '/' !in r
    ensures |r| <= |q| && r == q[|q| - |r|..]
    ensures |r| < |q| ==> q[|q| - |r| - 1] == '/'
  {
    match LastIndexOf(q, '/')
    case None => q
    case Some(i) => q[i + 1..]
  }

  /** The last path segment, trailing slashes ignored (POSIX). */
  function BaseName(p: string): (r: string)
    ensures '/' !in r
  {
    LastSegment(StripTrailingSlashes(p))
  }

  /** POSIX `path.extname`: from the last '.' of the last segment to its end;
      empty when that segment has no '.' after its first character, or is
      "..". */
  function ExtName(p: string): (r: string)
    ensures r == [] || (r[0] == '.' && '/' !in r && '.' !in r[1..])
    ensures var b := BaseName(p);
      && |r| < |b| + 1 && r == b[|b| - |r|..]
      && (r != [] ==> |r| < |b|)
      && (r == [] <==> b == ".." || NoDotAfterFirst(b))
  {
    SegmentExt(BaseName(p))
  }

  /** Node's rule spelled out: with `k` the last '.' of the base name, the
      extension is the suffix from `k` when `k >= 1` and the name is not
      "..", and empty otherwise. */
  lemma ExtNameLastDot(p: string)
    ensures var b := BaseName(p);
      var k := LastIndexOf(b, '.');
      && (k.Some? && k.value >= 1 && b != ".." ==> ExtName(p) == b[k.value..])
      && (!(k.Some? && k.value >= 1 && b != "..") ==> ExtName(p) == [])
  {
    SegmentExtLastDot(BaseName(p));
  }

  lemma SegmentExtLastDot(b: string)
    ensures var k := LastIndexOf(b, '.');
      && (k.Some? && k.value >= 1 && b != ".." ==> SegmentExt(b) == b[k.value..])
      && (!(k.Some? && k.value >= 1 && b != "..") ==> SegmentExt(b) == [])
  {
  }

  /** No '.' past the first character. */
  predicate NoDotAfterFirst(b: string) {
    forall i :: 1 <= i < |b| ==> b[i] != '.'
  }

  /** The extension of one path segment `b`: the suffix from its last '.',
      provided that '.' is not the first character and `b` is not "..". */
  function SegmentExt(b: string): (r: string)
    ensures r == [] || (r[0] == '.' && '.' !in r[1..])
    ensures '/' !in b ==> '/' !in r
    ensures |r| <= |b| && r == b[|b| - |r|..]
    ensures r != [] ==> |r| < |b|
    ensures r == [] <==> b == ".." || NoDotAfterFirst(b)
  {
    match LastIndexOf(b, '.')
    case None => ""
    case Some(d) =>
      if d == 0 then
        assert forall i :: 1 <= i < |b| ==> b[i] == b[1..][i - 1];
        ""
      else if b == ".." then ""
      else b[d..]
  }

  /** A name without slashes is its own last segment. */
  lemma BaseNameOfSegment(s: string)
    requires '/' !in s
    ensures BaseName(s) == s
  {
    if |s| > 0 {
      assert s[|s| - 1] in s;
    }
  }

  /** Appending an extension to a dot-free, slash-free stem gives a name
      whose extension is exactly that extension. */
  lemma ExtNameOfStemAndExt(stem: string, ext: string)
    requires |stem| > 0 && '/' !in stem && '.' !in stem
    requires ext == [] || (ext[0] == '.' && '/' !in ext && '.' !in ext[1..])
    ensures ExtName(stem + ext) == ext
  {
    var s := stem + ext;
    assert forall i :: 0 <= i < |s| ==> s[i] == if i < |stem| then stem[i] else ext[i - |stem|];
    assert '/' !in s;
    BaseNameOfSegment(s);
    if ext == [] {
      assert s == stem;
    } else {
      assert s[|stem|] == '.';
      assert s[|stem| + 1..] == ext[1..];
      var d := LastIndexOf(s, '.');
      assert d.Some?;
      assert d.value == |stem|;
      assert s[0] == stem[0] && stem[0] in stem;
      assert s != "..";
    }
  }

  // ----------------------------------------------------------- decimals

  function Digit(d: nat): char
    requires d < 10
  {
    ('0' as int + d) as char
  }

  function DigitValue(c: char): nat {
    if '0' <= c <= '9' then c as int - '0' as int else 0
  }

  /** Decimal digits of a natural number, most significant first. */
  function NatDigits(n: nat): (r: string)
    ensures |r| >= 1
    ensures forall i :: 0 <= i < |r| ==> '0' <= r[i] <= '9'
    decreases n
  {
    if n < 10 then [Digit(n)] else NatDigits(n / 10) + [Digit(n % 10)]
  }

  /** How a JavaScript integer is rendered in a template literal. */
  function DecimalString(n: int): string {
    if n < 0 then "-" + NatDigits(-n) else NatDigits(n)
  }

  function ParseDigits(s: string): nat {
    if |s| == 0 then 0 else 10 * ParseDigits(s[..|s| - 1]) + DigitValue(s[|s| - 1])
  }

  /** Reading the digits back gives the number: the rendering is faithful. */
  lemma {:induction false} ParseNatDigits(n: nat)
    ensures ParseDigits(NatDigits(n)) == n
    decreases n
  {
    var r := NatDigits(n);
    if n >= 10 {
      assert r[..|r| - 1] == NatDigits(n / 10);
      assert r[|r| - 1] == Digit(n % 10);
      ParseNatDigits(n / 10);
      assert ParseDigits(r) == 10 * (n / 10) + n % 10;
    } else {
      assert r[..0] == [];
    }
  }

  lemma DecimalSign(n: int)
    ensures |DecimalString(n)| > 1 || n >= 0
    ensures |DecimalString(n)| > 0 && (DecimalString(n)[0] == '-' <==> n < 0)
  {
    if n >= 0 {
      assert '0' <= NatDigits(n)[0] <= '9';
    }
  }

  lemma NatDigitsInjective(m: nat, n: nat)
    requires NatDigits(m) == NatDigits(n)
    ensures m == n
  {
    ParseNatDigits(m);
    ParseNatDigits(n);
  }

  /** Distinct integers render differently. */
  lemma DecimalStringInjective(m: int, n: int)
    requires DecimalString(m) == DecimalString(n)
    ensures m == n
  {
    DecimalSign(m);
    DecimalSign(n);
    var d := DecimalString(m);
    if m < 0 {
      assert d[1..] == NatDigits(-m) == NatDigits(-n);
      NatDigitsInjective(-m, -n);
    } else {
      NatDigitsInjective(m, n);
    }
  }
}
