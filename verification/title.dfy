/** The title pipeline: one chat call whose answer is flattened onto a single
    line with single spaces. */
module TitlePipeline {
  import opened Wrappers
  import opened Text
  import opened Chat

  datatype TitleInput = TitleInput(
    name: string,
    description: Option<string>,
    maxLength: Option<int>,
    marketplace: Option<string>)

  const DefaultMaxLength := 80

  const Role := "Você é especialista em títulos de produtos para e-commerce brasileiro."
  const Goal := "Gere UM título otimizado para SEO, claro e atrativo."
  const Style := "Não use aspas, emojis ou caracteres especiais desnecessários."

  function LimitSentence(maxLength: int): string {
    "Limite aproximado de tamanho: até " + DecimalString(maxLength) + " caracteres."
  }

  /** The system instruction; `maxLength` is only interpolated into it. */
  function SystemMessage(maxLength: int): string {
    Join([Role, Goal, Style, LimitSentence(maxLength)], " ")
  }

  function HumanLines(name: string, description: string, marketplace: string): seq<string> {
    ["Nome do produto: " + name,
     "Descrição base (se houver): " + description,
     "Marketplace alvo (se informado): " + marketplace]
  }

  /** The rendered prompt: absent fields take their defaults. */
  function TitlePrompt(input: TitleInput): Prompt {
    Prompt(
      SystemMessage(input.maxLength.GetOr(DefaultMaxLength)),
      Join(HumanLines(input.name, input.description.GetOr(""), input.marketplace.GetOr("generic")), "\n"))
  }

  /** A missing description, length limit or marketplace renders exactly as
      "", 80 and "generic". */
  lemma TitlePromptDefaults(name: string)
    ensures TitlePrompt(TitleInput(name, None, None, None))
         == TitlePrompt(TitleInput(name, Some(""), Some(80), Some("generic")))
  {
  }

  /** The human message keeps its three lines apart, so each variable can be
      read back from it when the values are single-line. */
  lemma HumanMessageLines(input: TitleInput)
    requires '\n' !in input.name
    requires '\n' !in input.description.GetOr("") && '\n' !in input.marketplace.GetOr("generic")
    ensures Lines(TitlePrompt(input).human)
         == HumanLines(input.name, input.description.GetOr(""), input.marketplace.GetOr("generic"))
  {
    var ls := HumanLines(input.name, input.description.GetOr(""), input.marketplace.GetOr("generic"));
    forall i | 0 <= i < |ls|
      ensures '\n' !in ls[i]
    {
    }
    SplitJoin(ls, '\n');
  }

  /** Different limits give different instructions. */
  lemma SystemMessageInjective(m: int, n: int)
    requires SystemMessage(m) == SystemMessage(n)
    ensures m == n
  {
    var pre := Role + " " + Goal + " " + Style + " ";
    SystemMessageShape(m);
    SystemMessageShape(n);
    CancelPrefix(pre, LimitSentence(m), LimitSentence(n));
    CancelAffixes("Limite aproximado de tamanho: até ", DecimalString(m), DecimalString(n), " caracteres.");
    DecimalStringInjective(m, n);
  }

  lemma SystemMessageShape(m: int)
    ensures SystemMessage(m) == (Role + " " + Goal + " " + Style + " ") + LimitSentence(m)
  {
    JoinFour(Role, Goal, Style, LimitSentence(m), " ");
  }

  lemma JoinFour(a: string, b: string, c: string, d: string, sep: string)
    ensures Join([a, b, c, d], sep) == (a + sep + b + sep + c + sep) + d
  {
    assert [a, b, c, d][1..] == [b, c, d];
    assert [b, c, d][1..] == [c, d];
    assert [c, d][1..] == [d];
    assert Join([c, d], sep) == c + sep + d;
    assert Join([b, c, d], sep) == b + sep + (c + sep + d);
    assert Join([a, b, c, d], sep) == a + sep + (b + sep + (c + sep + d));
  }

  // ------------------------------------------------ whitespace collapse

  /** Whitespace occurs only as isolated plain spaces. */
  predicate SingleSpaced(s: string) {
    forall i :: 0 <= i < |s| && IsWs(s[i]) ==> s[i] == ' ' && (i + 1 < |s| ==> !IsWs(s[i + 1]))
  }

  /** `replace(/\s+/g, ' ')`: every maximal whitespace run becomes one space. */
  function Collapse(s: string): string
    decreases |s|
  {
    if |s| == 0 then []
    else if IsWs(s[0]) then
      var t := TrimStart(s);
      assert |t| < |s|;
      " " + Collapse(t)
    else
      [s[0]] + Collapse(s[1..])
  }

  /** Collapsing leaves only isolated plain spaces, never lengthens the
      text, and starts with whitespace exactly when the text does. */
  lemma {:induction false} CollapseSpaced(s: string)
    ensures SingleSpaced(Collapse(s))
    ensures |Collapse(s)| <= |s|
    ensures |s| > 0 ==> |Collapse(s)| > 0 && (IsWs(Collapse(s)[0]) <==> IsWs(s[0]))
    decreases |s|
  {
    if |s| > 0 {
      var x, h;
      if IsWs(s[0]) {
        var t := TrimStart(s);
        assert |t| < |s|;
        CollapseSpaced(t);
        x, h := Collapse(t), ' ';
      } else {
        CollapseSpaced(s[1..]);
        x, h := Collapse(s[1..]), s[0];
      }
      assert Collapse(s) == [h] + x;
      ConsSingleSpaced(h, x);
    }
  }

  /** Putting a character in front keeps single spacing, unless two
      whitespace characters would meet or the whitespace is not a space. */
  lemma ConsSingleSpaced(h: char, x: string)
    requires SingleSpaced(x)
    requires IsWs(h) ==> h == ' ' && (|x| == 0 || !IsWs(x[0]))
    ensures SingleSpaced([h] + x)
  {
    var r := [h] + x;
    forall i | 0 <= i < |r| && IsWs(r[i])
      ensures r[i] == ' ' && (i + 1 < |r| ==> !IsWs(r[i + 1]))
    {
      if i > 0 {
        assert r[i] == x[i - 1];
        if i + 1 < |r| { assert r[i + 1] == x[i]; }
      }
    }
  }

  /** Collapsing keeps every non-whitespace character, in order. */
  lemma {:induction false} CollapseVisible(s: string)
    ensures Visible(Collapse(s)) == Visible(s)
    decreases |s|
  {
    if |s| == 0 {
    } else if IsWs(s[0]) {
      var t := TrimStart(s);
      assert |t| < |s|;
      CollapseVisible(t);
      VisibleConcat(" ", Collapse(t));
      VisibleSplitAt(s, |s| - |t|);
      VisibleAllWs(s[..|s| - |t|]);
    } else {
      CollapseVisible(s[1..]);
      VisibleConcat([s[0]], Collapse(s[1..]));
    }
  }

  /** Already single-spaced text is left alone. */
  lemma {:induction false} CollapseFixed(s: string)
    requires SingleSpaced(s)
    ensures Collapse(s) == s
    decreases |s|
  {
    if |s| > 0 {
      assert SingleSpaced(s[1..]) by {
        forall i | 0 <= i < |s[1..]| && IsWs(s[1..][i])
          ensures s[1..][i] == ' ' && (i + 1 < |s[1..]| ==> !IsWs(s[1..][i + 1]))
        {
          assert s[1..][i] == s[i + 1];
        }
      }
      if IsWs(s[0]) {
        TrimStartSingle(s);
      }
      CollapseFixed(s[1..]);
      assert [s[0]] + s[1..] == s;
    }
  }

  lemma SingleSpacedSlice(s: string, a: nat, b: nat)
    requires a <= b <= |s| && SingleSpaced(s)
    ensures SingleSpaced(s[a..b])
  {
    var t := s[a..b];
    forall i | 0 <= i < |t| && IsWs(t[i])
      ensures t[i] == ' ' && (i + 1 < |t| ==> !IsWs(t[i + 1]))
    {
      assert t[i] == s[a + i];
      if i + 1 < |t| { assert t[i + 1] == s[a + i + 1]; }
    }
  }

  /** A leading word passes through Collapse unchanged. */
  lemma {:induction false} CollapseWord(s: string)
    ensures Collapse(s) == LeadingWord(s) + Collapse(s[|LeadingWord(s)|..])
    decreases |s|
  {
    if |s| > 0 && !IsWs(s[0]) {
      var w := LeadingWord(s[1..]);
      var u := s[1..][|w|..];
      CollapseWord(s[1..]);
      CollapseHead(s);
      LeadingWordHead(s);
      DropAfterHead(s, |w|);
      Rejoin(Collapse(s), s[0], Collapse(s[1..]), w, Collapse(u), LeadingWord(s));
    } else {
      NoLeadingWord(s);
    }
  }

  lemma CollapseHead(s: string)
    requires |s| > 0 && !IsWs(s[0])
    ensures Collapse(s) == [s[0]] + Collapse(s[1..])
  {
  }

  lemma LeadingWordHead(s: string)
    requires |s| > 0 && !IsWs(s[0])
    ensures LeadingWord(s) == [s[0]] + LeadingWord(s[1..])
  {
  }

  lemma NoLeadingWord(s: string)
    requires |s| == 0 || IsWs(s[0])
    ensures LeadingWord(s) == [] && s[|LeadingWord(s)|..] == s
  {
    assert s[0..] == s;
  }

  lemma Rejoin(cs: string, c: char, rest: string, w: string, cu: string, lw: string)
    requires cs == [c] + rest && rest == w + cu && lw == [c] + w
    ensures cs == lw + cu
  {
  }

  lemma DropAfterHead(s: string, n: nat)
    requires 0 < |s| && n < |s|
    ensures s[n + 1..] == s[1..][n..]
  {
  }

  /** One space when `s` starts with whitespace. */
  function LeadSpace(s: string): string {
    if |s| > 0 && IsWs(s[0]) then " " else ""
  }

  /** One space when `s` ends with whitespace. */
  function TrailSpace(s: string): string {
    if |s| > 0 && IsWs(s[|s| - 1]) then " " else ""
  }

  /** Collapse in closed form: the words of `s` joined by single spaces,
      with one space in front when `s` starts with whitespace and one
      behind when it ends with whitespace; all-whitespace text becomes one
      space. */
  lemma {:induction false} CollapseWords(s: string)
    ensures Words(s) == [] ==> Collapse(s) == LeadSpace(s)
    ensures Words(s) != [] ==> Collapse(s) == LeadSpace(s) + Join(Words(s), " ") + TrailSpace(s)
    decreases |s|
  {
    var t := TrimStart(s);
    CollapseLead(s);
    if |t| > 0 {
      var rest := AfterFirstWord(s);
      CollapseWords(rest);
      if Words(rest) == [] {
        CollapseOneWord(s);
      } else {
        CollapseMoreWords(s);
      }
    }
  }

  /** What follows the first word of `s`. */
  function AfterFirstWord(s: string): string {
    var t := TrimStart(s);
    t[|LeadingWord(t)|..]
  }

  /** The last word of `s`: its collapse is the word between the spaces
      standing for the runs around it. */
  lemma CollapseOneWord(s: string)
    requires |TrimStart(s)| > 0
    requires Words(AfterFirstWord(s)) == [] && Collapse(AfterFirstWord(s)) == LeadSpace(AfterFirstWord(s))
    ensures Words(s) != [] && Collapse(s) == LeadSpace(s) + Join(Words(s), " ") + TrailSpace(s)
  {
    var t := TrimStart(s);
    var w := LeadingWord(t);
    var rest := t[|w|..];
    var p := s[..|s| - |t|];
    SplitThree(s, |s| - |t|, |w|);
    CollapseLead(s);
    CollapseWord(t);
    assert Words(s) == [w];
    WordsNoneAllWs(rest);
    TrailAfterWord(p, w, rest);
    assert Join([w], " ") == w;
    AssembleOne(Collapse(s), LeadSpace(s), Collapse(t), w, Collapse(rest), TrailSpace(s));
  }

  /** A word followed by more words: its collapse is the word, one space,
      and the collapse of the rest. */
  lemma CollapseMoreWords(s: string)
    requires |TrimStart(s)| > 0
    requires var rest := AfterFirstWord(s);
      Words(rest) != [] && Collapse(rest) == LeadSpace(rest) + Join(Words(rest), " ") + TrailSpace(rest)
    ensures Words(s) != [] && Collapse(s) == LeadSpace(s) + Join(Words(s), " ") + TrailSpace(s)
  {
    var t := TrimStart(s);
    var w := LeadingWord(t);
    var rest := t[|w|..];
    var p := s[..|s| - |t|];
    SplitThree(s, |s| - |t|, |w|);
    CollapseLead(s);
    CollapseWord(t);
    assert Words(s) == [w] + Words(rest);
    assert LeadSpace(rest) == " " by {
      assert rest[0] == t[|w|];
    }
    TrailSpaceSuffix(p + w, rest);
    JoinCons(w, Words(rest), " ");
    Assemble(Collapse(s), LeadSpace(s), Collapse(t), w, Collapse(rest),
             Join(Words(rest), " "), TrailSpace(s));
  }

  /** Collapse turns a leading whitespace run into one space. */
  lemma CollapseLead(s: string)
    ensures Collapse(s) == LeadSpace(s) + Collapse(TrimStart(s))
  {
    var t := TrimStart(s);
    if |s| > 0 && !IsWs(s[0]) {
      assert t == s;
    } else if |s| > |t| {
      assert IsWs(s[0]) by { assert s[..|s| - |t|][0] == s[0]; }
    }
  }

  lemma WordsNoneAllWs(s: string)
    requires Words(s) == []
    ensures AllWs(s)
  {
    var u := TrimStart(s);
    assert s[..|s| - |u|] == s;
  }

  lemma TrailAfterWord(p: string, w: string, rest: string)
    requires IsWord(w) && AllWs(rest)
    ensures TrailSpace(p + w + rest) == LeadSpace(rest)
  {
    var s := p + w + rest;
    if |rest| > 0 {
      assert s[|s| - 1] == rest[|rest| - 1];
    } else {
      assert s[|s| - 1] == w[|w| - 1];
    }
  }

  lemma TrailSpaceSuffix(p: string, rest: string)
    requires |rest| > 0
    ensures TrailSpace(p + rest) == TrailSpace(rest)
  {
    assert (p + rest)[|p + rest| - 1] == rest[|rest| - 1];
  }

  lemma SplitThree(s: string, k: nat, n: nat)
    requires k + n <= |s|
    ensures s == s[..k] + s[k..][..n] + s[k..][n..]
  {
  }

  lemma AssembleOne(cs: string, lead: string, ct: string, w: string, cr: string, trail: string)
    requires cs == lead + ct && ct == w + cr && cr == trail
    ensures cs == lead + w + trail
  {
  }

  lemma Assemble(cs: string, lead: string, ct: string, w: string, cr: string, j: string, trail: string)
    requires cs == lead + ct && ct == w + cr && cr == " " + j + trail
    ensures cs == lead + (w + " " + j) + trail
  {
  }

  /** The normalised title is the input's words joined by single spaces. */
  lemma NormalizeTitleWords(s: string)
    ensures Trim(Collapse(s)) == Join(Words(s), " ")
  {
    CollapseWords(s);
    var ws := Words(s);
    if ws == [] {
      TrimPadded(LeadSpace(s), "", "");
    } else {
      var j := Join(ws, " ");
      JoinWordsFramed(ws);
      TrimPadded(LeadSpace(s), j, TrailSpace(s));
    }
  }

  /** Trimming drops the one-space padding Collapse leaves at either end. */
  lemma TrimPadded(lead: string, x: string, trail: string)
    requires lead == "" || lead == " "
    requires trail == "" || trail == " "
    requires x == [] || (!IsWs(x[0]) && !IsWs(x[|x| - 1]))
    ensures Trim(lead + x + trail) == x
  {
    if x == [] {
      assert Trim("") == "" && Trim(" ") == "" && Trim("  ") == "";
    } else {
      TrimFramed(lead, x, trail);
    }
  }

  /** `text.replace(/\s+/g, ' ').trim()`. */
  function NormalizeTitle(s: string): (r: string)
    ensures r == Join(Words(s), " ")
    ensures IsTrimmed(r)
    ensures SingleSpaced(r)
    ensures Visible(r) == Visible(s)
  {
    TrimCollapseSpaced(s);
    TrimCollapseVisible(s);
    NormalizeTitleWords(s);
    Trim(Collapse(s))
  }

  /** Splitting a normalised title at its spaces gives back the input's
      words, in order. */
  lemma NormalizeTitleSplit(s: string)
    requires Words(s) != []
    ensures Split(NormalizeTitle(s), ' ') == Words(s)
  {
    var ws := Words(s);
    forall i | 0 <= i < |ws|
      ensures ' ' !in ws[i]
    {
      assert IsWord(ws[i]);
    }
    SplitJoin(ws, ' ');
  }

  lemma TrimCollapseSpaced(s: string)
    ensures SingleSpaced(Trim(Collapse(s)))
  {
    var c := Collapse(s);
    CollapseSpaced(s);
    TrimIsSlice(c);
    SingleSpacedSlice(c, TrimOffset(c), TrimOffset(c) + |Trim(c)|);
  }

  lemma TrimCollapseVisible(s: string)
    ensures Visible(Trim(Collapse(s))) == Visible(s)
  {
    CollapseVisible(s);
    VisibleTrim(Collapse(s));
  }

  /** A normalised title is a fixed point of the normalisation. */
  lemma NormalizeTitleFixed(t: string)
    requires IsTrimmed(t) && SingleSpaced(t)
    ensures NormalizeTitle(t) == t
  {
    CollapseFixed(t);
    TrimOfTrimmed(t);
  }

  lemma NormalizeTitleIdempotent(s: string)
    ensures NormalizeTitle(NormalizeTitle(s)) == NormalizeTitle(s)
  {
    NormalizeTitleFixed(NormalizeTitle(s));
  }

  // ------------------------------------------------------------ run

  /** `run`: the model's text, normalised. A non-string `content` fails on
      `replace`. */
  function Run(input: TitleInput, llm: ChatModel): (r: Result<string>)
    ensures r.Ok? <==> llm(TitlePrompt(input)).Ok? && RawText(llm(TitlePrompt(input)).value).Text?
    ensures r.Ok? ==> IsTrimmed(r.value) && SingleSpaced(r.value)
    ensures r.Ok? ==> Visible(r.value) == Visible(RawText(llm(TitlePrompt(input)).value).text)
    ensures r.Ok? ==> r.value == Join(Words(RawText(llm(TitlePrompt(input)).value).text), " ")
    ensures llm(TitlePrompt(input)).Err? ==> r == Err(llm(TitlePrompt(input)).error)
  {
    var response :- llm(TitlePrompt(input));
    var text :- StringText(response);
    Ok(NormalizeTitle(text))
  }

  /** The title is never cut to `maxLength`: a model answer that is already
      a clean title comes back verbatim, whatever its length. */
  lemma TitleNotTruncated(input: TitleInput, llm: ChatModel, t: string)
    requires llm(TitlePrompt(input)) == Ok(Plain(t))
    requires IsTrimmed(t) && SingleSpaced(t)
    ensures Run(input, llm) == Ok(t)
  {
    NormalizeTitleFixed(t);
  }

  /** `maxLength` reaches only the instruction: with the same answer, two
      requests that differ only in it return the same title. */
  lemma MaxLengthOnlyInstructs(input: TitleInput, m: Option<int>, llm1: ChatModel, llm2: ChatModel)
    requires llm1(TitlePrompt(input)) == llm2(TitlePrompt(input.(maxLength := m)))
    ensures TitlePrompt(input).human == TitlePrompt(input.(maxLength := m)).human
    ensures Run(input, llm1) == Run(input.(maxLength := m), llm2)
  {
  }
}
