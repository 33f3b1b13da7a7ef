/** The social-post pipeline: a caption prompt whose system instruction is
    chosen by channel and tone; the model's answer is returned as it is. */
module SocialPostPipeline {
  import opened Wrappers
  import opened Text
  import opened Chat

  datatype SocialInput = SocialInput(
    name: string,
    description: Option<string>,
    channel: string,
    tone: Option<string>)

  const DefaultTone := "neutro"

  const Channels: seq<string> := ["instagram", "tiktok", "facebook", "pinterest"]

  const InstagramGuide := "Formato Instagram: visual, use emojis estrategicamente, inclua 3-5 hashtags relevantes ao final. Tom aspiracional e inspirador."
  const TikTokGuide := "Formato TikTok: dinâmico, jovem, descontraído. Call-to-action forte. Use linguagem atual e referências de trends quando aplicável."
  const FacebookGuide := "Formato Facebook: conversacional, storytelling, foque em engajamento. Público mais amplo (25-55 anos). Texto pode ser mais longo e detalhado."
  const PinterestGuide := "Formato Pinterest: descritivo e focado em inspiração e descoberta. Destaque usos, benefícios visuais e ideias de aplicação do produto."
  const DefaultGuide := "Tom neutro e profissional."

  /** The guides in the order of `Channels`. */
  const ChannelGuides: seq<string> := [InstagramGuide, TikTokGuide, FacebookGuide, PinterestGuide]

  /** The `switch` on the channel. */
  function StyleGuide(channel: string): (r: string)
    ensures r == DefaultGuide || r in ChannelGuides
  {
    if channel == "instagram" then InstagramGuide
    else if channel == "tiktok" then TikTokGuide
    else if channel == "facebook" then FacebookGuide
    else if channel == "pinterest" then PinterestGuide
    else DefaultGuide
  }

  /** Each supported channel gets the guide in the same position. */
  lemma StyleGuideOfChannel(k: nat)
    requires k < |Channels|
    ensures StyleGuide(Channels[k]) == ChannelGuides[k]
  {
  }

  /** The five guides are pairwise distinct: their lengths already differ. */
  lemma GuidesDistinct()
    ensures forall i, j :: 0 <= i < j < |ChannelGuides| ==> ChannelGuides[i] != ChannelGuides[j]
    ensures DefaultGuide !in ChannelGuides
  {
    assert |InstagramGuide| == 127 && |TikTokGuide| == 130;
    assert |FacebookGuide| == 141 && |PinterestGuide| == 134;
    assert |DefaultGuide| == 26;
  }

  /** Any channel outside the four gets the neutral guide, and only those do. */
  lemma StyleGuideDefault(channel: string)
    ensures StyleGuide(channel) == DefaultGuide <==> channel !in Channels
  {
    GuidesDistinct();
  }

  /** Two supported channels share a guide only when they are the same. */
  lemma StyleGuideInjective(c: string, d: string)
    requires c in Channels && d in Channels
    requires StyleGuide(c) == StyleGuide(d)
    ensures c == d
  {
    GuidesDistinct();
  }

  const Role := "Você é um social media especializado em criar legendas para e-commerce em português do Brasil."
  const Adapt := "Adapte o texto para o canal e público-alvo específico."
  const TonePrefix := "Use um tom coerente com a marca: "
  const Emojis := "Você pode usar emojis com moderação estratégica."
  const Instruction := "Crie uma legenda envolvente que incentive o clique, compartilhamento ou compra."

  function ToneSentence(tone: string): string {
    TonePrefix + tone + "."
  }

  function SystemSentences(tone: string, channel: string): seq<string> {
    [Role, Adapt, ToneSentence(tone), StyleGuide(channel), Emojis]
  }

  function HumanLines(channel: string, name: string, description: string): seq<string> {
    ["Canal: " + channel, "Nome do produto: " + name, "Descrição base (se houver): " + description, "", Instruction]
  }

  /** The system instruction: the five sentences joined by single spaces. */
  function SystemMessage(tone: string, channel: string): string {
    Join(SystemSentences(tone, channel), " ")
  }

  /** The rendered prompt: tone and guide are written into the system
      instruction; channel, name and description fill the human template. */
  function SocialPrompt(input: SocialInput): Prompt {
    Prompt(
      SystemMessage(input.tone.GetOr(DefaultTone), input.channel),
      Join(HumanLines(input.channel, input.name, input.description.GetOr("")), "\n"))
  }

  /** A missing tone renders as "neutro" and a missing description as "". */
  lemma SocialPromptDefaults(name: string, channel: string)
    ensures SocialPrompt(SocialInput(name, None, channel, None))
         == SocialPrompt(SocialInput(name, Some(""), channel, Some("neutro")))
  {
  }

  lemma JoinFive(a: string, b: string, c: string, d: string, e: string, sep: string)
    ensures Join([a, b, c, d, e], sep) == a + sep + b + sep + c + sep + d + sep + e
  {
    assert [d, e][1..] == [e];
    assert Join([d, e], sep) == d + sep + e;
    assert [c, d, e][1..] == [d, e];
    assert Join([c, d, e], sep) == c + sep + (d + sep + e);
    assert [b, c, d, e][1..] == [c, d, e];
    assert Join([b, c, d, e], sep) == b + sep + (c + sep + (d + sep + e));
    assert [a, b, c, d, e][1..] == [b, c, d, e];
  }

  /** The system instruction is the five sentences separated by single
      spaces: the tone sits inside the third, the style guide is fourth. */
  lemma SystemMessageShape(tone: string, channel: string)
    ensures SystemMessage(tone, channel)
         == (Role + " " + Adapt + " " + TonePrefix) + tone + ("." + " " + StyleGuide(channel) + " " + Emojis)
    ensures SystemMessage(tone, channel)
         == (Role + " " + Adapt + " " + ToneSentence(tone) + " ") + StyleGuide(channel) + (" " + Emojis)
  {
    FiveShape(Role, Adapt, TonePrefix, tone, StyleGuide(channel), Emojis);
  }

  /** The shape of the system instruction, for arbitrary sentences. */
  lemma FiveShape(a: string, b: string, q: string, t: string, g: string, e: string)
    ensures Join([a, b, q + t + ".", g, e], " ") == (a + " " + b + " " + q) + t + ("." + " " + g + " " + e)
    ensures Join([a, b, q + t + ".", g, e], " ") == (a + " " + b + " " + (q + t + ".") + " ") + g + (" " + e)
  {
    JoinFive(a, b, q + t + ".", g, e, " ");
    Regroup(a + " " + b + " ", q, t, ".", " " + g + " " + e);
  }

  lemma Regroup(p: string, q: string, t: string, d: string, rest: string)
    ensures p + (q + t + d) + rest == (p + q) + t + (d + rest)
  {
  }

  /** The system instruction determines the tone: two requests with the same
      channel and different tones get different instructions. */
  lemma SystemMessageTone(t: string, u: string, channel: string)
    requires SystemMessage(t, channel) == SystemMessage(u, channel)
    ensures t == u
  {
    SystemMessageShape(t, channel);
    SystemMessageShape(u, channel);
    CancelAffixes(Role + " " + Adapt + " " + TonePrefix, t, u, "." + " " + StyleGuide(channel) + " " + Emojis);
  }

  /** The system instruction determines the channel among the four: with
      the same tone, different channels get different instructions. */
  lemma SystemMessageChannel(tone: string, c: string, d: string)
    requires c in Channels && d in Channels
    requires SystemMessage(tone, c) == SystemMessage(tone, d)
    ensures c == d
  {
    SystemMessageShape(tone, c);
    SystemMessageShape(tone, d);
    CancelAffixes(Role + " " + Adapt + " " + ToneSentence(tone) + " ", StyleGuide(c), StyleGuide(d), " " + Emojis);
    StyleGuideInjective(c, d);
  }

  /** The human message is the three variable lines, a blank line and the
      instruction, joined by line feeds. */
  lemma HumanMessageShape(channel: string, name: string, description: string)
    ensures Join(HumanLines(channel, name, description), "\n")
         == ("Canal: " + channel) + "\n" + ("Nome do produto: " + name) + "\n"
          + ("Descrição base (se houver): " + description) + "\n" + "" + "\n" + Instruction
  {
    JoinFive("Canal: " + channel, "Nome do produto: " + name, "Descrição base (se houver): " + description, "", Instruction, "\n");
  }

  lemma LabelsSingleLine(channel: string, name: string, description: string)
    requires '\n' !in channel && '\n' !in name && '\n' !in description
    ensures '\n' !in "Canal: " + channel && '\n' !in "Nome do produto: " + name
    ensures '\n' !in "Descrição base (se houver): " + description
  {
  }

  /** With single-line values the first four lines of the human message
      read back exactly, the fourth blank. */
  lemma HumanMessageLines(input: SocialInput)
    requires '\n' !in input.channel && '\n' !in input.name && '\n' !in input.description.GetOr("")
    ensures Lines(SocialPrompt(input).human)
         == HumanLines(input.channel, input.name, input.description.GetOr(""))[..4] + Lines(Instruction)
  {
    var d := input.description.GetOr("");
    var a, b, c := "Canal: " + input.channel, "Nome do produto: " + input.name, "Descrição base (se houver): " + d;
    assert HumanLines(input.channel, input.name, d) == [a, b, c, "", Instruction];
    LabelsSingleLine(input.channel, input.name, d);
    JoinedLines(a, b, c, Instruction);
  }

  lemma JoinedLines(a: string, b: string, c: string, rest: string)
    requires '\n' !in a && '\n' !in b && '\n' !in c
    ensures Lines(Join([a, b, c, "", rest], "\n")) == [a, b, c, ""] + Lines(rest)
  {
    var nl := "\n";
    var t3 := [] + nl + rest;
    var t2 := c + nl + t3;
    var t1 := b + nl + t2;
    var parts := [a, b, c, "", rest];
    assert parts[1..][1..][1..][1..] == [rest];
    assert Join(parts[1..][1..][1..], nl) == t3;
    assert Join(parts[1..][1..], nl) == t2;
    assert Join(parts[1..], nl) == t1;
    assert Join(parts, nl) == a + nl + t1;
    SplitAfterPiece(a, t1, '\n');
    SplitAfterPiece(b, t2, '\n');
    SplitAfterPiece(c, t3, '\n');
    SplitAfterPiece([], rest, '\n');
  }

  // ------------------------------------------------------------ run

  /** `run`: the model's content with no post-processing. */
  function Run(input: SocialInput, llm: ChatModel): (r: Result<Content>)
    ensures r.Ok? <==> llm(SocialPrompt(input)).Ok?
    ensures llm(SocialPrompt(input)).Err? ==> r == Err(llm(SocialPrompt(input)).error)
  {
    var response :- llm(SocialPrompt(input));
    Ok(RawText(response))
  }

  /** A string answer comes back verbatim, surrounding whitespace and all;
      a message's content comes back as it is, even when it is not a
      string. */
  lemma SocialTextVerbatim(input: SocialInput, llm: ChatModel)
    requires llm(SocialPrompt(input)).Ok?
    ensures llm(SocialPrompt(input)).value.Plain? ==> Run(input, llm) == Ok(Text(llm(SocialPrompt(input)).value.text))
    ensures llm(SocialPrompt(input)).value.Message? ==> Run(input, llm) == Ok(llm(SocialPrompt(input)).value.content)
  {
  }
}
