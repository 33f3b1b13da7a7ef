/** The shapes exchanged with the hosted chat model. The model itself is not
    part of this model: every pipeline receives it as an oracle, a function
    from the rendered prompt to the provider's answer or failure. */
module Chat {
  import opened Wrappers

  /** A message's `content` as the provider returns it: a string, an array
      of content blocks, an object, or any other JSON value. */
  datatype Content =
    | Text(text: string)
    | Blocks(items: seq<Content>)
    | Record(fields: map<string, Content>)
    | Scalar

  /** What `chain.invoke` resolves to: a bare string or a message object. */
  datatype ChatResponse = Plain(text: string) | Message(content: Content)

  /** A rendered two-message chat prompt: the system instruction and the
      human message with every template variable substituted. */
  datatype Prompt = Prompt(system: string, human: string)

  /** The chat model as seen by a pipeline. */
  type ChatModel = Prompt -> Result<ChatResponse>

  /** The pipelines' `typeof response === 'string' ? response :
      (response.content as string)`. The cast checks nothing, so the raw
      content is what the pipeline goes on with. */
  function RawText(r: ChatResponse): Content {
    match r
    case Plain(s) => Text(s)
    case Message(c) => c
  }

  /** The raw text when a string method (`replace`) is applied to it next:
      any content that is not a string makes that call throw a TypeError. */
  function StringText(r: ChatResponse): Result<string> {
    match RawText(r)
    case Text(s) => Ok(s)
    case _ => Err(Internal("text.replace is not a function"))
  }
}
