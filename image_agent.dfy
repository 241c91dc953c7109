/**
 * The image agent: the model writes an image prompt, and the image service
 * turns it into an image address or fails with a message.
 */
module ImageAgent {
  import opened Outcomes
  import opened Text
  import opened ArticleStates

  const ErrorPrefix: string := "[DALL-E Error: "

  /** The values the image-prompt prompt is filled with. */
  datatype ImagePromptRequest = ImagePromptRequest(topic: string, articleSummary: string)

  /**
   * What `image_url` holds after the image service answered: the address on
   * success, the error message wrapped in `[DALL-E Error: ...]` on failure.
   */
  function ImageUrl(outcome: Result<string, string>): (r: string)
    ensures outcome.Ok? ==> r == outcome.value
    ensures outcome.Err? ==> StartsWith(r, ErrorPrefix) && r[|r| - 1] == ']'
    ensures outcome.Err? ==> r[|ErrorPrefix|..|r| - 1] == outcome.error
  {
    match outcome
    case Ok(url) => url
    case Err(message) => ErrorPrefix + message + "]"
  }

  /** A failure can be told apart from any address that does not start with the error prefix. */
  lemma FailureRecognisable(outcome: Result<string, string>)
    requires outcome.Ok? ==> !StartsWith(outcome.value, ErrorPrefix)
    ensures StartsWith(ImageUrl(outcome), ErrorPrefix) <==> outcome.Err?
  {
  }

  /**
   * The image node: the prompt quotes the first 500 characters of the
   * article; the model's reply is stored as the image prompt whether or not
   * the image service succeeds, and `image_url` records the outcome.
   */
  method Run(st: ArticleState, promptReply: string, outcome: Result<string, string>) returns (request: ImagePromptRequest)
    modifies st`imagePrompt, st`imageUrl
    ensures request == ImagePromptRequest(st.topic, Excerpt(st.article, 500))
    ensures st.imagePrompt == promptReply && st.imageUrl == ImageUrl(outcome)
  {
    request := ImagePromptRequest(st.topic, Excerpt(st.article, 500));
    match outcome {
      case Ok(url) =>
        st.imagePrompt := promptReply;
        st.imageUrl := url;
      case Err(message) =>
        st.imagePrompt := promptReply;
        st.imageUrl := ErrorPrefix + message + "]";
    }
  }
}
