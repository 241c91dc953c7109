/** The draft agent, which writes the first version of the article from the research. */
module DraftAgent {
  import opened ArticleStates

  /** The values the draft prompt is filled with. */
  datatype DraftPrompt = DraftPrompt(topic: string, researchData: string)

  /** The draft node: the prompt carries the topic and the research; the reply becomes the article. */
  method Run(st: ArticleState, reply: string) returns (prompt: DraftPrompt)
    modifies st`article
    ensures prompt == DraftPrompt(st.topic, st.researchData)
    ensures st.article == reply
  {
    prompt := DraftPrompt(st.topic, st.researchData);
    st.article := reply;
  }
}
