/** The research agent's effect on the state. */
module ResearchAgent {
  import opened ArticleStates

  /**
   * The values the additional-research prompt of `_call_research` is filled
   * with: the topic and the feedback as bullet lines. The call reads and
   * writes no state.
   */
  datatype ResearchPrompt = ResearchPrompt(topic: string, feedbackText: string)

  /**
   * The research node: the reply replaces the research data, the revision
   * count restarts at 0, the revision limit becomes 3 whatever was
   * configured, and one research call is counted. Nothing else changes.
   */
  method Run(st: ArticleState, reply: string)
    modifies st`researchData, st`revisionCount, st`maxRevisions, st`researchCalls
    ensures st.researchData == reply && st.revisionCount == 0 && st.maxRevisions == 3
    ensures st.researchCalls == old(st.researchCalls) + 1
  {
    st.researchData := reply;
    st.revisionCount := 0;
    st.maxRevisions := 3;
    st.researchCalls := st.researchCalls + 1;
  }
}
