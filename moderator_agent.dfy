/** The moderator agent, which rewrites the article from the critique feedback. */
module ModeratorAgent {
  import opened ArticleStates
  import opened Feedback

  /** The values the revision prompt is filled with. */
  datatype RevisionPrompt = RevisionPrompt(article: string, researchData: string, feedbackText: string, revisionNumber: int)

  /**
   * The moderator node: the prompt numbers the revision one past the current
   * count and lists the feedback as bullet lines; the reply replaces the
   * article and the revision count goes up by one. Nothing else changes.
   */
  method Run(st: ArticleState, reply: string) returns (prompt: RevisionPrompt)
    modifies st`article, st`revisionCount
    ensures prompt == RevisionPrompt(old(st.article), st.researchData, FeedbackText(st.critiqueFeedback), old(st.revisionCount) + 1)
    ensures st.article == reply && st.revisionCount == old(st.revisionCount) + 1
  {
    prompt := RevisionPrompt(st.article, st.researchData, FeedbackText(st.critiqueFeedback), st.revisionCount + 1);
    st.article := reply;
    st.revisionCount := st.revisionCount + 1;
  }
}
