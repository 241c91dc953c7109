/** The post agent, which writes the LinkedIn post promoting the article. */
module PostAgent {
  import opened Text
  import opened ArticleStates

  /**
   * The post node: the prompt quotes the first 600 characters of the
   * article; the reply, with surrounding whitespace removed, becomes the post.
   */
  method Run(st: ArticleState, reply: string) returns (articleSummary: string)
    modifies st`linkedinPost
    ensures articleSummary == Excerpt(st.article, 600)
    ensures st.linkedinPost == Strip(reply) && Strip(st.linkedinPost) == st.linkedinPost
  {
    articleSummary := Excerpt(st.article, 600);
    st.linkedinPost := Strip(reply);
    StripIdempotent(reply);
  }
}
