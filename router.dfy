/**
 * The revision router on the critique node's conditional edge: after each
 * critique it chooses between generating the supporting content, revising
 * the article, and gathering additional research first.
 */
module Router {
  import opened Text

  /** The three labels of the conditional edge. */
  datatype Route = Generate | Revise | AdditionalResearch

  /** The 24 phrases the router looks for in the critique feedback. */
  const RouterKeywords: seq<string> := [
    "insufficient research", "lack of data", "missing sources", "outdated information",
    "need more research", "incomplete research", "limited sources", "more data needed",
    "insufficient data", "lack of sources", "missing research", "incomplete data",
    "limited research", "need more data", "insufficient sources", "more research needed",
    "recent developments", "current trends", "latest information", "up-to-date sources",
    "research integration", "utilize research", "use research data", "incorporate research"]

  /** The 20 phrases the sequential revision loop looks for: the router's first 20. */
  const InlineKeywords: seq<string> := [
    "insufficient research", "lack of data", "missing sources", "outdated information",
    "need more research", "incomplete research", "limited sources", "more data needed",
    "insufficient data", "lack of sources", "missing research", "incomplete data",
    "limited research", "need more data", "insufficient sources", "more research needed",
    "recent developments", "current trends", "latest information", "up-to-date sources"]

  /** Some feedback item, lowercased, contains one of the keywords. */
  predicate MentionsAny(feedback: seq<string>, keywords: seq<string>)
  {
    exists i, k {:trigger Contains(Lower(feedback[i]), keywords[k])} ::
      0 <= i < |feedback| && 0 <= k < |keywords| && Contains(Lower(feedback[i]), keywords[k])
  }

  /** The part of the state the router reads. */
  datatype View = View(
    critiquePassed: bool,
    revisionCount: int,
    maxRevisions: int,
    feedback: seq<string>,
    researchCalls: int,
    additionalResearchCalls: int,
    researchDataLength: nat)

  /**
   * `_should_continue_revision`. A passed critique, or an exhausted revision
   * budget, leads to generation; otherwise a research keyword in the feedback
   * leads to additional research when none was done yet or the research is
   * shorter than 2000 characters; everything else is a revision.
   */
  function Decide(v: View): (r: Route)
    ensures v.critiquePassed ==> r == Generate
    ensures r == Generate <==> v.critiquePassed || v.revisionCount >= v.maxRevisions
    ensures r == AdditionalResearch <==>
      !v.critiquePassed && v.revisionCount < v.maxRevisions && MentionsAny(v.feedback, RouterKeywords)
      && (v.additionalResearchCalls == 0 || v.researchDataLength < 2000)
  {
    if v.critiquePassed then Generate
    else if v.revisionCount >= v.maxRevisions then Generate
    else
      var needsMoreResearch := MentionsAny(v.feedback, RouterKeywords);
      var researchDataInsufficient := v.researchDataLength < 2000;
      var noAdditionalResearchYet := v.additionalResearchCalls == 0;
      var multipleResearchAttempts := v.researchCalls + v.additionalResearchCalls >= 2;
      if needsMoreResearch && (noAdditionalResearchYet || researchDataInsufficient) then AdditionalResearch
      else if needsMoreResearch && multipleResearchAttempts then Revise
      else Revise
  }

  /**
   * The "multiple research attempts" test never changes the outcome: the
   * decision is the same whatever the number of initial research calls.
   */
  lemma ResearchCallsIrrelevant(v: View, researchCalls: int)
    ensures Decide(v.(researchCalls := researchCalls)) == Decide(v)
  {
  }

  /** With revisions left and no feedback, the router revises. */
  lemma EmptyFeedbackRevises(v: View)
    requires !v.critiquePassed && v.revisionCount < v.maxRevisions && v.feedback == []
    ensures Decide(v) == Revise
  {
  }

  /** Every phrase of the sequential loop is also a router phrase. */
  lemma InlineKeywordsAreRouterKeywords(feedback: seq<string>)
    ensures forall k :: 0 <= k < |InlineKeywords| ==> InlineKeywords[k] == RouterKeywords[k]
    ensures MentionsAny(feedback, InlineKeywords) ==> MentionsAny(feedback, RouterKeywords)
  {
    if MentionsAny(feedback, InlineKeywords) {
      var i, k :| 0 <= i < |feedback| && 0 <= k < |InlineKeywords| && Contains(Lower(feedback[i]), InlineKeywords[k]);
      assert InlineKeywords[k] == RouterKeywords[k];
    }
  }

  /**
   * After one additional research call, a keyword hit still leads to more
   * research while the research is under 2000 characters, and to a revision
   * from 2000 characters on.
   */
  lemma SecondResearchNeedsShortData(v: View)
    requires !v.critiquePassed && v.revisionCount < v.maxRevisions
    requires v.additionalResearchCalls == 1 && MentionsAny(v.feedback, RouterKeywords)
    ensures Decide(v) == (if v.researchDataLength < 2000 then AdditionalResearch else Revise)
  {
  }
}
