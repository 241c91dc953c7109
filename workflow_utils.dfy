/**
 * The stand-alone state helpers: the workflow state as a plain dictionary
 * in which any key may be missing, the call logger that appends to it in
 * place, the copy of the revision router that reads it, and the builders of
 * the initial state and of the final output. Reading a missing key with
 * `state[key]` raises `KeyError`; the model returns the key's name instead.
 */
module WorkflowUtils {
  import opened Outcomes
  import opened CallLog
  import opened ArticleStates
  import opened Router

  /**
   * The records under `agent_call_log` after one more call is logged: a
   * missing value, or one that is not a list, is first replaced by an empty
   * log, so the new record is numbered one past the records kept.
   */
  function LoggedRecords(log: Option<LogValue>, agentName: string, callType: string,
                         revisionCount: int, researchCalls: int, additionalResearchCalls: int): (r: seq<CallRecord>)
    ensures |r| >= 1 && r[|r| - 1].callId == |r|
    ensures r[|r| - 1].agentName == agentName && r[|r| - 1].callType == callType
    ensures r[|r| - 1].revisionCount == revisionCount && r[|r| - 1].researchCalls == researchCalls
    ensures r[|r| - 1].additionalResearchCalls == additionalResearchCalls
    ensures log.Some? && log.value.Records? ==> |r| == |log.value.records| + 1 && r[..|r| - 1] == log.value.records
    ensures !(log.Some? && log.value.Records?) ==> |r| == 1 && r[0].callId == 1
    ensures (log.Some? && log.value.Records? ==> IdsSequential(log.value.records)) ==> IdsSequential(r)
  {
    var prior := if log.Some? && log.value.Records? then log.value.records else [];
    Append(prior, agentName, callType, revisionCount, researchCalls, additionalResearchCalls)
  }

  /** The workflow state as a dictionary: `None` is a missing key. */
  class StateDict {
    var topic: Option<string>
    var researchData: Option<string>
    var article: Option<string>
    var critiqueFeedback: Option<seq<string>>
    var critiquePassed: Option<bool>
    var revisionCount: Option<int>
    var maxRevisions: Option<int>
    var researchCalls: Option<int>
    var additionalResearchCalls: Option<int>
    var agentCallLog: Option<LogValue>
    var imagePrompt: Option<string>
    var imageUrl: Option<string>
    var linkedinPost: Option<string>
    var hashtags: Option<seq<string>>
    var seoKeywords: Option<seq<string>>
    /** `Some(None)` is the empty dictionary the initial state holds. */
    var finalOutput: Option<Option<FinalOutput>>

    /** The state `create_initial_state` builds: every key present, empty or zero, with the given limit. */
    ghost predicate IsInitial(topic: string, maxRevisions: int)
      reads this
    {
      this.topic == Some(topic) && researchData == Some([]) && article == Some([])
      && critiqueFeedback == Some([]) && critiquePassed == Some(false) && revisionCount == Some(0)
      && this.maxRevisions == Some(maxRevisions) && researchCalls == Some(0) && additionalResearchCalls == Some(0)
      && agentCallLog == Some(Records([])) && imagePrompt == Some([]) && imageUrl == Some([])
      && linkedinPost == Some([]) && hashtags == Some([]) && seoKeywords == Some([]) && finalOutput == Some(None)
    }

    /** `create_initial_state`: the limit is stored as given. */
    constructor Initial(topic: string, maxRevisions: int)
      ensures IsInitial(topic, maxRevisions)
    {
      this.topic := Some(topic);
      researchData := Some([]);
      article := Some([]);
      critiqueFeedback := Some([]);
      critiquePassed := Some(false);
      revisionCount := Some(0);
      this.maxRevisions := Some(maxRevisions);
      researchCalls := Some(0);
      additionalResearchCalls := Some(0);
      agentCallLog := Some(Records([]));
      imagePrompt := Some([]);
      imageUrl := Some([]);
      linkedinPost := Some([]);
      hashtags := Some([]);
      seoKeywords := Some([]);
      finalOutput := Some(None);
    }

    /**
     * `log_agent_call`: the log is replaced by an empty one when missing or
     * not a list, then one record is appended with the counters read with a
     * default of 0. Nothing else in the dictionary changes.
     */
    method LogAgentCall(agentName: string, callType: string)
      modifies this`agentCallLog
      ensures agentCallLog == Some(Records(LoggedRecords(old(agentCallLog), agentName, callType,
        revisionCount.GetOr(0), researchCalls.GetOr(0), additionalResearchCalls.GetOr(0))))
    {
      if agentCallLog.None? || !agentCallLog.value.Records? {
        agentCallLog := Some(Records([]));
      }
      var records := agentCallLog.value.records;
      var callId := |records| + 1;
      var record := CallRecord(callId, agentName, callType,
        revisionCount.GetOr(0), researchCalls.GetOr(0), additionalResearchCalls.GetOr(0));
      agentCallLog := Some(Records(records + [record]));
    }

    /**
     * `should_continue_revision`: `critique_passed`, then `revision_count`
     * and `max_revisions` are read as required keys, in that order, and only
     * as far as the decision needs them; the feedback, the research counters
     * and the research text default to empty or zero. Whenever the keys are
     * there, the decision is the graph router's on the same values.
     */
    function ShouldContinueRevision(): (r: Result<Route, string>)
      reads this
      ensures critiquePassed.None? ==> r == Err("critique_passed")
      ensures critiquePassed == Some(true) ==> r == Ok(Generate)
      ensures critiquePassed == Some(false) && revisionCount.None? ==> r == Err("revision_count")
      ensures critiquePassed == Some(false) && revisionCount.Some? && maxRevisions.None? ==> r == Err("max_revisions")
      ensures r.Ok? <==> critiquePassed.Some? && (critiquePassed.value || (revisionCount.Some? && maxRevisions.Some?))
      ensures r.Ok? ==> r.value == Decide(View(critiquePassed.value, revisionCount.GetOr(0), maxRevisions.GetOr(0),
        critiqueFeedback.GetOr([]), researchCalls.GetOr(0), additionalResearchCalls.GetOr(0), |researchData.GetOr([])|))
    {
      if critiquePassed.None? then Err("critique_passed")
      else if critiquePassed.value then Ok(Generate)
      else if revisionCount.None? then Err("revision_count")
      else if maxRevisions.None? then Err("max_revisions")
      else if revisionCount.value >= maxRevisions.value then Ok(Generate)
      else
        var feedback := critiqueFeedback.GetOr([]);
        var calls := researchCalls.GetOr(0);
        var additionalCalls := additionalResearchCalls.GetOr(0);
        var dataLength := |researchData.GetOr([])|;
        var needsMoreResearch := MentionsAny(feedback, RouterKeywords);
        var researchDataInsufficient := dataLength < 2000;
        var noAdditionalResearchYet := additionalCalls == 0;
        var multipleResearchAttempts := calls + additionalCalls >= 2;
        if needsMoreResearch && (noAdditionalResearchYet || researchDataInsufficient) then Ok(AdditionalResearch)
        else if needsMoreResearch && multipleResearchAttempts then Ok(Revise)
        else Ok(Revise)
    }

    /**
     * The first key `create_final_output` reads with `state[key]` that is
     * missing, in the order the output lists them.
     */
    function MissingKey(): Option<string>
      reads this
    {
      if article.None? then Some("article")
      else if researchData.None? then Some("research_data")
      else if critiqueFeedback.None? then Some("critique_feedback")
      else if imagePrompt.None? then Some("image_prompt")
      else if imageUrl.None? then Some("image_url")
      else if linkedinPost.None? then Some("linkedin_post")
      else if hashtags.None? then Some("hashtags")
      else if seoKeywords.None? then Some("seo_keywords")
      else if revisionCount.None? then Some("revision_count")
      else if topic.None? then Some("topic")
      else None
    }

    /**
     * `create_final_output`: fails on the first missing required key;
     * otherwise `revisions_made` is the revision count, the research
     * counters default to 0, the call log to an empty one, and every other
     * entry is the value of the key of the same name.
     */
    function CreateFinalOutput(): (r: Result<FinalOutput, string>)
      reads this
      ensures r.Err? <==> MissingKey().Some?
      ensures r.Err? ==> r.error == MissingKey().value
      ensures r.Ok? ==> (
        r.value.revisionsMade == revisionCount.value && r.value.article == article.value
        && r.value.researchData == researchData.value && r.value.critiqueFeedback == critiqueFeedback.value
        && r.value.imagePrompt == imagePrompt.value && r.value.imageUrl == imageUrl.value
        && r.value.linkedinPost == linkedinPost.value && r.value.hashtags == hashtags.value
        && r.value.seoKeywords == seoKeywords.value && r.value.topic == topic.value
        && r.value.researchCalls == researchCalls.GetOr(0)
        && r.value.additionalResearchCalls == additionalResearchCalls.GetOr(0)
        && r.value.agentCallLog == agentCallLog.GetOr(Records([]))
        && r.value.exportPaths == NotRequested)
    {
      match MissingKey()
      case Some(key) => Err(key)
      case None =>
        Ok(FinalOutput(article.value, researchData.value, critiqueFeedback.value, imagePrompt.value,
                       imageUrl.value, linkedinPost.value, hashtags.value, seoKeywords.value,
                       revisionCount.value, researchCalls.GetOr(0), additionalResearchCalls.GetOr(0),
                       agentCallLog.GetOr(Records([])), topic.value, NotRequested))
    }

    /** Every key holds the value of the same field of `st`. */
    ghost predicate Mirrors(st: ArticleState)
      reads this, st
    {
      topic == Some(st.topic) && researchData == Some(st.researchData) && article == Some(st.article)
      && critiqueFeedback == Some(st.critiqueFeedback) && critiquePassed == Some(st.critiquePassed)
      && revisionCount == Some(st.revisionCount) && maxRevisions == Some(st.maxRevisions)
      && researchCalls == Some(st.researchCalls) && additionalResearchCalls == Some(st.additionalResearchCalls)
      && agentCallLog == Some(Records(st.agentCallLog)) && imagePrompt == Some(st.imagePrompt)
      && imageUrl == Some(st.imageUrl) && linkedinPost == Some(st.linkedinPost)
      && hashtags == Some(st.hashtags) && seoKeywords == Some(st.seoKeywords)
    }
  }

  /**
   * On a dictionary holding every key, the helpers agree with the workflow's
   * own methods: the router copy decides as the graph router, the final
   * output is the state's, and logging appends the record the workflow's
   * logger appends.
   */
  lemma HelpersAgree(d: StateDict, st: ArticleState)
    requires d.Mirrors(st)
    ensures d.ShouldContinueRevision() == Ok(Decide(View(st.critiquePassed, st.revisionCount, st.maxRevisions,
      st.critiqueFeedback, st.researchCalls, st.additionalResearchCalls, |st.researchData|)))
    ensures d.CreateFinalOutput() == Ok(st.Output())
    ensures forall name: string, callType: string ::
      LoggedRecords(d.agentCallLog, name, callType, d.revisionCount.GetOr(0), d.researchCalls.GetOr(0),
                    d.additionalResearchCalls.GetOr(0))
      == Append(st.agentCallLog, name, callType, st.revisionCount, st.researchCalls, st.additionalResearchCalls)
  {
  }

  /**
   * In the initial state the router revises while the limit is positive
   * (there is no feedback yet) and generates otherwise, and the final
   * output has empty content, zero counters and an empty log.
   */
  lemma InitialState(d: StateDict, topic: string, maxRevisions: int)
    requires d.IsInitial(topic, maxRevisions)
    ensures d.ShouldContinueRevision() == Ok(if maxRevisions > 0 then Revise else Generate)
    ensures d.CreateFinalOutput() == Ok(FinalOutput([], [], [], [], [], [], [], [], 0, 0, 0, Records([]), topic, NotRequested))
  {
    if maxRevisions > 0 {
      EmptyFeedbackRevises(View(false, 0, maxRevisions, [], 0, 0, 0));
    }
  }

  /** A log that is missing or not a list restarts at call id 1. */
  lemma LogRestarts(log: Option<LogValue>, agentName: string, callType: string)
    requires log.None? || log.value.NotAList?
    ensures LoggedRecords(log, agentName, callType, 0, 0, 0) == [CallRecord(1, agentName, callType, 0, 0, 0)]
  {
  }
}
