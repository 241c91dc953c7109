/**
 * The article workflow: research, a first draft, a bounded critique and
 * revision loop that may gather additional research, then the image prompt,
 * the LinkedIn post and the SEO terms, assembled into the final output and
 * optionally exported. The replies of the language model and of the image
 * service are parameters of the model.
 */
module Workflow {
  import opened Outcomes
  import opened Text
  import opened CallLog
  import opened Export
  import opened ArticleStates
  import opened Router
  import CritiqueAgent
  import Feedback
  import ResearchAgent
  import DraftAgent
  import ModeratorAgent
  import ImageAgent
  import PostAgent
  import SeoAgent

  const ResearchAgentName: string := "ResearchAgent"
  const DraftAgentName: string := "DraftAgent"
  const CritiqueAgentName: string := "CritiqueAgent"
  const ModeratorAgentName: string := "ModeratorAgent"
  const ImageAgentName: string := "ImageAgent"
  const PostAgentName: string := "PostAgent"
  const SeoAgentName: string := "SEOAgent"

  /** What separates each piece of additional research from the research before it. */
  const ResearchSeparator: string := "\n\n--- ADDITIONAL RESEARCH ---\n"

  /**
   * The replies the agents receive, by call: the critique and the revision
   * made while the revision count is `k`, and the reply to the `k`-th
   * additional research call (counted from 1).
   */
  datatype Replies = Replies(
    research: string,
    draft: string,
    critique: nat -> string,
    revision: nat -> string,
    additional: nat -> string,
    imagePrompt: string,
    image: Result<string, string>,
    post: string,
    seo: string)

  /**
   * `_log_agent_call`: one record is appended, numbered one past the current
   * length, with a snapshot of the revision and research counters. The
   * caller's agent gains one record; every other agent keeps its count.
   */
  method LogAgentCall(st: ArticleState, agentName: string, callType: string)
    modifies st`agentCallLog
    ensures st.agentCallLog == Append(old(st.agentCallLog), agentName, callType,
                                      st.revisionCount, st.researchCalls, st.additionalResearchCalls)
    ensures IdsSequential(old(st.agentCallLog)) ==> IdsSequential(st.agentCallLog)
    ensures forall name :: (CountAgent(st.agentCallLog, name)
      == CountAgent(old(st.agentCallLog), name) + (if name == agentName then 1 else 0))
  {
    CountAfterAppend(st.agentCallLog, agentName, callType, st.revisionCount, st.researchCalls, st.additionalResearchCalls);
    st.agentCallLog := Append(st.agentCallLog, agentName, callType, st.revisionCount, st.researchCalls, st.additionalResearchCalls);
  }

  /**
   * The research after one more additional research reply: unchanged when
   * the reply is empty, otherwise extended by the separator and the reply.
   * The research before is always kept as a prefix.
   */
  function WithAdditional(data: string, reply: string): (r: string)
    ensures |r| >= |data| && r[..|data|] == data
    ensures r == data <==> reply == []
  {
    if reply == [] then data else data + ResearchSeparator + reply
  }

  /**
   * The additional research step (a graph node of its own, and inlined in the
   * sequential loop): the call is counted first, then logged with the new
   * count, and the research prompt lists the current feedback as bullet lines.
   */
  method AdditionalResearchStep(st: ArticleState, reply: string) returns (prompt: ResearchAgent.ResearchPrompt)
    modifies st`additionalResearchCalls, st`agentCallLog, st`researchData
    ensures prompt == ResearchAgent.ResearchPrompt(st.topic, Feedback.FeedbackText(st.critiqueFeedback))
    ensures st.additionalResearchCalls == old(st.additionalResearchCalls) + 1
    ensures st.agentCallLog == Append(old(st.agentCallLog), ResearchAgentName,
                                      "additional_" + IntToString(st.additionalResearchCalls),
                                      st.revisionCount, st.researchCalls, st.additionalResearchCalls)
    ensures IdsSequential(old(st.agentCallLog)) ==> IdsSequential(st.agentCallLog)
    ensures forall name :: (CountAgent(st.agentCallLog, name)
      == CountAgent(old(st.agentCallLog), name) + (if name == ResearchAgentName then 1 else 0))
    ensures st.researchData == WithAdditional(old(st.researchData), reply)
  {
    st.additionalResearchCalls := st.additionalResearchCalls + 1;
    LogAgentCall(st, ResearchAgentName, "additional_" + IntToString(st.additionalResearchCalls));
    prompt := ResearchAgent.ResearchPrompt(st.topic, Feedback.FeedbackText(st.critiqueFeedback));
    if reply != [] {
      st.researchData := st.researchData + ResearchSeparator + reply;
    }
  }

  /** A critique reply that passes the article. */
  predicate Passes(reply: string)
  {
    CritiqueAgent.ParseCritique(reply).passed
  }

  /** The issues raised by the critique made at each revision count. */
  function IssuesAt(replies: Replies): nat -> seq<string>
  {
    (k: nat) => CritiqueAgent.ParseCritique(replies.critique(k)).issues
  }

  /** Whether the critique made at each revision count passes. */
  function PassedAt(replies: Replies): nat -> bool
  {
    (k: nat) => Passes(replies.critique(k))
  }

  /**
   * The number of revisions a bounded loop makes: the first index from
   * `from` on whose verdict passes, or `limit` when none below it does.
   */
  function FirstPass(passed: nat -> bool, from: nat, limit: nat): (r: nat)
    requires from <= limit
    ensures from <= r <= limit
    ensures forall k :: from <= k < r ==> !passed(k)
    ensures r < limit ==> passed(r)
    decreases limit - from
  {
    if from == limit then limit
    else if passed(from) then from
    else FirstPass(passed, from + 1, limit)
  }

  /** One more failing verdict extends a run of failures. */
  lemma FailuresExtend(passed: nat -> bool, n: nat)
    requires forall k :: 0 <= k < n ==> !passed(k)
    requires !passed(n)
    ensures forall k :: 0 <= k < n + 1 ==> !passed(k)
  {
  }

  /** The properties of `FirstPass` determine it. */
  lemma FirstPassUnique(passed: nat -> bool, limit: nat, r: nat)
    requires r <= limit
    requires forall k :: 0 <= k < r ==> !passed(k)
    requires r == limit || passed(r)
    ensures FirstPass(passed, 0, limit) == r
  {
  }

  /** Whether the critique made at each revision count asks for research in the sequential loop. */
  function InlineHitAt(replies: Replies): nat -> bool
  {
    (k: nat) => MentionsAny(IssuesAt(replies)(k), InlineKeywords)
  }

  /**
   * `passed` and `issues` are the verdict and the issues the critique agent
   * reads from the critique reply of each revision count.
   */
  ghost predicate ReadsCritiques(replies: Replies, passed: nat -> bool, issues: nat -> seq<string>)
  {
    forall k: nat {:trigger replies.critique(k)} ::
      passed(k) == Passes(replies.critique(k)) && issues(k) == CritiqueAgent.ParseCritique(replies.critique(k)).issues
  }

  /** `hit` tells, for each revision count, whether its issues name one of `keywords`. */
  ghost predicate ChecksIssues(issues: nat -> seq<string>, hit: nat -> bool, keywords: seq<string>)
  {
    forall k: nat {:trigger MentionsAny(issues(k), keywords)} :: hit(k) == MentionsAny(issues(k), keywords)
  }

  /** The verdicts, issues and research checks of the sequential loop are those of the critique replies. */
  lemma SequentialChecks(replies: Replies)
    ensures ReadsCritiques(replies, PassedAt(replies), IssuesAt(replies))
    ensures ChecksIssues(IssuesAt(replies), InlineHitAt(replies), InlineKeywords)
  {
  }

  /** The number of indices below `n` that `hit` selects. */
  function CountBelow(hit: nat -> bool, n: nat): (r: nat)
    ensures r <= n
  {
    if n == 0 then 0 else CountBelow(hit, n - 1) + (if hit(n - 1) then 1 else 0)
  }

  /** Counting one more index adds one exactly when `hit` selects it. */
  lemma CountBelowStep(hit: nat -> bool, n: nat)
    ensures CountBelow(hit, n + 1) == CountBelow(hit, n) + (if hit(n) then 1 else 0)
  {
  }

  /** The research after the first `m` additional research replies of the sequential loop. */
  function SequentialResearch(replies: Replies, m: nat): (r: string)
    ensures |r| >= |replies.research| && r[..|replies.research|] == replies.research
  {
    if m == 0 then replies.research
    else
      var before := SequentialResearch(replies, m - 1);
      var r := WithAdditional(before, replies.additional(m));
      assert r[..|replies.research|] == before[..|replies.research|];
      r
  }

  /** One more additional research reply extends the sequential loop's research. */
  lemma SequentialResearchStep(replies: Replies, m: nat)
    ensures SequentialResearch(replies, m + 1) == WithAdditional(SequentialResearch(replies, m), replies.additional(m + 1))
  {
  }

  /** The research after one round of the sequential loop, whether or not it asked for more. */
  lemma ResearchRound(replies: Replies, hit: nat -> bool, revision: nat, before: string, after: string)
    requires before == SequentialResearch(replies, CountBelow(hit, revision))
    requires hit(revision) ==> after == WithAdditional(before, replies.additional(CountBelow(hit, revision) + 1))
    requires !hit(revision) ==> after == before
    ensures after == SequentialResearch(replies, CountBelow(hit, revision + 1))
  {
    CountBelowStep(hit, revision);
    if hit(revision) {
      SequentialResearchStep(replies, CountBelow(hit, revision));
    }
  }

  /** The seven agent names of the call log are pairwise different: their first letters are. */
  lemma AgentNamesDistinct()
    ensures var names := [ResearchAgentName, DraftAgentName, CritiqueAgentName, ModeratorAgentName,
                          ImageAgentName, PostAgentName, SeoAgentName];
            forall i, j :: 0 <= i < j < |names| ==> names[i] != names[j]
  {
    var names := [ResearchAgentName, DraftAgentName, CritiqueAgentName, ModeratorAgentName,
                  ImageAgentName, PostAgentName, SeoAgentName];
    forall i, j | 0 <= i < j < |names| ensures names[i] != names[j] {
      assert names[i][0] != names[j][0];
    }
  }

  /** The records the revision loop has added for `name`. */
  function LoopShare(name: string, critiques: nat, moderations: nat, hits: nat): nat
  {
    if name == CritiqueAgentName then critiques
    else if name == ModeratorAgentName then moderations
    else if name == ResearchAgentName then hits
    else 0
  }

  /**
   * The records a stretch of the revision loop adds to the call log:
   * `critiques` critique calls, `moderations` revisions and `hits` additional
   * research calls, numbered on from the log before.
   */
  ghost predicate LoopRecords(before: seq<CallRecord>, after: seq<CallRecord>, critiques: nat, moderations: nat, hits: nat)
  {
    (IdsSequential(before) ==> IdsSequential(after))
    && |after| == |before| + critiques + moderations + hits
    && forall name :: CountAgent(after, name) == CountAgent(before, name) + LoopShare(name, critiques, moderations, hits)
  }

  /** Two stretches of the loop add up. */
  lemma LoopRecordsCompose(a: seq<CallRecord>, b: seq<CallRecord>, c: seq<CallRecord>,
                           c1: nat, m1: nat, h1: nat, c2: nat, m2: nat, h2: nat)
    requires LoopRecords(a, b, c1, m1, h1) && LoopRecords(b, c, c2, m2, h2)
    ensures LoopRecords(a, c, c1 + c2, m1 + m2, h1 + h2)
  {
    forall name
      ensures CountAgent(c, name) == CountAgent(a, name) + LoopShare(name, c1 + c2, m1 + m2, h1 + h2)
    {
      assert CountAgent(b, name) == CountAgent(a, name) + LoopShare(name, c1, m1, h1);
    }
  }

  /**
   * The sequential loop's research check after a failing critique: when the
   * feedback names one of the 20 phrases, one additional research step.
   * `hit` tells, for each revision count, whether the check fires.
   */
  method InlineResearch(st: ArticleState, replies: Replies, ghost hit: nat -> bool, revision: nat)
    modifies st`additionalResearchCalls, st`agentCallLog, st`researchData
    requires hit(revision) == MentionsAny(st.critiqueFeedback, InlineKeywords)
    requires st.additionalResearchCalls == CountBelow(hit, revision)
    requires st.researchData == SequentialResearch(replies, CountBelow(hit, revision))
    ensures st.additionalResearchCalls == CountBelow(hit, revision + 1)
    ensures st.researchData == SequentialResearch(replies, CountBelow(hit, revision + 1))
    ensures LoopRecords(old(st.agentCallLog), st.agentCallLog, 0, 0, if hit(revision) then 1 else 0)
  {
    ghost var before := st.researchData;
    if MentionsAny(st.critiqueFeedback, InlineKeywords) {
      var _ := AdditionalResearchStep(st, replies.additional(st.additionalResearchCalls + 1));
    }
    ResearchRound(replies, hit, revision, before, st.researchData);
    CountBelowStep(hit, revision);
  }

  /**
   * One revision of the sequential loop after a failing critique with
   * revisions left: the research check, then the moderator's rewrite.
   */
  method ReviseOnce(st: ArticleState, replies: Replies, ghost issues: nat -> seq<string>, ghost hit: nat -> bool, revision: nat)
    modifies st`article, st`revisionCount, st`additionalResearchCalls, st`agentCallLog, st`researchData
    requires ChecksIssues(issues, hit, InlineKeywords)
    requires st.revisionCount == revision && st.critiqueFeedback == issues(revision)
    requires st.additionalResearchCalls == CountBelow(hit, revision)
    requires st.researchData == SequentialResearch(replies, CountBelow(hit, revision))
    ensures st.revisionCount == revision + 1 && st.article == replies.revision(revision)
    ensures st.additionalResearchCalls == CountBelow(hit, revision + 1)
    ensures st.researchData == SequentialResearch(replies, CountBelow(hit, revision + 1))
    ensures LoopRecords(old(st.agentCallLog), st.agentCallLog, 0, 1, if hit(revision) then 1 else 0)
  {
    AgentNamesDistinct();
    InlineResearch(st, replies, hit, revision);
    LogAgentCall(st, ModeratorAgentName, "revision_" + NatToString(revision + 1));
    var _ := ModeratorAgent.Run(st, replies.revision(revision));
  }

  /** One critique of the sequential loop: the call is logged, then the critique agent runs. */
  method CritiqueRound(st: ArticleState, replies: Replies, ghost passed: nat -> bool, ghost issues: nat -> seq<string>, revision: nat)
    modifies st`agentCallLog, st`critiquePassed, st`critiqueFeedback
    requires ReadsCritiques(replies, passed, issues)
    ensures st.critiquePassed == passed(revision) && st.critiqueFeedback == issues(revision)
    ensures LoopRecords(old(st.agentCallLog), st.agentCallLog, 1, 0, 0)
  {
    AgentNamesDistinct();
    LogAgentCall(st, CritiqueAgentName, "revision_" + NatToString(revision + 1));
    CritiqueAgent.Run(st, replies.critique(revision));
  }

  /**
   * The state after `revision` failing critiques, each followed by its
   * revision, counted from the call log `log0` of the loop's start.
   */
  ghost predicate AfterRevisions(st: ArticleState, replies: Replies, passed: nat -> bool, hit: nat -> bool,
                                 log0: seq<CallRecord>, revision: nat)
    reads st
  {
    revision <= 3 && st.maxRevisions == 3 && st.revisionCount == revision
    && (forall k :: 0 <= k < revision ==> !passed(k))
    && st.article == (if revision == 0 then replies.draft else replies.revision(revision - 1))
    && st.additionalResearchCalls == CountBelow(hit, revision)
    && st.researchData == SequentialResearch(replies, CountBelow(hit, revision))
    && LoopRecords(log0, st.agentCallLog, revision, revision, CountBelow(hit, revision))
  }

  /**
   * The state when the loop ends: `n` revisions were made, `n` being the
   * first passing critique or 3, and the last critique read is the `n`-th.
   */
  ghost predicate LoopEnded(st: ArticleState, replies: Replies, passed: nat -> bool, issues: nat -> seq<string>,
                            hit: nat -> bool, log0: seq<CallRecord>)
    reads st
  {
    var n := FirstPass(passed, 0, 3);
    Revised(st, replies, passed, issues, hit)
    && LoopRecords(log0, st.agentCallLog, n + 1, n, CountBelow(hit, n))
  }

  /**
   * The fields the loop leaves behind: `n` revisions, `n` being the first
   * passing critique or 3, the `n`-th critique's verdict and issues, and the
   * research extended by the additional research of the revisions made.
   */
  ghost predicate Revised(st: ArticleState, replies: Replies, passed: nat -> bool, issues: nat -> seq<string>,
                          hit: nat -> bool)
    reads st
  {
    var n := FirstPass(passed, 0, 3);
    var h := CountBelow(hit, n);
    st.revisionCount == n
    && st.article == (if n == 0 then replies.draft else replies.revision(n - 1))
    && st.critiquePassed == passed(n) && st.critiqueFeedback == issues(n)
    && st.additionalResearchCalls == h && st.researchData == SequentialResearch(replies, h)
  }

  /**
   * The branch of the loop body after a failing critique with revisions
   * left: the revision completes the `revision + 1`-th round.
   */
  method ReviseAfterCritique(st: ArticleState, replies: Replies, ghost passed: nat -> bool, ghost issues: nat -> seq<string>,
                             ghost hit: nat -> bool, ghost log0: seq<CallRecord>, revision: nat)
    modifies st`article, st`revisionCount, st`additionalResearchCalls, st`agentCallLog, st`researchData
    requires ChecksIssues(issues, hit, InlineKeywords)
    requires revision < 3 && st.maxRevisions == 3 && st.revisionCount == revision
    requires (forall k :: 0 <= k < revision ==> !passed(k)) && !passed(revision)
    requires st.critiqueFeedback == issues(revision)
    requires st.additionalResearchCalls == CountBelow(hit, revision)
    requires st.researchData == SequentialResearch(replies, CountBelow(hit, revision))
    requires LoopRecords(log0, st.agentCallLog, revision + 1, revision, CountBelow(hit, revision))
    ensures AfterRevisions(st, replies, passed, hit, log0, revision + 1)
  {
    ghost var logCritiqued := st.agentCallLog;
    ReviseOnce(st, replies, issues, hit, revision);
    LoopRecordsCompose(log0, logCritiqued, st.agentCallLog, revision + 1, revision, CountBelow(hit, revision),
                       0, 1, if hit(revision) then 1 else 0);
    CountBelowStep(hit, revision);
    FailuresExtend(passed, revision);
  }

  /**
   * One pass of the loop body at `revision`: the critique, then the end of
   * the loop on a pass or with no revision left, and otherwise one revision.
   */
  method LoopRound(st: ArticleState, replies: Replies, ghost passed: nat -> bool, ghost issues: nat -> seq<string>,
                   ghost hit: nat -> bool, ghost log0: seq<CallRecord>, revision: nat)
    returns (done: bool)
    modifies st`critiquePassed, st`critiqueFeedback, st`article, st`revisionCount
    modifies st`additionalResearchCalls, st`agentCallLog, st`researchData
    requires ReadsCritiques(replies, passed, issues) && ChecksIssues(issues, hit, InlineKeywords)
    requires AfterRevisions(st, replies, passed, hit, log0, revision)
    ensures done <==> passed(revision) || revision == 3
    ensures done ==> LoopEnded(st, replies, passed, issues, hit, log0)
    ensures !done ==> AfterRevisions(st, replies, passed, hit, log0, revision + 1)
  {
    ghost var logBefore := st.agentCallLog;
    CritiqueRound(st, replies, passed, issues, revision);
    LoopRecordsCompose(log0, logBefore, st.agentCallLog, revision, revision, CountBelow(hit, revision), 1, 0, 0);
    if st.critiquePassed {
      FirstPassUnique(passed, 3, revision);
      done := true;
    } else if revision < st.maxRevisions {
      ReviseAfterCritique(st, replies, passed, issues, hit, log0, revision);
      done := false;
    } else {
      FirstPassUnique(passed, 3, revision);
      done := true;
    }
  }

  /**
   * The critique and revision loop of `generate_article`, for revision 0 to
   * `max_revisions` (3, as the research agent set it): a passing critique
   * ends it, a failing one is revised while revisions remain, after
   * additional research when its feedback names one of the 20 phrases.
   * `passed`, `issues` and `hit` are the verdicts, issues and research checks
   * of the critique replies, by revision count.
   */
  method ReviseLoop(st: ArticleState, replies: Replies,
                    ghost passed: nat -> bool, ghost issues: nat -> seq<string>, ghost hit: nat -> bool)
    modifies st`critiquePassed, st`critiqueFeedback, st`article, st`revisionCount
    modifies st`additionalResearchCalls, st`agentCallLog, st`researchData
    requires ReadsCritiques(replies, passed, issues) && ChecksIssues(issues, hit, InlineKeywords)
    requires st.maxRevisions == 3 && st.revisionCount == 0 && st.article == replies.draft
    requires st.additionalResearchCalls == 0 && st.researchData == replies.research
    ensures LoopEnded(st, replies, passed, issues, hit, old(st.agentCallLog))
  {
    var maxRevisions := st.maxRevisions;
    ghost var log0 := st.agentCallLog;
    for revision := 0 to maxRevisions + 1
      invariant maxRevisions == 3 && revision <= maxRevisions
      invariant AfterRevisions(st, replies, passed, hit, log0, revision)
    {
      var done := LoopRound(st, replies, passed, issues, hit, log0, revision);
      if done {
        break;
      }
    }
  }

  /**
   * The records the sequential workflow logs for each agent after `n`
   * revisions and `h` additional research calls: one initial research call
   * plus the additional ones, one draft, `n + 1` critiques, `n` revisions,
   * and one image, post and SEO call each.
   */
  function SequentialCalls(name: string, n: nat, h: nat): nat
  {
    if name == ResearchAgentName then 1 + h
    else if name == DraftAgentName || name == ImageAgentName || name == PostAgentName || name == SeoAgentName then 1
    else LoopShare(name, n + 1, n, h)
  }

  /** The `export_paths` entry: absent without export, the package paths, or `None` when the export raised. */
  function ExportOutcome(topic: string, exportFiles: bool, exportSucceeds: bool,
                         outputDirectory: string, timestamp: string): (r: ExportStatus)
    ensures r == NotRequested <==> !exportFiles
    ensures r == ExportFailed <==> exportFiles && !exportSucceeds
    ensures r.Exported? ==> r.paths == CreateArticlePackage(topic, outputDirectory, timestamp)
  {
    if !exportFiles then NotRequested
    else if exportSucceeds then Exported(CreateArticlePackage(topic, outputDirectory, timestamp))
    else ExportFailed
  }

  /** A logged stage adds one record, for `name`, and keeps the ids sequential. */
  ghost predicate LoggedOnce(before: seq<CallRecord>, after: seq<CallRecord>, agentName: string)
  {
    (IdsSequential(before) ==> IdsSequential(after))
    && |after| == |before| + 1
    && forall name :: (CountAgent(after, name) == CountAgent(before, name) + (if name == agentName then 1 else 0))
  }

  /** The image stage of step 4: logged, then the image agent runs. */
  method ImageStage(st: ArticleState, replies: Replies)
    modifies st`agentCallLog, st`imagePrompt, st`imageUrl
    ensures st.imagePrompt == replies.imagePrompt && st.imageUrl == ImageAgent.ImageUrl(replies.image)
    ensures LoggedOnce(old(st.agentCallLog), st.agentCallLog, ImageAgentName)
  {
    LogAgentCall(st, ImageAgentName, "final");
    var _ := ImageAgent.Run(st, replies.imagePrompt, replies.image);
  }

  /** The post stage of step 4: logged, then the post agent runs. */
  method PostStage(st: ArticleState, replies: Replies)
    modifies st`agentCallLog, st`linkedinPost
    ensures st.linkedinPost == Strip(replies.post)
    ensures LoggedOnce(old(st.agentCallLog), st.agentCallLog, PostAgentName)
  {
    LogAgentCall(st, PostAgentName, "final");
    var _ := PostAgent.Run(st, replies.post);
  }

  /** The SEO stage of step 4: logged, then the SEO agent runs. */
  method SeoStage(st: ArticleState, replies: Replies)
    modifies st`agentCallLog, st`hashtags, st`seoKeywords
    ensures st.hashtags == SeoAgent.MarkerValues(replies.seo, SeoAgent.HashtagsMarker)
    ensures st.seoKeywords == SeoAgent.MarkerValues(replies.seo, SeoAgent.KeywordsMarker)
    ensures LoggedOnce(old(st.agentCallLog), st.agentCallLog, SeoAgentName)
  {
    LogAgentCall(st, SeoAgentName, "final");
    var _ := SeoAgent.Run(st, replies.seo);
  }

  /** The call log after the initial research and the draft: one record for each. */
  ghost predicate StartLogged(log: seq<CallRecord>)
  {
    IdsSequential(log) && |log| == 2
    && forall name :: (CountAgent(log, name) == if name == ResearchAgentName || name == DraftAgentName then 1 else 0)
  }

  /**
   * Steps 1 and 2 of `generate_article` on a fresh state: the initial
   * research, which forces `max_revisions` to 3, and the first draft.
   */
  method ResearchAndDraft(st: ArticleState, replies: Replies)
    modifies st`agentCallLog, st`researchData, st`revisionCount, st`maxRevisions, st`researchCalls, st`article
    requires st.agentCallLog == [] && st.researchCalls == 0
    ensures st.researchData == replies.research && st.article == replies.draft
    ensures st.revisionCount == 0 && st.maxRevisions == 3 && st.researchCalls == 1
    ensures StartLogged(st.agentCallLog)
  {
    AgentNamesDistinct();
    LogAgentCall(st, ResearchAgentName, "initial");
    ResearchAgent.Run(st, replies.research);
    LogAgentCall(st, DraftAgentName, "initial");
    var _ := DraftAgent.Run(st, replies.draft);
  }

  /** The records step 4 adds: one image, one post and one SEO call. */
  ghost predicate SupportLogged(before: seq<CallRecord>, after: seq<CallRecord>)
  {
    (IdsSequential(before) ==> IdsSequential(after))
    && |after| == |before| + 3
    && forall name :: (CountAgent(after, name) == CountAgent(before, name)
         + (if name == ImageAgentName || name == PostAgentName || name == SeoAgentName then 1 else 0))
  }

  /** The fields step 4 writes, as the image, post and SEO agents read their replies. */
  ghost predicate Supported(st: ArticleState, replies: Replies)
    reads st
  {
    st.imagePrompt == replies.imagePrompt && st.imageUrl == ImageAgent.ImageUrl(replies.image)
    && st.linkedinPost == Strip(replies.post)
    && st.hashtags == SeoAgent.MarkerValues(replies.seo, SeoAgent.HashtagsMarker)
    && st.seoKeywords == SeoAgent.MarkerValues(replies.seo, SeoAgent.KeywordsMarker)
  }

  /** Step 4 of `generate_article`: the image, post and SEO stages in this order. */
  method SupportingContent(st: ArticleState, replies: Replies)
    modifies st`agentCallLog, st`imagePrompt, st`imageUrl, st`linkedinPost, st`hashtags, st`seoKeywords
    ensures Supported(st, replies)
    ensures SupportLogged(old(st.agentCallLog), st.agentCallLog)
  {
    AgentNamesDistinct();
    ImageStage(st, replies);
    PostStage(st, replies);
    SeoStage(st, replies);
  }

  /** The call log of the whole sequential workflow, from the logs of its three parts. */
  lemma SequentialTally(l0: seq<CallRecord>, l1: seq<CallRecord>, l2: seq<CallRecord>, n: nat, h: nat)
    requires StartLogged(l0) && LoopRecords(l0, l1, n + 1, n, h) && SupportLogged(l1, l2)
    ensures IdsSequential(l2) && |l2| == 2 * n + h + 6
    ensures forall name :: CountAgent(l2, name) == SequentialCalls(name, n, h)
  {
    AgentNamesDistinct();
    forall name
      ensures CountAgent(l2, name) == SequentialCalls(name, n, h)
    {
    }
  }

  /**
   * Steps 1 to 3 of `generate_article` on a fresh state: research, draft and
   * the loop. `log0` is the call log when the loop starts.
   */
  method DraftAndRevise(st: ArticleState, replies: Replies,
                        ghost passed: nat -> bool, ghost issues: nat -> seq<string>, ghost hit: nat -> bool)
    returns (ghost log0: seq<CallRecord>)
    modifies st
    requires ReadsCritiques(replies, passed, issues) && ChecksIssues(issues, hit, InlineKeywords)
    requires st.agentCallLog == [] && st.researchCalls == 0 && st.additionalResearchCalls == 0
    ensures Revised(st, replies, passed, issues, hit) && st.researchCalls == 1
    ensures var n := FirstPass(passed, 0, 3);
            StartLogged(log0) && LoopRecords(log0, st.agentCallLog, n + 1, n, CountBelow(hit, n))
  {
    ResearchAndDraft(st, replies);
    log0 := st.agentCallLog;
    ReviseLoop(st, replies, passed, issues, hit);
  }

  /** The call log of the sequential workflow after `n` revisions and `h` additional research calls. */
  ghost predicate SequentialLog(log: seq<CallRecord>, n: nat, h: nat)
  {
    IdsSequential(log) && |log| == 2 * n + h + 6
    && forall name :: CountAgent(log, name) == SequentialCalls(name, n, h)
  }

  /**
   * Step 4 of `generate_article` after the loop, which it leaves as it was,
   * and the call log it completes.
   */
  method SupportAndTally(st: ArticleState, replies: Replies, ghost passed: nat -> bool, ghost issues: nat -> seq<string>,
                         ghost hit: nat -> bool, ghost log0: seq<CallRecord>)
    modifies st`agentCallLog, st`imagePrompt, st`imageUrl, st`linkedinPost, st`hashtags, st`seoKeywords
    requires Revised(st, replies, passed, issues, hit)
    requires var n := FirstPass(passed, 0, 3);
             StartLogged(log0) && LoopRecords(log0, st.agentCallLog, n + 1, n, CountBelow(hit, n))
    ensures Revised(st, replies, passed, issues, hit) && Supported(st, replies)
    ensures SequentialLog(st.agentCallLog, FirstPass(passed, 0, 3), CountBelow(hit, FirstPass(passed, 0, 3)))
  {
    ghost var n := FirstPass(passed, 0, 3);
    ghost var log1 := st.agentCallLog;
    SupportingContent(st, replies);
    SequentialTally(log0, log1, st.agentCallLog, n, CountBelow(hit, n));
  }

  /**
   * Steps 1 to 4 of `generate_article` on a fresh state, for critique replies
   * whose verdicts, issues and research checks are `passed`, `issues` and `hit`.
   */
  method RunStages(st: ArticleState, replies: Replies,
                   ghost passed: nat -> bool, ghost issues: nat -> seq<string>, ghost hit: nat -> bool)
    modifies st
    requires ReadsCritiques(replies, passed, issues) && ChecksIssues(issues, hit, InlineKeywords)
    requires st.agentCallLog == [] && st.researchCalls == 0 && st.additionalResearchCalls == 0
    ensures Revised(st, replies, passed, issues, hit) && st.researchCalls == 1
    ensures SequentialLog(st.agentCallLog, FirstPass(passed, 0, 3), CountBelow(hit, FirstPass(passed, 0, 3)))
    ensures Supported(st, replies)
  {
    ghost var log0 := DraftAndRevise(st, replies, passed, issues, hit);
    SupportAndTally(st, replies, passed, issues, hit, log0);
  }

  /**
   * `generate_article`: research, draft, the critique and revision loop, the
   * image, post and SEO stages, then the final output and the optional
   * export. `configuredMax` is the configured `max_revisions`; the research
   * stage overwrites it with 3 before the loop reads it, so the outcome does
   * not depend on it. `exportSucceeds` tells whether writing the package
   * succeeds; `timestamp` is the clock reading that names it.
   */
  method GenerateArticle(topic: string, configuredMax: int, replies: Replies, exportFiles: bool,
                         exportSucceeds: bool, outputDirectory: string, timestamp: string)
    returns (out: FinalOutput)
    ensures var n := FirstPass(PassedAt(replies), 0, 3);
            var h := CountBelow(InlineHitAt(replies), n);
            out.revisionsMade == n && out.researchCalls == 1 && out.additionalResearchCalls == h
            && out.article == (if n == 0 then replies.draft else replies.revision(n - 1))
            && out.critiqueFeedback == IssuesAt(replies)(n)
            && out.researchData == SequentialResearch(replies, h)
            && out.agentCallLog.Records? && IdsSequential(out.agentCallLog.records)
            && |out.agentCallLog.records| == 2 * n + h + 6
            && forall name :: CountAgent(out.agentCallLog.records, name) == SequentialCalls(name, n, h)
    ensures out.topic == topic && out.imagePrompt == replies.imagePrompt
    ensures out.imageUrl == ImageAgent.ImageUrl(replies.image) && out.linkedinPost == Strip(replies.post)
    ensures out.hashtags == SeoAgent.MarkerValues(replies.seo, SeoAgent.HashtagsMarker)
    ensures out.seoKeywords == SeoAgent.MarkerValues(replies.seo, SeoAgent.KeywordsMarker)
    ensures out.exportPaths == ExportOutcome(topic, exportFiles, exportSucceeds, outputDirectory, timestamp)
  {
    var st := new ArticleState(topic, configuredMax);
    SequentialChecks(replies);
    RunStages(st, replies, PassedAt(replies), IssuesAt(replies), InlineHitAt(replies));
    out := st.Output();
    out := out.(exportPaths := ExportOutcome(out.topic, exportFiles, exportSucceeds, outputDirectory, timestamp));
  }
}
