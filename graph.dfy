/**
 * The graph form of the workflow: the node and edge table of the state
 * graph, whose one conditional edge leaves the critique node by the
 * router's decision, and the run the graph makes for given replies. Only
 * the additional research node writes to the call log; the agent nodes do
 * not.
 */
module Graph {
  import opened Outcomes
  import opened Text
  import opened CallLog
  import opened ArticleStates
  import opened Router
  import Workflow
  import CritiqueAgent
  import ModeratorAgent
  import ResearchAgent
  import ImageAgent
  import SeoAgent

  /** The nodes of the graph, and the end marker. */
  datatype Node = Research | Draft | Critique | Moderator | AdditionalResearchNode
                | Image | Post | Seo | FinalAssembly | End

  /**
   * The name each node is registered under; the end marker's name is the
   * graph library's `END`, which no registered node uses.
   */
  function Name(n: Node): (r: string)
    ensures r != [] && (r == "__end__" <==> n == End)
  {
    match n
    case Research => "research"
    case Draft => "draft"
    case Critique => "critique"
    case Moderator => "moderator"
    case AdditionalResearchNode => "additional_research"
    case Image => "image"
    case Post => "post"
    case Seo => "seo"
    case FinalAssembly => "final_assembly"
    case End => "__end__"
  }

  /** Different nodes have different names. */
  lemma NamesDistinct(m: Node, n: Node)
    ensures Name(m) == Name(n) <==> m == n
  {
  }

  /**
   * The edge table: the node that follows `n` when the router answers
   * `route`. Only the critique node's successor depends on the answer; the
   * research node is only the entry point and is never entered again.
   */
  function Next(n: Node, route: Route): (r: Node)
    requires n != End
    ensures r != Research
  {
    match n
    case Research => Draft
    case Draft => Critique
    case Critique =>
      (match route
       case Revise => Moderator
       case AdditionalResearch => AdditionalResearchNode
       case Generate => Image)
    case AdditionalResearchNode => Moderator
    case Moderator => Critique
    case Image => Post
    case Post => Seo
    case Seo => FinalAssembly
    case FinalAssembly => End
  }

  /**
   * The edge table read backwards: the critique is entered from the draft
   * and the moderator; the moderator from the additional research node and
   * from the critique on a revision; the additional research node and the
   * image node only from the critique, on their own answers of the router;
   * the end only from the final assembly.
   */
  lemma EnteredFrom(n: Node, route: Route)
    requires n != End
    ensures Next(n, route) == Critique <==> n == Draft || n == Moderator
    ensures Next(n, route) == Moderator <==> n == AdditionalResearchNode || (n == Critique && route == Revise)
    ensures Next(n, route) == AdditionalResearchNode <==> n == Critique && route == AdditionalResearch
    ensures Next(n, route) == Image <==> n == Critique && route == Generate
    ensures Next(n, route) == End <==> n == FinalAssembly
  {
  }

  /** The three answers of the router lead from the critique node to three different nodes. */
  lemma CritiqueRoutesDistinct(r1: Route, r2: Route)
    ensures Next(Critique, r1) == Next(Critique, r2) <==> r1 == r2
  {
  }

  /** Every node other than the critique node has a single successor. */
  lemma UnconditionalEdges(n: Node, r1: Route, r2: Route)
    requires n != End && n != Critique
    ensures Next(n, r1) == Next(n, r2)
  {
  }

  /** `b` follows `a` for some answer of the router. */
  predicate Edge(a: Node, b: Node)
  {
    a != End && (b == Next(a, Generate) || b == Next(a, Revise) || b == Next(a, AdditionalResearch))
  }

  /** Each node of `path` is followed by one of its successors. */
  predicate IsWalk(path: seq<Node>)
  {
    forall i :: 0 <= i < |path| - 1 ==> Edge(path[i], path[i + 1])
  }

  /** Two walks joined by an edge form a walk. */
  lemma WalkConcat(a: seq<Node>, b: seq<Node>)
    requires a != [] && b != [] && IsWalk(a) && IsWalk(b)
    requires Edge(a[|a| - 1], b[0])
    ensures IsWalk(a + b)
  {
    var p := a + b;
    forall i | 0 <= i < |p| - 1
      ensures Edge(p[i], p[i + 1])
    {
      if i < |a| - 1 {
        assert p[i] == a[i] && p[i + 1] == a[i + 1];
      } else if i == |a| - 1 {
        assert p[i] == a[|a| - 1] && p[i + 1] == b[0];
      } else {
        assert p[i] == b[i - |a|] && p[i + 1] == b[i - |a| + 1];
      }
    }
  }

  /**
   * The values the critique and revision cycle carries from one node to the
   * next: the revision count, the additional research count, the research
   * text, the call log, the article and the last critique's verdict and
   * issues.
   */
  datatype Progress = Progress(revision: nat, additionalCalls: nat, researchData: string, log: seq<CallRecord>,
                               article: string, passed: bool, feedback: seq<string>)

  /** The carried values as they stand in a state. */
  function ProgressOf(st: ArticleState): Progress
    reads st
    requires st.revisionCount >= 0 && st.additionalResearchCalls >= 0
  {
    Progress(st.revisionCount, st.additionalResearchCalls, st.researchData, st.agentCallLog,
             st.article, st.critiquePassed, st.critiqueFeedback)
  }

  /**
   * The critique node on the carried values: the verdict and issues are
   * those the critique parser reads from the reply to the critique made at
   * the current revision count; nothing else changes.
   */
  function Critiqued(replies: Workflow.Replies, p: Progress): (q: Progress)
    ensures q.passed == Workflow.PassedAt(replies)(p.revision) && q.feedback == Workflow.IssuesAt(replies)(p.revision)
    ensures q == p.(passed := q.passed, feedback := q.feedback)
  {
    var verdict := CritiqueAgent.ParseCritique(replies.critique(p.revision));
    p.(passed := verdict.passed, feedback := verdict.issues)
  }

  /**
   * What the router sees on the carried values: the research node has set
   * the limit to 3 and made one research call.
   */
  function ViewOf(p: Progress): View
  {
    View(p.passed, p.revision, 3, p.feedback, 1, p.additionalCalls, |p.researchData|)
  }

  /**
   * The additional research node on the carried values: the call is counted,
   * logged under the research agent with the new count, and its reply
   * extends the research.
   */
  function ResearchMore(replies: Workflow.Replies, p: Progress): (q: Progress)
    ensures q.revision == p.revision && q.additionalCalls == p.additionalCalls + 1
    ensures q.researchData == Workflow.WithAdditional(p.researchData, replies.additional(q.additionalCalls))
    ensures q.log == Append(p.log, Workflow.ResearchAgentName, "additional_" + IntToString(q.additionalCalls),
                            p.revision, 1, q.additionalCalls)
    ensures q.article == p.article && q.passed == p.passed && q.feedback == p.feedback
  {
    var calls := p.additionalCalls + 1;
    p.(additionalCalls := calls, researchData := Workflow.WithAdditional(p.researchData, replies.additional(calls)),
       log := Append(p.log, Workflow.ResearchAgentName, "additional_" + IntToString(calls), p.revision, 1, calls))
  }

  /**
   * `_additional_research_node` run on the state: its effect on the carried
   * values is `ResearchMore`, with the reply to the new call.
   */
  method AdditionalResearchNodeStep(st: ArticleState, replies: Workflow.Replies)
    returns (prompt: ResearchAgent.ResearchPrompt)
    modifies st`additionalResearchCalls, st`agentCallLog, st`researchData
    requires st.revisionCount >= 0 && st.additionalResearchCalls >= 0 && st.researchCalls == 1
    ensures st.additionalResearchCalls >= 0
    ensures ProgressOf(st) == ResearchMore(replies, old(ProgressOf(st)))
  {
    prompt := Workflow.AdditionalResearchStep(st, replies.additional(st.additionalResearchCalls + 1));
  }

  /** The critique node run on the state: its effect on the carried values is `Critiqued`. */
  method CritiqueNodeStep(st: ArticleState, replies: Workflow.Replies)
    modifies st`critiquePassed, st`critiqueFeedback
    requires st.revisionCount >= 0 && st.additionalResearchCalls >= 0
    ensures ProgressOf(st) == Critiqued(replies, old(ProgressOf(st)))
  {
    CritiqueAgent.Run(st, replies.critique(st.revisionCount));
  }

  /**
   * The moderator node run on the state: the reply to the revision made at
   * the current count replaces the article and one more revision is counted,
   * as `Advance` does after the router's answer.
   */
  method ModeratorNodeStep(st: ArticleState, replies: Workflow.Replies) returns (prompt: ModeratorAgent.RevisionPrompt)
    modifies st`article, st`revisionCount
    requires st.revisionCount >= 0 && st.additionalResearchCalls >= 0
    ensures st.revisionCount >= 0
    ensures ProgressOf(st) == old(ProgressOf(st)).(revision := old(st.revisionCount) + 1,
                                                    article := replies.revision(old(st.revisionCount)))
  {
    prompt := ModeratorAgent.Run(st, replies.revision(st.revisionCount));
  }

  /** `_final_assembly_node`: the final output is built from the state. */
  method FinalAssemblyNode(st: ArticleState)
    modifies st`finalOutput
    ensures st.finalOutput == Some(st.Output())
  {
    st.finalOutput := Some(st.Output());
  }

  /** The nodes a run visits, and the values carried out of its last critique. */
  datatype Run = Run(path: seq<Node>, last: Progress)

  /**
   * The graph from the critique made at `p.revision` until the router lets
   * the article through: the critique node reads its reply, then a revision
   * goes through the moderator, additional research through the research
   * node and then the moderator, and each returns to the critique.
   */
  function Cycle(replies: Workflow.Replies, p: Progress): (r: Run)
    requires p.revision <= 3
    ensures p.revision <= r.last.revision <= 3
    decreases 3 - p.revision
  {
    var c := Critiqued(replies, p);
    var route := Decide(ViewOf(c));
    if route == Generate then Run([Critique], c)
    else
      var rest := Cycle(replies, Advance(replies, c, route));
      Run(Detour(route) + rest.path, rest.last)
  }

  /** The nodes between a critique and the next one when the router does not let the article through. */
  function Detour(route: Route): seq<Node>
  {
    if route == AdditionalResearch then [Critique, AdditionalResearchNode, Moderator] else [Critique, Moderator]
  }

  /**
   * A detour is a walk from the critique to the moderator, through the
   * research node exactly when the router asked for additional research.
   */
  lemma DetourWalk(route: Route)
    requires route != Generate
    ensures var d := Detour(route);
            IsWalk(d) && d[0] == Critique && d[|d| - 1] == Moderator && Edge(d[|d| - 1], Critique)
            && multiset(d)[Critique] == 1 && multiset(d)[Moderator] == 1
            && multiset(d)[AdditionalResearchNode] == (if route == AdditionalResearch then 1 else 0)
  {
    var d := Detour(route);
    assert Edge(Critique, Next(Critique, route));
    assert IsWalk(d) by {
      forall i | 0 <= i < |d| - 1 ensures Edge(d[i], d[i + 1]) {
        if route == AdditionalResearch && i == 1 {
          assert d[i] == AdditionalResearchNode;
        }
      }
    }
  }

  /**
   * The values carried into the next critique: the research node's effect
   * when it runs, then the moderator's, whose reply to the revision made at
   * the current count replaces the article and which counts one more revision.
   */
  function Advance(replies: Workflow.Replies, p: Progress, route: Route): Progress
  {
    (if route == AdditionalResearch then ResearchMore(replies, p) else p)
      .(revision := p.revision + 1, article := replies.revision(p.revision))
  }

  /**
   * The cycle is a walk from a critique to a critique, with one critique more
   * than revisions, one moderator per revision and one research node per
   * additional research call.
   */
  lemma {:induction false} CyclePath(replies: Workflow.Replies, p: Progress)
    requires p.revision <= 3
    ensures var r := Cycle(replies, p);
            r.path != [] && r.path[0] == Critique && r.path[|r.path| - 1] == Critique && IsWalk(r.path)
            && multiset(r.path)[Critique] == r.last.revision - p.revision + 1
            && multiset(r.path)[Moderator] == r.last.revision - p.revision
            && multiset(r.path)[AdditionalResearchNode] == r.last.additionalCalls - p.additionalCalls
    decreases 3 - p.revision
  {
    var c := Critiqued(replies, p);
    var route := Decide(ViewOf(c));
    if route != Generate {
      var q := Advance(replies, c, route);
      var rest := Cycle(replies, q);
      CyclePath(replies, q);
      var r := Cycle(replies, p);
      assert r.path == Detour(route) + rest.path && r.last == rest.last;
      DetourWalk(route);
      WalkConcat(Detour(route), rest.path);
      assert multiset(r.path) == multiset(Detour(route)) + multiset(rest.path);
      assert q.revision == p.revision + 1;
      assert q.additionalCalls == p.additionalCalls + (if route == AdditionalResearch then 1 else 0);
    }
  }

  /**
   * `later` keeps the log of `p` and only adds additional research records
   * of the research agent, one per call, keeping the ids sequential; the
   * research of `p` is kept as a prefix.
   */
  ghost predicate LogExtends(p: Progress, later: Progress)
  {
    p.additionalCalls <= later.additionalCalls
    && |later.log| == |p.log| + (later.additionalCalls - p.additionalCalls)
    && later.log[..|p.log|] == p.log
    && (forall k :: |p.log| <= k < |later.log| ==> later.log[k].agentName == Workflow.ResearchAgentName)
    && (IdsSequential(p.log) ==> IdsSequential(later.log))
    && |p.researchData| <= |later.researchData| && later.researchData[..|p.researchData|] == p.researchData
  }

  /** What extends the values after one more research call extends the values before it. */
  lemma ResearchMoreExtends(replies: Workflow.Replies, p: Progress, later: Progress)
    requires LogExtends(ResearchMore(replies, p), later)
    ensures LogExtends(p, later)
  {
    var m := ResearchMore(replies, p);
    assert later.log[..|p.log|] == p.log by {
      assert later.log[..|m.log|][..|p.log|] == p.log;
    }
    assert later.researchData[..|p.researchData|] == p.researchData by {
      assert later.researchData[..|m.researchData|][..|p.researchData|] == p.researchData;
    }
    forall k | |p.log| <= k < |later.log|
      ensures later.log[k].agentName == Workflow.ResearchAgentName
    {
      if k == |p.log| {
        assert later.log[k] == later.log[..|m.log|][k];
      }
    }
  }

  /** The cycle's log and research extend those it starts from. */
  lemma {:induction false} CycleLog(replies: Workflow.Replies, p: Progress)
    requires p.revision <= 3
    ensures LogExtends(p, Cycle(replies, p).last)
    decreases 3 - p.revision
  {
    var c := Critiqued(replies, p);
    var route := Decide(ViewOf(c));
    if route != Generate {
      var q := Advance(replies, c, route);
      CycleLog(replies, q);
      var last := Cycle(replies, q).last;
      assert Cycle(replies, p).last == last;
      if route == AdditionalResearch {
        var m := ResearchMore(replies, c);
        assert q.log == m.log && q.researchData == m.researchData && q.additionalCalls == m.additionalCalls;
        ResearchMoreExtends(replies, c, last);
      } else {
        assert q.log == p.log && q.researchData == p.researchData && q.additionalCalls == p.additionalCalls;
      }
    }
  }

  /**
   * The cycle stops at the first critique, from `p.revision` on, that passes,
   * or after the third revision: the same number of revisions as the
   * sequential loop.
   */
  lemma {:induction false} CycleRevisions(replies: Workflow.Replies, p: Progress)
    requires p.revision <= 3
    ensures Cycle(replies, p).last.revision == Workflow.FirstPass(Workflow.PassedAt(replies), p.revision, 3)
    ensures Decide(ViewOf(Cycle(replies, p).last)) == Generate
    decreases 3 - p.revision
  {
    var c := Critiqued(replies, p);
    var route := Decide(ViewOf(c));
    if route != Generate {
      var q := Advance(replies, c, route);
      CycleRevisions(replies, q);
      assert Cycle(replies, p).last == Cycle(replies, q).last && q.revision == p.revision + 1;
    }
  }

  /**
   * `last` ends a cycle started at `p` as the nodes make it: the article is
   * the one of `p` when no revision was made, otherwise the moderator's reply
   * to the last revision; the verdict and issues are those of the critique
   * made at the final revision count.
   */
  ghost predicate EndsAs(replies: Workflow.Replies, p: Progress, last: Progress)
  {
    last.article == (if last.revision <= p.revision then p.article else replies.revision(last.revision - 1))
    && last.passed == Workflow.PassedAt(replies)(last.revision)
    && last.feedback == Workflow.IssuesAt(replies)(last.revision)
  }

  /** A cycle ending after a revision from `p` ends as a cycle from `p` does. */
  lemma OutcomeStep(replies: Workflow.Replies, p: Progress, q: Progress, last: Progress)
    requires q.revision == p.revision + 1 && q.article == replies.revision(p.revision) && q.revision <= last.revision
    requires EndsAs(replies, q, last)
    ensures EndsAs(replies, p, last)
  {
  }

  /**
   * The article, verdict and issues the cycle ends with: the article is the
   * one it starts with when no revision was made, otherwise the moderator's
   * reply to the last revision; the verdict and issues are those of the
   * critique made at the final revision count.
   */
  lemma {:induction false} CycleOutcome(replies: Workflow.Replies, p: Progress)
    requires p.revision <= 3
    ensures EndsAs(replies, p, Cycle(replies, p).last)
    decreases 3 - p.revision
  {
    var c := Critiqued(replies, p);
    var route := Decide(ViewOf(c));
    if route != Generate {
      var q := Advance(replies, c, route);
      CycleOutcome(replies, q);
      var last := Cycle(replies, q).last;
      assert Cycle(replies, p).last == last;
      OutcomeStep(replies, p, q, last);
    }
  }

  /**
   * The values the graph carries into its first critique: the research
   * reply, the draft reply as the article, no revision, an empty log, and
   * the initial verdict (not passed, no issues).
   */
  function Start(replies: Workflow.Replies): Progress
  {
    Progress(0, 0, replies.research, [], replies.draft, false, [])
  }

  /** The research and draft nodes, then `cycle`, then the supporting stages and the end. */
  function Framed(cycle: seq<Node>): seq<Node>
  {
    [Research, Draft] + cycle + [Image, Post, Seo, FinalAssembly, End]
  }

  /** Every node the graph visits for `replies`, from the research node to the end. */
  function GraphPath(replies: Workflow.Replies): seq<Node>
  {
    Framed(Cycle(replies, Start(replies)).path)
  }

  /**
   * The graph's run follows the edge table from the research node to the
   * end; the critique runs at most four times and the moderator at most
   * three, always one time fewer than the critique, and the revisions made
   * are those of the sequential loop.
   */
  lemma GraphPathValid(replies: Workflow.Replies)
    ensures var path := GraphPath(replies);
            var run := Cycle(replies, Start(replies));
            path[0] == Research && path[|path| - 1] == End && IsWalk(path)
            && multiset(path)[Critique] == run.last.revision + 1 <= 4
            && multiset(path)[Moderator] == run.last.revision <= 3
            && multiset(path)[AdditionalResearchNode] == run.last.additionalCalls
            && run.last.revision == Workflow.FirstPass(Workflow.PassedAt(replies), 0, 3)
  {
    var start := Start(replies);
    var run := Cycle(replies, start);
    CyclePath(replies, start);
    CycleRevisions(replies, start);
    FramedRun(run.path, run.last.revision, run.last.additionalCalls);
    assert GraphPath(replies) == Framed(run.path);
  }

  /** The framed cycle of a run from the first critique is a walk from the research node to the end. */
  lemma FramedRun(cycle: seq<Node>, revisions: nat, calls: nat)
    requires cycle != [] && cycle[0] == Critique && cycle[|cycle| - 1] == Critique && IsWalk(cycle)
    requires multiset(cycle)[Critique] == revisions + 1 && multiset(cycle)[Moderator] == revisions
    requires multiset(cycle)[AdditionalResearchNode] == calls && revisions <= 3
    ensures var path := Framed(cycle);
            path[0] == Research && path[|path| - 1] == End && IsWalk(path)
            && multiset(path)[Critique] == revisions + 1 <= 4
            && multiset(path)[Moderator] == revisions <= 3
            && multiset(path)[AdditionalResearchNode] == calls
  {
    FramedWalk(cycle);
  }

  /**
   * A walk from a critique to a critique, preceded by the research and draft
   * nodes and followed by the supporting stages, is a walk from the research
   * node to the end that visits the critique, moderator and research nodes
   * no more often than the inner walk.
   */
  lemma FramedWalk(cycle: seq<Node>)
    requires cycle != [] && cycle[0] == Critique && cycle[|cycle| - 1] == Critique && IsWalk(cycle)
    ensures var path := Framed(cycle);
            path[0] == Research && path[|path| - 1] == End && IsWalk(path)
            && multiset(path)[Critique] == multiset(cycle)[Critique]
            && multiset(path)[Moderator] == multiset(cycle)[Moderator]
            && multiset(path)[AdditionalResearchNode] == multiset(cycle)[AdditionalResearchNode]
  {
    var head: seq<Node> := [Research, Draft];
    var tail: seq<Node> := [Image, Post, Seo, FinalAssembly, End];
    assert IsWalk(head) by {
      forall i | 0 <= i < |head| - 1 ensures Edge(head[i], head[i + 1]) {
      }
    }
    assert IsWalk(tail) by {
      forall i | 0 <= i < |tail| - 1 ensures Edge(tail[i], tail[i + 1]) {
      }
    }
    WalkConcat(head, cycle);
    WalkConcat(head + cycle, tail);
    CountOutside(head, cycle, tail, Critique);
    CountOutside(head, cycle, tail, Moderator);
    CountOutside(head, cycle, tail, AdditionalResearchNode);
  }

  /** A node that occurs in neither end of a walk occurs as often in the walk as in its middle. */
  lemma CountOutside(head: seq<Node>, middle: seq<Node>, tail: seq<Node>, n: Node)
    requires n !in head && n !in tail
    ensures multiset(head + middle + tail)[n] == multiset(middle)[n]
  {
    assert multiset(head + middle + tail) == multiset(head) + multiset(middle) + multiset(tail);
  }

  /**
   * `generate_article_with_langgraph`: the final output of the graph's run
   * for `replies`, with the export outcome added when an export was
   * requested. The article, research, feedback and counters are those the
   * run carries out of its last critique; the supporting content comes from
   * the same stages as in the sequential workflow. The run makes the
   * sequential loop's number of revisions and ends with the draft or the
   * last revision; it ends before the third revision only on a passing
   * critique, whose issues are the feedback.
   */
  function GraphArticle(topic: string, replies: Workflow.Replies, exportFiles: bool, exportSucceeds: bool,
                        outputDirectory: string, timestamp: string): (out: FinalOutput)
    ensures var n := Workflow.FirstPass(Workflow.PassedAt(replies), 0, 3);
            out.revisionsMade == n
            && out.article == (if n == 0 then replies.draft else replies.revision(n - 1))
            && out.critiqueFeedback == Workflow.IssuesAt(replies)(n)
            && (n < 3 ==> Workflow.PassedAt(replies)(n))
  {
    var last := Cycle(replies, Start(replies)).last;
    CycleOutcome(replies, Start(replies));
    CycleRevisions(replies, Start(replies));
    FinalOutput(
      last.article,
      last.researchData,
      last.feedback,
      replies.imagePrompt,
      ImageAgent.ImageUrl(replies.image),
      Strip(replies.post),
      SeoAgent.MarkerValues(replies.seo, SeoAgent.HashtagsMarker),
      SeoAgent.MarkerValues(replies.seo, SeoAgent.KeywordsMarker),
      last.revision, 1, last.additionalCalls, Records(last.log), topic,
      Workflow.ExportOutcome(topic, exportFiles, exportSucceeds, outputDirectory, timestamp))
  }

  /**
   * The graph's final output: the revisions are counted as in the sequential
   * loop, and the call log holds only the additional research calls, one
   * record each, numbered from 1.
   */
  lemma GraphArticleLog(topic: string, replies: Workflow.Replies, exportFiles: bool, exportSucceeds: bool,
                        outputDirectory: string, timestamp: string)
    ensures var out := GraphArticle(topic, replies, exportFiles, exportSucceeds, outputDirectory, timestamp);
            out.revisionsMade == Workflow.FirstPass(Workflow.PassedAt(replies), 0, 3)
            && out.researchCalls == 1 && out.agentCallLog.Records?
            && |out.agentCallLog.records| == out.additionalResearchCalls
            && IdsSequential(out.agentCallLog.records)
            && (forall k :: 0 <= k < |out.agentCallLog.records| ==>
                  out.agentCallLog.records[k].agentName == Workflow.ResearchAgentName)
            && CountAgent(out.agentCallLog.records, Workflow.CritiqueAgentName) == 0
            && |replies.research| <= |out.researchData| && out.researchData[..|replies.research|] == replies.research
  {
    var last := Cycle(replies, Start(replies)).last;
    CycleLog(replies, Start(replies));
    CycleRevisions(replies, Start(replies));
    OnlyResearchRecords(last.log);
  }

  /** A log whose records all belong to the research agent has none of the critique agent. */
  lemma {:induction false} OnlyResearchRecords(log: seq<CallRecord>)
    requires forall k :: 0 <= k < |log| ==> log[k].agentName == Workflow.ResearchAgentName
    ensures CountAgent(log, Workflow.CritiqueAgentName) == 0
  {
    if log != [] {
      OnlyResearchRecords(log[..|log| - 1]);
    }
  }

  /**
   * When no critique raises a research phrase, the graph makes no additional
   * research call and carries the research unchanged, like the sequential
   * loop, whose phrases are a subset of the router's.
   */
  lemma {:induction false} CycleWithoutResearch(replies: Workflow.Replies, p: Progress)
    requires p.revision <= 3
    requires forall k: nat :: k <= 3 ==> !MentionsAny(Workflow.IssuesAt(replies)(k), RouterKeywords)
    ensures var last := Cycle(replies, p).last;
            last.additionalCalls == p.additionalCalls && last.researchData == p.researchData && last.log == p.log
    decreases 3 - p.revision
  {
    var c := Critiqued(replies, p);
    var route := Decide(ViewOf(c));
    if route != Generate {
      var q := Advance(replies, c, route);
      assert route == Revise;
      assert q.additionalCalls == p.additionalCalls && q.researchData == p.researchData && q.log == p.log;
      CycleWithoutResearch(replies, q);
      assert Cycle(replies, p).last == Cycle(replies, q).last;
    }
  }

  /**
   * Without research phrases in any critique, the graph's output agrees with
   * the sequential workflow's (as `Workflow.GenerateArticle` states it) on
   * the article, the research, the feedback and the counters; the graph's
   * call log is empty.
   */
  lemma GraphMatchesSequential(topic: string, replies: Workflow.Replies, exportFiles: bool, exportSucceeds: bool,
                               outputDirectory: string, timestamp: string)
    requires forall k: nat :: k <= 3 ==> !MentionsAny(Workflow.IssuesAt(replies)(k), RouterKeywords)
    ensures var out := GraphArticle(topic, replies, exportFiles, exportSucceeds, outputDirectory, timestamp);
            var n := Workflow.FirstPass(Workflow.PassedAt(replies), 0, 3);
            var h := Workflow.CountBelow(Workflow.InlineHitAt(replies), n);
            h == 0 && out.revisionsMade == n && out.additionalResearchCalls == h
            && out.article == (if n == 0 then replies.draft else replies.revision(n - 1))
            && out.researchData == Workflow.SequentialResearch(replies, h)
            && out.critiqueFeedback == Workflow.IssuesAt(replies)(n)
            && out.agentCallLog == Records([])
  {
    CycleWithoutResearch(replies, Start(replies));
    CycleRevisions(replies, Start(replies));
    var n := Workflow.FirstPass(Workflow.PassedAt(replies), 0, 3);
    NoInlineHits(replies, n);
  }

  /** Without router phrases, the sequential loop's check finds no research phrase either. */
  lemma {:induction false} NoInlineHits(replies: Workflow.Replies, n: nat)
    requires n <= 3
    requires forall k: nat :: k <= 3 ==> !MentionsAny(Workflow.IssuesAt(replies)(k), RouterKeywords)
    ensures Workflow.CountBelow(Workflow.InlineHitAt(replies), n) == 0
  {
    if n > 0 {
      NoInlineHits(replies, n - 1);
      InlineKeywordsAreRouterKeywords(Workflow.IssuesAt(replies)(n - 1));
    }
  }
}
