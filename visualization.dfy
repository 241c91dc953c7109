/**
 * The tallies and style lookups behind the workflow's graph pictures: the
 * number of calls made per graph node, read from the call log, and the
 * style of each node and edge.
 */
module Visualization {
  import opened Outcomes
  import opened Text
  import opened CallLog
  import Graph
  import Router

  /** The nodes that calls are tallied under. */
  const TalliedNodes: seq<string> :=
    ["research", "additional_research", "draft", "critique", "moderator", "image", "post", "seo"]

  /** The agent names, stripped of `Agent` and lowercased, that name a node of their own. */
  const AgentStems: set<string> := {"draft", "critique", "moderator", "image", "post", "seo"}

  /** The agent name with every `Agent` removed, lowercased. */
  function Stem(agentName: string): string
  {
    Lower(Replace(agentName, "Agent", ""))
  }

  /**
   * The node a log record is tallied under: research calls are split by
   * whether their call type mentions `additional`; other agents go to the
   * node named by their stem, and unknown agents are not tallied.
   */
  function NodeOf(record: CallRecord): (r: Option<string>)
    ensures r.Some? ==> r.value in TalliedNodes
    ensures r == Some("additional_research") <==> Stem(record.agentName) == "research" && Contains(record.callType, "additional")
    ensures r == Some("research") <==> Stem(record.agentName) == "research" && !Contains(record.callType, "additional")
    ensures r.None? <==> Stem(record.agentName) != "research" && Stem(record.agentName) !in AgentStems
  {
    var stem := Stem(record.agentName);
    if stem == "research" then
      if Contains(record.callType, "additional") then Some("additional_research") else Some("research")
    else if stem in AgentStems then Some(stem)
    else None
  }

  /** `m` with one more call counted under `key`. */
  function Bump(m: map<string, nat>, key: string): map<string, nat>
  {
    m[key := (if key in m then m[key] else 0) + 1]
  }

  /** The counts `_calculate_node_call_counts` builds from `log`. */
  function Tally(log: seq<CallRecord>): map<string, nat>
  {
    if log == [] then map[]
    else
      var counts := Tally(log[..|log| - 1]);
      match NodeOf(log[|log| - 1])
      case Some(key) => Bump(counts, key)
      case None => counts
  }

  /**
   * `_calculate_node_call_counts`: one pass over the log, adding one to the
   * node of each record an agent name is recognised for.
   */
  method NodeCallCounts(log: seq<CallRecord>) returns (counts: map<string, nat>)
    ensures counts == Tally(log)
  {
    counts := map[];
    for i := 0 to |log|
      invariant counts == Tally(log[..i])
    {
      assert log[..i + 1][..i] == log[..i];
      var call := log[i];
      var agentName := Lower(Replace(call.agentName, "Agent", ""));
      if agentName == "research" {
        if Contains(call.callType, "additional") {
          counts := Bump(counts, "additional_research");
        } else {
          counts := Bump(counts, "research");
        }
      } else if agentName == "draft" {
        counts := Bump(counts, "draft");
      } else if agentName == "critique" {
        counts := Bump(counts, "critique");
      } else if agentName == "moderator" {
        counts := Bump(counts, "moderator");
      } else if agentName == "image" {
        counts := Bump(counts, "image");
      } else if agentName == "post" {
        counts := Bump(counts, "post");
      } else if agentName == "seo" {
        counts := Bump(counts, "seo");
      }
    }
    assert log[..|log|] == log;
  }

  /** The number of records of `log` tallied under `key`. */
  function Tallied(log: seq<CallRecord>, key: string): nat
  {
    if log == [] then 0
    else Tallied(log[..|log| - 1], key) + (if NodeOf(log[|log| - 1]) == Some(key) then 1 else 0)
  }

  /**
   * The tally holds exactly the nodes some record is tallied under, each
   * with the number of such records; every key is one of the eight tallied
   * nodes and has a count of at least 1.
   */
  lemma {:induction false} TallyExact(log: seq<CallRecord>)
    ensures forall key :: key in Tally(log) <==> Tallied(log, key) >= 1
    ensures forall key :: key in Tally(log) ==> key in TalliedNodes && Tally(log)[key] == Tallied(log, key) >= 1
  {
    if log != [] {
      TallyExact(log[..|log| - 1]);
    }
  }

  /** The sum of the counts `m` holds for `keys`. */
  function Total(keys: seq<string>, m: map<string, nat>): nat
  {
    if keys == [] then 0 else (if keys[0] in m then m[keys[0]] else 0) + Total(keys[1..], m)
  }

  /** Counting one more call under `key` adds one to the sum over distinct keys exactly when `key` is among them. */
  lemma {:induction false} TotalBump(keys: seq<string>, m: map<string, nat>, key: string)
    requires forall i, j :: 0 <= i < j < |keys| ==> keys[i] != keys[j]
    ensures Total(keys, Bump(m, key)) == Total(keys, m) + (if key in keys then 1 else 0)
  {
    if keys != [] {
      TotalBump(keys[1..], m, key);
      assert key in keys[1..] <==> key in keys && key != keys[0];
    }
  }

  /** The tallied nodes are eight different names. */
  lemma TalliedNodesDistinct()
    ensures forall i, j :: 0 <= i < j < |TalliedNodes| ==> TalliedNodes[i] != TalliedNodes[j]
  {
  }

  /** Each record adds at most one to the counts, so they sum to at most the length of the log. */
  lemma {:induction false} TallyTotal(log: seq<CallRecord>)
    ensures Total(TalliedNodes, Tally(log)) <= |log|
  {
    if log != [] {
      var prefix := log[..|log| - 1];
      TallyTotal(prefix);
      var key := NodeOf(log[|log| - 1]);
      if key.Some? {
        assert Tally(log) == Bump(Tally(prefix), key.value);
        TalliedNodesDistinct();
        TotalBump(TalliedNodes, Tally(prefix), key.value);
      } else {
        assert Tally(log) == Tally(prefix);
      }
    } else {
      TotalEmpty(TalliedNodes);
    }
  }

  /** Nothing counted sums to 0. */
  lemma {:induction false} TotalEmpty(keys: seq<string>)
    ensures Total(keys, map[]) == 0
  {
    if keys != [] {
      TotalEmpty(keys[1..]);
    }
  }

  /** Every tallied node is the name of a node of the graph other than the final assembly. */
  lemma TalliedNodesAreGraphNodes()
    ensures forall k :: 0 <= k < |TalliedNodes| ==>
      exists n: Graph.Node :: n != Graph.FinalAssembly && n != Graph.End && Graph.Name(n) == TalliedNodes[k]
  {
    assert Graph.Name(Graph.Research) == TalliedNodes[0];
    assert Graph.Name(Graph.AdditionalResearchNode) == TalliedNodes[1];
    assert Graph.Name(Graph.Draft) == TalliedNodes[2];
    assert Graph.Name(Graph.Critique) == TalliedNodes[3];
    assert Graph.Name(Graph.Moderator) == TalliedNodes[4];
    assert Graph.Name(Graph.Image) == TalliedNodes[5];
    assert Graph.Name(Graph.Post) == TalliedNodes[6];
    assert Graph.Name(Graph.Seo) == TalliedNodes[7];
  }

  /** The style of a node: its kind, its colour and its size. */
  datatype NodeStyle = NodeStyle(nodeType: string, color: string, size: nat)

  /**
   * `_get_node_style`: the known nodes get the kind and colour of their
   * stage; any other node keeps the kind it was given, in grey. Only the
   * kind `initial` makes a node larger.
   */
  function NodeStyleOf(node: string, nodeType: string): (r: NodeStyle)
    ensures r.size == (if r.nodeType == "initial" then 30 else 25)
    ensures node == "research" ==> r.nodeType == "initial" && r.color == "#4CAF50"
    ensures node == "additional_research" ==> r.nodeType == "conditional" && r.color == "#FF9800"
    ensures node == "critique" || node == "moderator" ==> r.nodeType == "revision" && r.color == "#2196F3"
    ensures node == "image" || node == "post" || node == "seo" || node == "final_assembly" ==>
      r.nodeType == "final" && r.color == "#9C27B0"
    ensures node !in KnownNodes ==> r.nodeType == nodeType && r.color == "#607D8B"
  {
    var (kind, color) :=
      if node == "research" then ("initial", "#4CAF50")
      else if node == "additional_research" then ("conditional", "#FF9800")
      else if node in ["critique", "moderator"] then ("revision", "#2196F3")
      else if node in ["image", "post", "seo", "final_assembly"] then ("final", "#9C27B0")
      else (nodeType, "#607D8B");
    NodeStyle(kind, color, if kind == "initial" then 30 else 25)
  }

  /** The nodes with a style of their own. */
  const KnownNodes: set<string> :=
    {"research", "additional_research", "critique", "moderator", "image", "post", "seo", "final_assembly"}

  /** With the default kind `agent`, exactly the research node is drawn larger. */
  lemma DefaultSize(node: string)
    ensures NodeStyleOf(node, "agent").size == (if node == "research" then 30 else 25)
  {
  }

  /** Every node of the graph except the draft node has a style of its own. */
  lemma GraphNodesStyled(n: Graph.Node)
    requires n != Graph.End
    ensures Graph.Name(n) in KnownNodes <==> n != Graph.Draft
  {
  }

  /** The style of an edge: its label, colour and width. */
  datatype EdgeStyle = EdgeStyle(edgeLabel: string, color: string, width: nat)

  /**
   * The run data an edge label may quote; an empty dictionary, like a
   * missing one, adds nothing to the label.
   */
  type ExecutionData = map<string, int>

  /** `data.get(key, 0)` */
  function GetOrZero(data: ExecutionData, key: string): int
  {
    if key in data then data[key] else 0
  }

  /**
   * `_get_edge_style`: edges leaving the critique node are labelled with the
   * router's answer (the revision and research labels quote their counts
   * from non-empty run data); every other edge is unlabelled and green.
   * Every edge has width 2.
   */
  function EdgeStyleOf(source: string, target: string, data: ExecutionData): (r: EdgeStyle)
    ensures r.width == 2
    ensures source != "critique" ==> r == EdgeStyle("", "#4CAF50", 2)
    ensures source == "critique" && target == "moderator" ==> (r.color == "#FF9800"
      && r.edgeLabel == (if |data| > 0 then "revise (" + IntToString(GetOrZero(data, "revisions_made")) + " times)" else "revise"))
    ensures source == "critique" && target == "additional_research" ==> (r.color == "#FF5722"
      && r.edgeLabel == (if |data| > 0 then "needs research (" + IntToString(GetOrZero(data, "additional_research_calls")) + " times)"
                         else "needs research"))
    ensures source == "critique" && target == "image" ==> r == EdgeStyle("pass", "#4CAF50", 2)
  {
    var (text, color) :=
      if source != "critique" then ("", "#4CAF50")
      else if target == "moderator" then
        (if |data| > 0 then "revise (" + IntToString(GetOrZero(data, "revisions_made")) + " times)" else "revise", "#FF9800")
      else if target == "additional_research" then
        (if |data| > 0 then "needs research (" + IntToString(GetOrZero(data, "additional_research_calls")) + " times)"
         else "needs research", "#FF5722")
      else if target == "image" then ("pass", "#4CAF50")
      else ("", "#4CAF50");
    EdgeStyle(text, color, 2)
  }

  /** The label without run data of the critique edge the router's answer takes. */
  function RouteLabel(route: Router.Route): string
  {
    match route
    case Generate => "pass"
    case Revise => "revise"
    case AdditionalResearch => "needs research"
  }

  /**
   * Each edge out of the critique node, drawn without run data, is labelled
   * with the answer of the router that takes it, and the three labels
   * differ; edges out of other nodes are unlabelled.
   */
  lemma EdgeLabelsFollowRouter(n: Graph.Node, route: Router.Route, other: Router.Route)
    requires n != Graph.End
    ensures var shown := EdgeStyleOf(Graph.Name(n), Graph.Name(Graph.Next(n, route)), map[]).edgeLabel;
            shown == (if n == Graph.Critique then RouteLabel(route) else "")
    ensures RouteLabel(route) == RouteLabel(other) <==> route == other
  {
  }
}
