/**
 * The runtime monitor: a log of executions, each with the nodes it ran and
 * the conditional-edge decisions it took, and, per node, the states it ran
 * on. Timestamps are not modelled.
 */
module RuntimeMonitoring {
  import opened Outcomes
  import WorkflowUtils

  /** The counters and lengths recorded each time a node runs. */
  datatype NodeSnapshot = NodeSnapshot(revisionCount: int, researchCalls: int, additionalResearchCalls: int,
                                       critiquePassed: bool, articleLength: nat, researchDataLength: nat)

  /** The counters recorded with each conditional-edge decision. */
  datatype EdgeSnapshot = EdgeSnapshot(critiquePassed: bool, revisionCount: int, researchCalls: int,
                                       additionalResearchCalls: int)

  /** One node run, as listed under its execution. */
  datatype NodeRecord = NodeRecord(node: string, snapshot: NodeSnapshot)

  /** One conditional-edge decision, as listed under its execution. */
  datatype EdgeRecord = EdgeRecord(fromNode: string, decision: string, snapshot: EdgeSnapshot)

  /** One tracked execution. */
  datatype Execution = Execution(executionId: string, nodesExecuted: seq<NodeRecord>, stateChanges: seq<EdgeRecord>)

  /** One node run, as listed under its node: the state itself is kept, not a copy. */
  datatype NodeExecution = NodeExecution(executionId: string, state: WorkflowUtils.StateDict)

  /** The statistics of `get_runtime_stats`, or its message when nothing was tracked. */
  datatype RuntimeStats =
    | NoExecutions
    | Stats(totalExecutions: nat, nodeExecutionCounts: map<string, nat>, currentExecution: Option<string>)

  /** The node snapshot of `state`, each missing key read as 0, false or the empty string. */
  function NodeSnapshotOf(state: WorkflowUtils.StateDict): NodeSnapshot
    reads state
  {
    NodeSnapshot(state.revisionCount.GetOr(0), state.researchCalls.GetOr(0), state.additionalResearchCalls.GetOr(0),
                 state.critiquePassed.GetOr(false), |state.article.GetOr([])|, |state.researchData.GetOr([])|)
  }

  /** The edge snapshot of `state`, each missing key read as false or 0. */
  function EdgeSnapshotOf(state: WorkflowUtils.StateDict): EdgeSnapshot
    reads state
  {
    EdgeSnapshot(state.critiquePassed.GetOr(false), state.revisionCount.GetOr(0), state.researchCalls.GetOr(0),
                 state.additionalResearchCalls.GetOr(0))
  }

  /** The names of the nodes `records` lists, in order. */
  function Names(records: seq<NodeRecord>): (r: seq<string>)
    ensures |r| == |records| && forall k :: 0 <= k < |records| ==> r[k] == records[k].node
  {
    seq(|records|, k requires 0 <= k < |records| => records[k].node)
  }

  /** The names of every node run of every execution of `log`, each as often as it ran. */
  function NodeRuns(log: seq<Execution>): multiset<string>
  {
    if log == [] then multiset{} else NodeRuns(log[..|log| - 1]) + multiset(Names(log[|log| - 1].nodesExecuted))
  }

  /** The number of node runs of all executions of `log`. */
  function TotalNodeRuns(log: seq<Execution>): nat
  {
    if log == [] then 0 else TotalNodeRuns(log[..|log| - 1]) + |log[|log| - 1].nodesExecuted|
  }

  /**
   * The node counts of the statistics add up to the node runs of all
   * executions: each run is counted once.
   */
  lemma {:induction false} NodeRunsTotal(log: seq<Execution>)
    ensures |NodeRuns(log)| == TotalNodeRuns(log)
  {
    if log != [] {
      NodeRunsTotal(log[..|log| - 1]);
    }
  }

  /** `counts` is the dictionary form of `nodes`: a key per name present, with its multiplicity. */
  ghost predicate Counts(counts: map<string, nat>, nodes: multiset<string>)
  {
    forall n :: (n in counts <==> nodes[n] > 0) && (n in counts ==> counts[n] == nodes[n])
  }

  /** Replacing the last execution by one that ran one node more adds that node to the runs. */
  lemma NodeRunsExtendLast(prefix: seq<Execution>, last: Execution, record: NodeRecord)
    ensures NodeRuns(prefix + [last.(nodesExecuted := last.nodesExecuted + [record])])
            == NodeRuns(prefix + [last]) + multiset{record.node}
  {
    NodeRunsSnoc(prefix, last);
    NodeRunsSnoc(prefix, last.(nodesExecuted := last.nodesExecuted + [record]));
    NamesAppend(last.nodesExecuted, record);
    assert multiset(Names(last.nodesExecuted + [record])) == multiset(Names(last.nodesExecuted)) + multiset{record.node};
  }

  /** A log with one more execution has that execution's runs in addition. */
  lemma NodeRunsSnoc(prefix: seq<Execution>, e: Execution)
    ensures NodeRuns(prefix + [e]) == NodeRuns(prefix) + multiset(Names(e.nodesExecuted))
  {
    assert (prefix + [e])[..|prefix|] == prefix;
  }

  /** One more run adds its node's name at the end. */
  lemma NamesAppend(records: seq<NodeRecord>, record: NodeRecord)
    ensures Names(records + [record]) == Names(records) + [record.node]
  {
    var a := Names(records + [record]);
    var b := Names(records) + [record.node];
    assert |a| == |b|;
    forall k | 0 <= k < |a| ensures a[k] == b[k] {
      if k < |records| {
        assert (records + [record])[k] == records[k];
      }
    }
  }

  /** Counting one more occurrence of `node` keeps a dictionary in step with its multiset. */
  lemma CountsAdd(counts: map<string, nat>, nodes: multiset<string>, node: string)
    requires Counts(counts, nodes)
    ensures Counts(counts[node := (if node in counts then counts[node] else 0) + 1], nodes + multiset{node})
  {
  }

  /** The inner loop of `get_runtime_stats`: the runs of one execution are counted into `counts`. */
  method AddRuns(counts: map<string, nat>, ghost before: multiset<string>, runs: seq<NodeRecord>)
    returns (r: map<string, nat>)
    requires Counts(counts, before)
    ensures Counts(r, before + multiset(Names(runs)))
  {
    r := counts;
    for j := 0 to |runs|
      invariant Counts(r, before + multiset(Names(runs[..j])))
    {
      var node := runs[j].node;
      assert runs[..j + 1] == runs[..j] + [runs[j]];
      NamesAppend(runs[..j], runs[j]);
      CountsAdd(r, before + multiset(Names(runs[..j])), node);
      r := r[node := (if node in r then r[node] else 0) + 1];
    }
    assert runs[..|runs|] == runs;
  }

  /** Replacing the last execution by one with the same node runs keeps the runs. */
  lemma NodeRunsSameLast(log: seq<Execution>, last: Execution)
    requires log != [] && last.nodesExecuted == log[|log| - 1].nodesExecuted
    ensures NodeRuns(log[..|log| - 1] + [last]) == NodeRuns(log)
  {
    var log' := log[..|log| - 1] + [last];
    assert log'[..|log'| - 1] == log[..|log| - 1];
  }

  /** Appending an execution that ran no node keeps the runs. */
  lemma NodeRunsAppendEmpty(log: seq<Execution>, e: Execution)
    requires e.nodesExecuted == []
    ensures NodeRuns(log + [e]) == NodeRuns(log)
  {
    assert (log + [e])[..|log|] == log;
  }

  /** The records `m` lists under `node`, none when it has no entry. */
  function Listed(m: map<string, seq<NodeExecution>>, node: string): seq<NodeExecution>
  {
    if node in m then m[node] else []
  }

  /** Each node has as many records listed as it has runs. */
  ghost predicate ListsRuns(m: map<string, seq<NodeExecution>>, runs: multiset<string>)
  {
    forall n :: |Listed(m, n)| == runs[n]
  }

  /** Listing one more record under `node` keeps step with one more run of it. */
  lemma ListedStep(m: map<string, seq<NodeExecution>>, runs: multiset<string>, node: string, x: NodeExecution)
    requires ListsRuns(m, runs)
    ensures ListsRuns(m[node := Listed(m, node) + [x]], runs + multiset{node})
  {
    var m' := m[node := Listed(m, node) + [x]];
    forall n ensures |Listed(m', n)| == (runs + multiset{node})[n] {
      if n != node {
        assert Listed(m', n) == Listed(m, n);
      }
    }
  }

  /**
   * The current execution, when there is one, is the last one logged, and
   * each node has one record listed under its name per run in the log.
   */
  ghost predicate Consistent(log: seq<Execution>, m: map<string, seq<NodeExecution>>, current: Option<string>)
  {
    (current.Some? ==> log != [] && log[|log| - 1].executionId == current.value)
    && ListsRuns(m, NodeRuns(log))
  }

  /** Listing a run under the last execution and its record under the node keeps the two consistent. */
  lemma RunLogged(log: seq<Execution>, m: map<string, seq<NodeExecution>>, current: Option<string>,
                  record: NodeRecord, x: NodeExecution)
    requires Consistent(log, m, current) && log != []
    ensures var last := log[|log| - 1];
      Consistent(log[..|log| - 1] + [last.(nodesExecuted := last.nodesExecuted + [record])],
                 m[record.node := Listed(m, record.node) + [x]], current)
  {
    var last := log[|log| - 1];
    assert log == log[..|log| - 1] + [last];
    NodeRunsExtendLast(log[..|log| - 1], last, record);
    ListedStep(m, NodeRuns(log), record.node, x);
  }

  class RuntimeMonitor {
    var executionLog: seq<Execution>
    var nodeExecutions: map<string, seq<NodeExecution>>
    var currentExecutionId: Option<string>

    /**
     * The current execution, when there is one, is the last one logged, and
     * each node has one record under its name per run listed in the log.
     */
    ghost predicate Valid()
      reads this
    {
      Consistent(executionLog, nodeExecutions, currentExecutionId)
    }

    /** The monitor is recording: the current execution id is set and not empty. */
    predicate Tracking()
      reads this
    {
      currentExecutionId.Some? && currentExecutionId.value != []
    }

    /** A monitor with nothing logged and no current execution. */
    constructor ()
      ensures Valid()
      ensures executionLog == [] && nodeExecutions == map[] && currentExecutionId == None
    {
      executionLog := [];
      nodeExecutions := map[];
      currentExecutionId := None;
    }

    /** `start_execution`: an execution with no runs yet is logged and becomes the current one. */
    method StartExecution(executionId: string)
      modifies this
      requires Valid()
      ensures Valid()
      ensures currentExecutionId == Some(executionId)
      ensures executionLog == old(executionLog) + [Execution(executionId, [], [])]
      ensures nodeExecutions == old(nodeExecutions)
    {
      NodeRunsAppendEmpty(executionLog, Execution(executionId, [], []));
      currentExecutionId := Some(executionId);
      executionLog := executionLog + [Execution(executionId, [], [])];
    }

    /**
     * `log_node_execution`: while recording, the run is listed under the
     * last execution with a snapshot of the state, and the state itself is
     * listed under the node; otherwise nothing changes.
     */
    method LogNodeExecution(nodeName: string, state: WorkflowUtils.StateDict)
      modifies this
      requires Valid()
      ensures Valid()
      ensures currentExecutionId == old(currentExecutionId)
      ensures !old(Tracking()) ==> executionLog == old(executionLog) && nodeExecutions == old(nodeExecutions)
      ensures old(Tracking()) ==>
        var last := old(executionLog)[|old(executionLog)| - 1];
        executionLog == old(executionLog)[..|old(executionLog)| - 1]
          + [last.(nodesExecuted := last.nodesExecuted + [NodeRecord(nodeName, NodeSnapshotOf(state))])]
        && nodeExecutions == old(nodeExecutions)[nodeName :=
             old(GetNodeExecutions(nodeName)) + [NodeExecution(currentExecutionId.value, state)]]
    {
      if currentExecutionId.Some? && currentExecutionId.value != [] {
        var execution := executionLog[|executionLog| - 1];
        var record := NodeRecord(nodeName, NodeSnapshotOf(state));
        var listed := NodeExecution(currentExecutionId.value, state);
        RunLogged(executionLog, nodeExecutions, currentExecutionId, record, listed);
        ghost var expected := nodeExecutions[nodeName := Listed(nodeExecutions, nodeName) + [listed]];
        executionLog := executionLog[..|executionLog| - 1]
          + [execution.(nodesExecuted := execution.nodesExecuted + [record])];
        if nodeName !in nodeExecutions {
          nodeExecutions := nodeExecutions[nodeName := []];
        }
        nodeExecutions := nodeExecutions[nodeName := nodeExecutions[nodeName] + [listed]];
        assert nodeExecutions == expected;
      }
    }

    /**
     * `log_conditional_edge`: while recording, the decision is listed under
     * the last execution with a snapshot of the state; nothing else changes.
     */
    method LogConditionalEdge(fromNode: string, decision: string, state: WorkflowUtils.StateDict)
      modifies this
      requires Valid()
      ensures Valid()
      ensures currentExecutionId == old(currentExecutionId) && nodeExecutions == old(nodeExecutions)
      ensures !old(Tracking()) ==> executionLog == old(executionLog)
      ensures old(Tracking()) ==>
        var last := old(executionLog)[|old(executionLog)| - 1];
        executionLog == old(executionLog)[..|old(executionLog)| - 1]
          + [last.(stateChanges := last.stateChanges + [EdgeRecord(fromNode, decision, EdgeSnapshotOf(state))])]
    {
      if currentExecutionId.Some? && currentExecutionId.value != [] {
        var execution := executionLog[|executionLog| - 1];
        var changed := execution.(stateChanges := execution.stateChanges + [EdgeRecord(fromNode, decision, EdgeSnapshotOf(state))]);
        NodeRunsSameLast(executionLog, changed);
        executionLog := executionLog[..|executionLog| - 1] + [changed];
      }
    }

    /**
     * `get_execution_summary`: with a non-empty id, the first execution
     * logged under it; otherwise, or when no execution has that id, the last
     * execution logged, and nothing when the log is empty.
     */
    method GetExecutionSummary(executionId: string) returns (r: Option<Execution>)
      ensures r.Some? <==> executionLog != []
      ensures executionId != [] && (exists k :: 0 <= k < |executionLog| && executionLog[k].executionId == executionId) ==>
        exists k :: 0 <= k < |executionLog| && r == Some(executionLog[k]) && executionLog[k].executionId == executionId
          && forall j :: 0 <= j < k ==> executionLog[j].executionId != executionId
      ensures (executionId == [] || forall k :: 0 <= k < |executionLog| ==> executionLog[k].executionId != executionId) ==>
        r == (if executionLog == [] then None else Some(executionLog[|executionLog| - 1]))
    {
      if executionId != [] {
        for i := 0 to |executionLog|
          invariant forall j :: 0 <= j < i ==> executionLog[j].executionId != executionId
        {
          if executionLog[i].executionId == executionId {
            return Some(executionLog[i]);
          }
        }
      }
      r := if executionLog == [] then None else Some(executionLog[|executionLog| - 1]);
    }

    /** `get_node_executions`: the records listed under the node, none for a node never run. */
    function GetNodeExecutions(nodeName: string): (r: seq<NodeExecution>)
      reads this
      ensures nodeName !in nodeExecutions ==> r == []
      ensures nodeName in nodeExecutions ==> r == nodeExecutions[nodeName]
    {
      Listed(nodeExecutions, nodeName)
    }

    /**
     * `get_runtime_stats`: the message when nothing was logged; otherwise the
     * number of executions, the number of runs of each node over all of
     * them, and the current execution id. Each node's count is also the
     * number of records listed under it.
     */
    method GetRuntimeStats() returns (r: RuntimeStats)
      requires Valid()
      ensures r == NoExecutions <==> executionLog == []
      ensures r.Stats? ==> (r.totalExecutions == |executionLog| && r.currentExecution == currentExecutionId
        && Counts(r.nodeExecutionCounts, NodeRuns(executionLog))
        && forall n :: n in r.nodeExecutionCounts ==> r.nodeExecutionCounts[n] == |GetNodeExecutions(n)|)
    {
      if executionLog == [] {
        return NoExecutions;
      }
      var nodeCounts: map<string, nat> := map[];
      for i := 0 to |executionLog|
        invariant Counts(nodeCounts, NodeRuns(executionLog[..i]))
      {
        assert executionLog[..i + 1] == executionLog[..i] + [executionLog[i]];
        NodeRunsSnoc(executionLog[..i], executionLog[i]);
        nodeCounts := AddRuns(nodeCounts, NodeRuns(executionLog[..i]), executionLog[i].nodesExecuted);
      }
      assert executionLog[..|executionLog|] == executionLog;
      r := Stats(|executionLog|, nodeCounts, currentExecutionId);
    }
  }
}
