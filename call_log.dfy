/**
 * The `agent_call_log` kept in the workflow state: one record per agent call,
 * numbered from 1 in the order the calls were made.
 */
module CallLog {

  /** One entry of `agent_call_log`; the wall-clock timestamp is not modelled. */
  datatype CallRecord = CallRecord(
    callId: nat,
    agentName: string,
    callType: string,
    revisionCount: int,
    researchCalls: int,
    additionalResearchCalls: int)

  /**
   * The value found under the `agent_call_log` key of a state dictionary: a
   * list of records, or some value that is not a list.
   */
  datatype LogValue = Records(records: seq<CallRecord>) | NotAList

  /** The call ids of `log` are exactly 1, 2, ..., |log|, in order. */
  predicate IdsSequential(log: seq<CallRecord>)
  {
    forall k :: 0 <= k < |log| ==> log[k].callId == k + 1
  }

  /**
   * `log` with one record appended, numbered one past the current length and
   * carrying the given snapshot of the state's counters.
   */
  function Append(log: seq<CallRecord>, agentName: string, callType: string,
                  revisionCount: int, researchCalls: int, additionalResearchCalls: int): (r: seq<CallRecord>)
    ensures |r| == |log| + 1 && r[..|log|] == log
    ensures r[|log|].callId == |log| + 1
    ensures r[|log|].agentName == agentName && r[|log|].callType == callType
    ensures r[|log|].revisionCount == revisionCount && r[|log|].researchCalls == researchCalls
    ensures r[|log|].additionalResearchCalls == additionalResearchCalls
    ensures IdsSequential(log) ==> IdsSequential(r)
  {
    log + [CallRecord(|log| + 1, agentName, callType, revisionCount, researchCalls, additionalResearchCalls)]
  }

  /** The number of records of `log` made by the agent called `agentName`. */
  function CountAgent(log: seq<CallRecord>, agentName: string): nat
  {
    if log == [] then 0
    else CountAgent(log[..|log| - 1], agentName) + (if log[|log| - 1].agentName == agentName then 1 else 0)
  }

  /** Appending one record adds one to its agent's count and leaves the other agents' counts alone. */
  lemma CountAgentAppend(log: seq<CallRecord>, x: CallRecord, agentName: string)
    ensures CountAgent(log + [x], agentName) == CountAgent(log, agentName) + (if x.agentName == agentName then 1 else 0)
  {
    assert (log + [x])[..|log|] == log;
  }

  /** Logging one more call adds one record for its agent and leaves every other agent's count alone. */
  lemma CountAfterAppend(log: seq<CallRecord>, agentName: string, callType: string,
                         revisionCount: int, researchCalls: int, additionalResearchCalls: int)
    ensures forall name :: (CountAgent(Append(log, agentName, callType, revisionCount, researchCalls, additionalResearchCalls), name)
      == CountAgent(log, name) + (if name == agentName then 1 else 0))
  {
    var x := CallRecord(|log| + 1, agentName, callType, revisionCount, researchCalls, additionalResearchCalls);
    forall name: string {
      CountAgentAppend(log, x, name);
    }
  }

  /** No agent has more records than the log has entries. */
  lemma {:induction false} CountAgentBound(log: seq<CallRecord>, agentName: string)
    ensures CountAgent(log, agentName) <= |log|
  {
    if log != [] {
      CountAgentBound(log[..|log| - 1], agentName);
    }
  }
}
