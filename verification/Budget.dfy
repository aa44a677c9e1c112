/** The per-run execution budget (app/runtime.py). */
module Budget {
  import opened Wrappers

  /** Limits and counters; a limit of None never refuses. */
  datatype Counters = Counters(
    maxTools: Option<nat>,
    maxSearches: Option<nat>,
    maxEvidence: Option<nat>,
    maxRuntime: Option<real>,
    started: real,
    tools: nat,
    searches: nat,
    evidence: nat)
  {
    predicate RuntimeLeft(now: real) {
      maxRuntime.None? || maxRuntime.value - (now - started) > 0.0
    }

    predicate Within() {
      && (maxTools.Some? ==> tools <= maxTools.value)
      && (maxSearches.Some? ==> searches <= maxSearches.value)
      && (maxEvidence.Some? ==> evidence <= maxEvidence.value)
    }
  }

  predicate Room(used: nat, extra: nat, limit: Option<nat>) {
    limit.None? || used + extra <= limit.value
  }

  class ExecutionBudget {
    const maxTools: Option<nat>
    const maxSearches: Option<nat>
    const maxEvidence: Option<nat>
    const maxRuntime: Option<real>
    const started: real
    var tools: nat
    var searches: nat
    var evidence: nat

    function View(): Counters
      reads this
    {
      Counters(maxTools, maxSearches, maxEvidence, maxRuntime, started, tools, searches, evidence)
    }

    constructor (maxTools: Option<nat>, maxSearches: Option<nat>, maxEvidence: Option<nat>, maxRuntime: Option<real>,
                 now: real)
      ensures View() == Counters(maxTools, maxSearches, maxEvidence, maxRuntime, now, 0, 0, 0) && View().Within()
    {
      this.maxTools, this.maxSearches, this.maxEvidence, this.maxRuntime := maxTools, maxSearches, maxEvidence, maxRuntime;
      started := now;
      tools, searches, evidence := 0, 0, 0;
    }

    /** One tool-call slot, taken before the call. */
    method ReserveToolCall(now: real) returns (granted: bool)
      modifies this`tools
      ensures granted <==>
        && (maxRuntime.Some? ==> now - started < maxRuntime.value)
        && (maxTools.Some? ==> old(tools) < maxTools.value)
      ensures tools == old(tools) + if granted then 1 else 0
      ensures old(View()).Within() ==> View().Within()
    {
      if !View().RuntimeLeft(now) {
        return false;
      }
      if maxTools.Some? && tools >= maxTools.value {
        return false;
      }
      tools := tools + 1;
      return true;
    }

    method ReserveSearchCall(now: real) returns (granted: bool)
      modifies this`searches
      ensures granted <==>
        && (maxRuntime.Some? ==> now - started < maxRuntime.value)
        && (maxSearches.Some? ==> old(searches) < maxSearches.value)
      ensures searches == old(searches) + if granted then 1 else 0
      ensures old(View()).Within() ==> View().Within()
    {
      if !View().RuntimeLeft(now) {
        return false;
      }
      if maxSearches.Some? && searches >= maxSearches.value {
        return false;
      }
      searches := searches + 1;
      return true;
    }

    /** All of the tokens, or none. */
    method AddEvidenceTokens(count: nat) returns (allowed: bool)
      modifies this`evidence
      ensures allowed <==> (maxEvidence.Some? ==> old(evidence) + count <= maxEvidence.value)
      ensures evidence == old(evidence) + if allowed then count else 0
      ensures old(View()).Within() ==> View().Within()
    {
      if maxEvidence.Some? && evidence + count > maxEvidence.value {
        return false;
      }
      evidence := evidence + count;
      return true;
    }
  }
}
