/** What the verdicts of the gates mean for a call (app/pi_gateway.py). */
module GatewayVerdicts {
  import opened Wrappers
  import opened Budget
  import opened Gateway

  /** A refused verdict fails the call with its own error; neither its handler runs nor its bill change. */
  lemma RefusalFails(s: State, tools: set<string>, i: CallId, e: Event)
    requires i < |s.calls| && Step(s, tools, e).Some?
    ensures var c := Step(s, tools, e).value.calls[i];
      && (e == Permit(i, false) ==> c == s.calls[i].(phase := Failed(NotPermitted)))
      && (e == Dispatch(i, true, false) ==> c == s.calls[i].(phase := Failed(NotDispatched)))
      && (e == Authorize(i, false) ==> c == s.calls[i].(phase := Failed(NotAuthorized)))
      && (e == Finish(i, false) ==> c == s.calls[i].(phase := Failed(HandlerFailed)))
      && (e == Scan(i, None) ==> c == s.calls[i].(phase := Failed(Quarantined)))
      && (e == Raise(i) ==> c == s.calls[i].(phase := Failed(Raised)))
  {
    hide UnwrapCallTool;
  }

  /** The clock has run out, or the pool of this tool is used up. */
  ghost predicate NoSlotLeft(s: State, target: string, now: real) {
    var b := s.budget;
    || (b.maxRuntime.Some? && now - b.started >= b.maxRuntime.value)
    || (target == "search_web" && b.maxSearches.Some? && b.searches >= b.maxSearches.value)
    || (target != "search_web" && b.maxTools.Some? && b.tools >= b.maxTools.value)
  }

  /** So does a budget without room: a slot is refused by the clock or its pool, a bill by the evidence left. */
  lemma NoRoomFails(s: State, tools: set<string>, i: CallId, e: Event)
    requires i < |s.calls| && Step(s, tools, e).Some?
    ensures var c, b := Step(s, tools, e).value.calls[i], s.budget;
      && (e.Reserve? && e.call == i ==>
            (c.phase == Failed(OverBudget) <==> s.calls[i].phase == Dispatched(false) && NoSlotLeft(s, s.calls[i].target, e.now)))
      && (e == Bill(i) ==>
            (c.phase == Failed(OverEvidence) <==> b.maxEvidence.Some? && b.evidence + s.calls[i].phase.tokens > b.maxEvidence.value))
  {
    hide UnwrapCallTool;
  }

  /** A wrapper's call goes on as its target, or fails with the unwrap's error; any other is targeted as it is. */
  lemma UnwrapGoesOn(s: State, tools: set<string>, i: CallId, innerArgs: Arguments)
    requires i < |s.calls| && s.calls[i].phase == Arrived
    ensures var t, c, inner := Step(s, tools, Unwrap(i, innerArgs)), s.calls[i], UnwrapCallTool(s.calls[i].args, tools);
      t.Some? && t.value.calls[i] ==
        if c.target != "call_tool" then c.(phase := Targeted)
        else if inner.Err? then c.(phase := Failed(inner.error))
        else c.(target := inner.value, args := innerArgs, hops := c.hops + 1)
  {
    hide UnwrapCallTool;
  }

  lemma FailedStep(s: State, tools: set<string>, e: Event, i: CallId)
    requires i < |s.calls| && s.calls[i].phase.Failed? && Step(s, tools, e).Some?
    ensures i < |Step(s, tools, e).value.calls| && Step(s, tools, e).value.calls[i] == s.calls[i]
  {
    hide UnwrapCallTool;
  }

  /** A failed call stays as it is, over any trace. */
  lemma {:induction false} FailedForGood(s: State, tools: set<string>, trace: seq<Event>, i: CallId)
    requires i < |s.calls| && s.calls[i].phase.Failed? && After(s, tools, trace).Some?
    ensures i < |After(s, tools, trace).value.calls| && After(s, tools, trace).value.calls[i] == s.calls[i]
  {
    hide Step;
    if trace != [] {
      var front := trace[..|trace| - 1];
      FailedForGood(s, tools, front, i);
      FailedStep(After(s, tools, front).value, tools, trace[|trace| - 1], i);
    }
  }

  // ---------------------------------------------------------------- the history of one call

  /** The events of one call, in order. */
  function Own(trace: seq<Event>, i: CallId): seq<Event> {
    if trace == [] then []
    else
      var last := trace[|trace| - 1];
      Own(trace[..|trace| - 1], i) + (if !last.Arrive? && last.call == i then [last] else [])
  }

  /** Gate k after the unwraps, passed. */
  ghost predicate Passes(k: nat, e: Event, i: CallId) {
    match k
    case 0 => e == Permit(i, true)
    case 1 => e.Dispatch? && (e.attached ==> e.granted)
    case 2 => e.Reserve?
    case 3 => e == Authorize(i, true)
    case 4 => e == Run(i)
    case 5 => e == Finish(i, true)
    case 6 => e.Scan? && e.tokens.Some?
    case 7 => e == Bill(i)
    case 8 => e == Return(i)
    case _ => false
  }

  /** One or two unwraps, then the gates in order, each passed. */
  ghost predicate PassedInOrder(h: seq<Event>, unwraps: nat, i: CallId) {
    && unwraps <= |h|
    && (forall k | 0 <= k < unwraps :: h[k].Unwrap?)
    && (forall k | unwraps <= k < |h| :: Passes(k - unwraps, h[k], i))
  }

  function Gate(phase: Phase): int {
    match phase
    case Arrived => 0
    case Targeted => 0
    case Permitted => 1
    case Dispatched(_) => 2
    case Reserved => 3
    case Authorized => 4
    case Running => 5
    case Handled => 6
    case Scanned(_) => 7
    case Billed => 8
    case Returned => 9
    case Failed(_) => -1
  }

  /** What the history of a call says of it: a failed one passed every gate but its last. */
  ghost predicate Tells(h: seq<Event>, unwraps: nat, c: Call, i: CallId) {
    && (if c.phase.Failed? then h != [] && PassedInOrder(h[..|h| - 1], unwraps, i)
        else PassedInOrder(h, unwraps, i) && |h| == unwraps + Gate(c.phase) && (c.phase == Arrived || unwraps > 0))
    && c.runs == (if PassedGates(h, unwraps, c) >= 5 then 1 else 0)
    && (c.phase.Scanned? ==> h[unwraps + 6] == Scan(i, Some(c.phase.tokens)))
    && (c.billed.Some? <==> PassedGates(h, unwraps, c) >= 8)
    && (c.billed.Some? ==> h[unwraps + 6] == Scan(i, c.billed))
  }

  ghost function PassedGates(h: seq<Event>, unwraps: nat, c: Call): int {
    |h| - unwraps - if c.phase.Failed? then 1 else 0
  }

  lemma StepTells(s: State, tools: set<string>, e: Event, i: CallId, h: seq<Event>, unwraps: nat) returns (after: nat)
    requires !e.Arrive? && e.call == i < |s.calls| && Step(s, tools, e).Some?
    requires Tells(h, unwraps, s.calls[i], i)
    ensures Tells(h + [e], after, Step(s, tools, e).value.calls[i], i)
  {
    hide UnwrapCallTool;
    after := if e.Unwrap? && !Step(s, tools, e).value.calls[i].phase.Failed? then |h| + 1 else unwraps;
    assert (h + [e])[..|h|] == h;
  }

  /** Every call's history tells of it, in any interleaving. */
  lemma {:induction false} HistoryTells(budget: Counters, tools: set<string>, trace: seq<Event>, i: CallId)
    returns (unwraps: nat)
    requires After(Start(budget), tools, trace).Some? && i < |After(Start(budget), tools, trace).value.calls|
    ensures Tells(Own(trace, i), unwraps, After(Start(budget), tools, trace).value.calls[i], i)
  {
    hide Step, Tells;
    unwraps := 0;
    if trace != [] {
      var front, e := trace[..|trace| - 1], trace[|trace| - 1];
      var s := After(Start(budget), tools, front).value;
      OtherCalls(s, tools, e, i);
      assert Own(front, i) + [] == Own(front, i);
      if i < |s.calls| {
        unwraps := HistoryTells(budget, tools, front, i);
        if !e.Arrive? && e.call == i {
          unwraps := StepTells(s, tools, e, i, Own(front, i), unwraps);
        }
      } else {
        NothingBefore(budget, tools, front, i);
        ArrivalTells(e.name, e.args, i);
      }
    }
  }

  lemma OtherCalls(s: State, tools: set<string>, e: Event, i: CallId)
    requires Step(s, tools, e).Some? && i < |Step(s, tools, e).value.calls|
    ensures i >= |s.calls| ==> e.Arrive? && i == |s.calls|
    ensures i >= |s.calls| ==> Step(s, tools, e).value.calls[i] == Call(e.name, e.args, e.name, 0, Arrived, 0, None)
    ensures i < |s.calls| && (e.Arrive? || e.call != i) ==> Step(s, tools, e).value.calls[i] == s.calls[i]
  {
    hide UnwrapCallTool;
  }

  lemma {:induction false} NothingBefore(budget: Counters, tools: set<string>, trace: seq<Event>, i: CallId)
    requires After(Start(budget), tools, trace).Some? && i >= |After(Start(budget), tools, trace).value.calls|
    ensures Own(trace, i) == []
  {
    hide OnCall;
    if trace != [] {
      var front, e := trace[..|trace| - 1], trace[|trace| - 1];
      var s := After(Start(budget), tools, front).value;
      CallsStay(s, tools, e);
      NothingBefore(budget, tools, front, i);
    }
  }

  lemma CallsStay(s: State, tools: set<string>, e: Event)
    requires Step(s, tools, e).Some?
    ensures |Step(s, tools, e).value.calls| >= |s.calls| && (!e.Arrive? ==> e.call < |s.calls|)
  {
    hide UnwrapCallTool;
  }

  lemma ArrivalTells(name: string, args: Arguments, i: CallId)
    ensures Tells([], 0, Call(name, args, name, 0, Arrived, 0, None), i)
  {
  }

  // ---------------------------------------------------------------- what a run and a return tell

  /**
   A call's handler has run only if the trace holds, in this order: its permission, its dispatch, its
   reservation, its authorization, and then the run.
   */
  lemma RunWasAllowed(budget: Counters, tools: set<string>, trace: seq<Event>, i: CallId) returns (u: nat)
    requires After(Start(budget), tools, trace).Some? && i < |After(Start(budget), tools, trace).value.calls|
    requires After(Start(budget), tools, trace).value.calls[i].runs > 0
    ensures var h := Own(trace, i);
      && u + 5 <= |h|
      && h[u] == Permit(i, true) && h[u + 1].Dispatch? && (h[u + 1].attached ==> h[u + 1].granted) && h[u + 2].Reserve?
      && h[u + 3] == Authorize(i, true) && h[u + 4] == Run(i)
  {
    hide Step;
    u := HistoryTells(budget, tools, trace, i);
    var h := Own(trace, i);
    var c := After(Start(budget), tools, trace).value.calls[i];
    GatesPassed(h, u, c, i, 0);
    GatesPassed(h, u, c, i, 1);
    GatesPassed(h, u, c, i, 2);
    GatesPassed(h, u, c, i, 3);
    GatesPassed(h, u, c, i, 4);
  }

  lemma GatesPassed(h: seq<Event>, unwraps: nat, c: Call, i: CallId, k: nat)
    requires Tells(h, unwraps, c, i) && k < PassedGates(h, unwraps, c)
    ensures unwraps + k < |h| && Passes(k, h[unwraps + k], i)
  {
    if c.phase.Failed? {
      assert h[..|h| - 1][unwraps + k] == h[unwraps + k];
    }
  }

  /** A call returned only if it passed every gate in order, and it was charged exactly what was scanned. */
  lemma ReturnPassedEveryGate(budget: Counters, tools: set<string>, trace: seq<Event>, i: CallId) returns (u: nat)
    requires After(Start(budget), tools, trace).Some? && i < |After(Start(budget), tools, trace).value.calls|
    requires After(Start(budget), tools, trace).value.calls[i].phase == Returned
    ensures var h := Own(trace, i);
      && |h| == u + 9 && u > 0 && (forall k | 0 <= k < u :: h[k].Unwrap?)
      && h[u] == Permit(i, true) && h[u + 1].Dispatch? && (h[u + 1].attached ==> h[u + 1].granted) && h[u + 2].Reserve?
      && h[u + 3] == Authorize(i, true) && h[u + 4] == Run(i) && h[u + 5] == Finish(i, true)
      && h[u + 6] == Scan(i, After(Start(budget), tools, trace).value.calls[i].billed) && h[u + 6].tokens.Some?
      && h[u + 7] == Bill(i) && h[u + 8] == Return(i)
  {
    hide Step;
    u := HistoryTells(budget, tools, trace, i);
  }
}
