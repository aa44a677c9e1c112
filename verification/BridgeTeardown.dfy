/** How runs of the bridge end, and which calls it accepts and starts (scripts/pi_bridge.py). */
module BridgeTeardown {
  import opened Wrappers
  import opened BridgeProtocol
  import opened BridgeSafety

  // ---------------------------------------------------------------- what a drain leads to

  /** After a wait without timeout a completing run closes normally, any other run as failed; at the end all shut down. */
  lemma DrainLeadsOn(s: State)
    requires s.pc.Draining? && Step(s, WaitDone).Some?
    ensures Step(s, WaitDone).value == s.(pc := match s.pc.scope
      case OneRun(run, why) => Closing(run, why == Completing)
      case Everyone => ShuttingDown(true))
  {
  }

  /** After a timeout a completing run is drained once more, as one that fails; any other is closed as failed. */
  lemma TimeoutLeadsOn(s: State)
    requires s.pc.Cancelling? && Step(s, CancelsOver).Some?
    ensures Step(s, CancelsOver).value == s.(pc := match s.pc.scope
      case OneRun(run, Completing) => Draining(OneRun(run, Retrying), if run in s.inflight then s.inflight[run] else {})
      case OneRun(run, _) => Closing(run, false)
      case Everyone => ShuttingDown(false))
  {
  }

  /** The normal path is taken only from the first drain of an agent_end without failure, and without a timeout. */
  lemma NormalOnlyFromNormalEnd(s: State, e: Event, run: string)
    requires Step(s, e).Some?
    ensures var t := Step(s, e).value;
      && (t.pc == Closing(run, true) ==>
            s.pc == t.pc || (s.pc.Draining? && s.pc.scope == OneRun(run, Completing) && e == WaitDone))
      && (t.pc.Draining? && t.pc.scope == OneRun(run, Completing) ==> s.pc == t.pc || e == AgentEnd(run, false))
  {
    hide Busy;
  }

  // ---------------------------------------------------------------- runs that end stay ended

  /** The reading thread is ending this run: waiting for its calls, cancelling them, or closing it. */
  ghost predicate Ending(pc: Pc, run: string) {
    match pc
    case Draining(scope, _) => scope.OneRun? && scope.run == run
    case Cancelling(scope, _) => scope.OneRun? && scope.run == run
    case Closing(r, _) => r == run
    case Evicting(r, _) => r == run
    case _ => false
  }

  /** A run being ended goes on being ended, and reads no request, until it has neither session nor recorder. */
  lemma EndingForgets(s: State, e: Event, run: string)
    requires Ending(s.pc, run) && Step(s, e).Some?
    ensures var t := Step(s, e).value;
      && |t.calls| == |s.calls|
      && (Ending(t.pc, run) || (t.pc == Idle && run !in t.sessions && run !in t.recorders))
  {
    hide Busy;
  }

  /**
   agent_end of any outcome and abort_run, whole: over any later trace the run is still being ended, or
   it has no session; and every tool_call of the run read since is refused, until agent_start.
   */
  lemma {:induction false} EndedOrRefused(s: State, trace: seq<Event>, run: string)
    requires Ending(s.pc, run) && After(s, trace).Some? && NoRestart(trace, run)
    ensures var t := After(s, trace).value;
      && (Ending(t.pc, run) || run !in t.sessions)
      && (Ending(t.pc, run) && run in t.sessions ==> |t.calls| == |s.calls|)
      && |s.calls| <= |t.calls|
      && forall i | |s.calls| <= i < |t.calls| :: t.calls[i].run == run && !t.calls[i].invoke ==> t.calls[i].phase == Refused
  {
    hide Step, Ending;
    if trace != [] {
      var front, e := trace[..|trace| - 1], trace[|trace| - 1];
      assert e in trace && forall f | f in front :: f in trace;
      EndedOrRefused(s, front, run);
      var before := After(s, front).value;
      StepGoesForward(before, e);
      var after := Step(before, e).value;
      if run !in before.sessions {
        StepKeepsSessionsOut(before, e, run);
      } else {
        EndingForgets(before, e, run);
      }
      forall i | |s.calls| <= i < |after.calls| && after.calls[i].run == run && !after.calls[i].invoke
        ensures after.calls[i].phase == Refused
      {
        assert i < |before.calls| ==> Follows(before.calls[i], after.calls[i]);
      }
    }
  }

  lemma EndRequested(s: State, e: Event, run: string)
    requires (e == Abort(run) || e == AgentEnd(run, true) || e == AgentEnd(run, false)) && Step(s, e).Some?
    ensures Ending(Step(s, e).value.pc, run) && Step(s, e).value.calls == s.calls
  {
  }

  /** Once the reading thread is idle again after an abort or an end, no tool_call of the run is accepted. */
  lemma EndedRunIsRefused(s: State, e: Event, later: seq<Event>, run: string, i: CallId)
    requires e == Abort(run) || e == AgentEnd(run, true) || e == AgentEnd(run, false)
    requires After(s, [e] + later).Some? && NoRestart(later, run)
    ensures var t := After(s, [e] + later).value;
      && (t.pc == Idle ==> run !in t.sessions)
      && (|s.calls| <= i < |t.calls| && t.calls[i].run == run && !t.calls[i].invoke ==> t.calls[i].phase == Refused)
  {
    hide Step;
    AfterFirst(s, e, later);
    EndRequested(s, e, run);
    EndedOrRefused(Step(s, e).value, later, run);
  }

  // ---------------------------------------------------------------- accepting and starting calls

  /** A tool_call is accepted iff it is well formed and its run has a session; agent_start gives it one. */
  lemma AcceptedIff(s: State, run: string, ok: bool, opens: bool)
    requires s.pc == Idle
    ensures var t := Step(s, ToolCall(run, ok)).value;
      && |t.calls| == |s.calls| + 1
      && t.calls[|s.calls|].phase == (if ok && run in s.sessions then Queued else Refused)
      && t.calls[|s.calls|].run == run && !t.calls[|s.calls|].invoke
    ensures var t := Step(s, AgentStart(run, opens)).value;
      t.sessions == s.sessions + {run} && (opens ==> run in t.recorders) && t.calls == s.calls && t.pc == Idle
  {
  }

  /** The calls that hold a worker. */
  function BusyCalls(calls: seq<Call>): set<CallId> {
    set i: CallId | i < |calls| && (calls[i].phase == Running || calls[i].phase == Answered)
  }

  lemma {:induction false} BusyIsCount(calls: seq<Call>)
    ensures Busy(calls) == |BusyCalls(calls)|
  {
    if calls != [] {
      var n := |calls| - 1;
      BusyIsCount(calls[..n]);
      BusyCallsLast(calls);
    }
  }

  lemma BusyCallsLast(calls: seq<Call>)
    requires calls != []
    ensures var n := |calls| - 1;
      && n !in BusyCalls(calls[..n])
      && BusyCalls(calls) ==
         BusyCalls(calls[..n]) + if calls[n].phase == Running || calls[n].phase == Answered then {n} else {}
  {
  }

  /** Never more than four calls hold a worker, and a worker takes the oldest queued call when fewer do. */
  lemma FourWorkers(s: State, call: CallId)
    requires Reachable(s)
    ensures |BusyCalls(s.calls)| <= 4
    ensures Step(s, Start(call)).Some? <==>
      && s.pc != Exited(false) && call < |s.calls| && s.calls[call].phase == Queued && |BusyCalls(s.calls)| < 4
      && forall i | 0 <= i < call :: s.calls[i].phase != Queued
    ensures Step(s, Start(call)).Some? ==>
      Step(s, Start(call)).value == s.(calls := s.calls[call := s.calls[call].(phase := Running)])
  {
    hide Counted, Hooked, Mapped, Drained, BusyCalls, Busy;
    ReachableInv(s);
    BusyIsCount(s.calls);
  }
}
