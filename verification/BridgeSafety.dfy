/** What every interleaving of the bridge guarantees (scripts/pi_bridge.py). */
module BridgeSafety {
  import opened Wrappers
  import opened BridgeProtocol

  /** A state that some trace reaches. */
  ghost predicate Reachable(s: State) {
    exists trace :: After(START, trace) == Some(s)
  }

  lemma ReachableInv(s: State)
    requires Reachable(s)
    ensures Inv(s)
  {
    hide Inv, After;
    var trace :| After(START, trace) == Some(s);
    InvAlways(trace);
  }

  // ---------------------------------------------------------------- the end of a run

  /** On the normal path, when a run's recorder is closed no tool call of the run is queued or running. */
  lemma ClosesAfterItsCalls(s: State, run: string, i: CallId)
    requires Reachable(s) && s.pc == Closing(run, true)
    requires i < |s.calls| && s.calls[i].run == run && s.calls[i].Tool()
    ensures s.calls[i].Over()
  {
    hide Counted, Hooked, Mapped;
    ReachableInv(s);
    assert Drained(s, i);
  }

  ghost predicate NoRestart(trace: seq<Event>, run: string) {
    forall e | e in trace :: e.AgentStart? ==> e.run != run
  }

  lemma StepKeepsSessionsOut(s: State, e: Event, run: string)
    requires Step(s, e).Some? && run !in s.sessions && (e.AgentStart? ==> e.run != run)
    ensures run !in Step(s, e).value.sessions
  {
    hide AfterDrain, Busy;
  }

  function Rank(phase: Phase): nat {
    match phase
    case Refused => 0
    case Queued => 0
    case Running => 1
    case Answered => 2
    case Finished => 3
    case Cancelled(_) => 3
  }

  /** A call goes forward only: a refused one is never submitted, and only a queued one is cancelled. */
  predicate Follows(c: Call, d: Call) {
    && d.run == c.run && d.invoke == c.invoke && (d.phase == Refused <==> c.phase == Refused)
    && Rank(c.phase) <= Rank(d.phase) && c.responses <= d.responses
    && (d.phase.Cancelled? ==> c.phase == Queued || c.phase == d.phase)
    && (c.Over() ==> d.phase == c.phase && d.responses == c.responses)
  }

  lemma StepGoesForward(s: State, e: Event)
    requires Step(s, e).Some?
    ensures var t := Step(s, e).value;
      && |s.calls| <= |t.calls| <= |s.calls| + 1
      && (forall i | 0 <= i < |s.calls| :: Follows(s.calls[i], t.calls[i]))
      && (|t.calls| > |s.calls| ==> var c := t.calls[|s.calls|];
            c.run !in s.sessions && !c.invoke ==> c.phase == Refused)
  {
    hide AfterDrain, Busy;
  }

  /** Over any trace, of any threads' events, every call goes forward only. */
  lemma {:induction false} CallsGoForward(s: State, trace: seq<Event>)
    requires After(s, trace).Some?
    ensures var t := After(s, trace).value;
      |s.calls| <= |t.calls| && forall i | 0 <= i < |s.calls| :: Follows(s.calls[i], t.calls[i])
  {
    hide Step;
    if trace != [] {
      var front := trace[..|trace| - 1];
      CallsGoForward(s, front);
      StepGoesForward(After(s, front).value, trace[|trace| - 1]);
    }
  }

  /** While a run has no session and is not started again, each of its tool calls is refused. */
  lemma {:induction false} RefusedUntilRestart(s: State, trace: seq<Event>, run: string)
    requires After(s, trace).Some? && run !in s.sessions && NoRestart(trace, run)
    ensures var t := After(s, trace).value;
      && run !in t.sessions && |s.calls| <= |t.calls|
      && forall i | |s.calls| <= i < |t.calls| :: t.calls[i].run == run && !t.calls[i].invoke ==> t.calls[i].phase == Refused
  {
    hide Step;
    if trace != [] {
      var front, e := trace[..|trace| - 1], trace[|trace| - 1];
      assert e in trace && forall f | f in front :: f in trace;
      RefusedUntilRestart(s, front, run);
      var before := After(s, front).value;
      StepKeepsSessionsOut(before, e, run);
      StepGoesForward(before, e);
      var after := Step(before, e).value;
      forall i | |s.calls| <= i < |after.calls| && after.calls[i].run == run && !after.calls[i].invoke
        ensures after.calls[i].phase == Refused
      {
        assert i < |before.calls| ==> Follows(before.calls[i], after.calls[i]);
      }
    }
  }

  /**
   agent_end, whole: at closing by the normal path the run's calls are over; once evicted, they still
   are and every later tool_call of the run is refused, until agent_start.
   */
  lemma EndedRunStaysEnded(s: State, later: seq<Event>, run: string, i: CallId)
    requires Reachable(s) && s.pc == Evicting(run, true)
    requires After(s, [Evict] + later).Some? && NoRestart(later, run)
    requires var t := After(s, [Evict] + later).value;
      i < |t.calls| && t.calls[i].run == run && !t.calls[i].invoke
    ensures var c := After(s, [Evict] + later).value.calls[i];
      if i < |s.calls| then c.phase == Refused || c.Over() else c.phase == Refused
  {
    hide Counted, Hooked, Mapped, Step;
    ReachableInv(s);
    assert i < |s.calls| ==> Drained(s, i);
    var gone := Step(s, Evict);
    AfterFirst(s, Evict, later);
    EvictForgets(s);
    RefusedUntilRestart(gone.value, later, run);
    CallsGoForward(gone.value, later);
  }

  lemma EvictForgets(s: State)
    requires s.pc.Evicting?
    ensures Step(s, Evict).Some?
    ensures var t := Step(s, Evict).value;
      s.pc.run !in t.sessions && s.pc.run !in t.recorders && t.pc == Idle && t.calls == s.calls
  {
  }

  lemma {:induction false} AfterFirst(s: State, e: Event, rest: seq<Event>)
    requires After(s, [e] + rest).Some?
    ensures Step(s, e).Some? && After(s, [e] + rest) == After(Step(s, e).value, rest)
  {
    hide Step;
    if rest == [] {
      assert [e] + rest == [e] && [e][..0] == [];
      assert After(s, []) == Some(s);
    } else {
      assert ([e] + rest)[..|rest|] == [e] + rest[..|rest| - 1];
      AfterFirst(s, e, rest[..|rest| - 1]);
    }
  }

  // ---------------------------------------------------------------- responses

  /**
   At most one response to every request: exactly one once its worker finishes, or once its refusal
   is written; none to a cancelled one.
   */
  lemma OneResponse(s: State, i: CallId)
    requires Reachable(s) && i < |s.calls|
    ensures s.calls[i].responses <= 1
    ensures s.calls[i].phase == Finished ==> s.calls[i].responses == 1
    ensures s.calls[i].phase == Refused && s.pc != Replying(i) ==> s.calls[i].responses == 1
    ensures s.calls[i].phase.Cancelled? ==> s.calls[i].responses == 0
  {
    hide Drained, Hooked, Mapped;
    ReachableInv(s);
    assert Counted(s, i);
  }

  lemma StepCancels(s: State, e: Event, i: CallId)
    requires Step(s, e).Some? && i < |s.calls| && !s.calls[i].phase.Cancelled?
    requires i < |Step(s, e).value.calls| && Step(s, e).value.calls[i].phase.Cancelled?
    ensures e == Shutdown || (e == Cancel(i) && s.pc.Cancelling?)
  {
    hide AfterDrain, Busy;
  }

  lemma StepToCancelling(s: State, e: Event)
    requires Step(s, e).Some? && Step(s, e).value.pc.Cancelling?
    ensures s.pc.Cancelling? || e.WaitTimeout?
    ensures forall c | c in Step(s, e).value.calls[|s.calls|..] :: !c.phase.Cancelled?
  {
    hide Busy;
  }

  lemma StepAddsLive(s: State, e: Event)
    requires Step(s, e).Some? && |Step(s, e).value.calls| > |s.calls|
    ensures !Step(s, e).value.calls[|s.calls|].phase.Cancelled?
  {
    hide Busy, AfterDrain;
  }

  /** No call goes without its response unless a drain timed out or the bridge shut down. */
  lemma {:induction false} OnlyTimeoutsCancel(trace: seq<Event>)
    requires After(START, trace).Some?
    requires forall e | e in trace :: !e.WaitTimeout? && e != Shutdown
    ensures var s := After(START, trace).value;
      !s.pc.Cancelling? && forall i | 0 <= i < |s.calls| :: !s.calls[i].phase.Cancelled?
  {
    hide Step;
    if trace != [] {
      var front, e := trace[..|trace| - 1], trace[|trace| - 1];
      assert e in trace && forall f | f in front :: f in trace;
      OnlyTimeoutsCancel(front);
      var s := After(START, front).value;
      var t := Step(s, e).value;
      StepGoesForward(s, e);
      if t.pc.Cancelling? {
        StepToCancelling(s, e);
      }
      forall i | 0 <= i < |t.calls|
        ensures !t.calls[i].phase.Cancelled?
      {
        if i >= |s.calls| {
          StepAddsLive(s, e);
        } else if t.calls[i].phase.Cancelled? {
          StepCancels(s, e, i);
        }
      }
    }
  }

  // ---------------------------------------------------------------- the map of futures

  /** Every unfinished accepted tool_call is in the map (or is being put there); the map has no empty set. */
  lemma InflightCoversUnfinished(s: State, i: CallId)
    requires Reachable(s) && i < |s.calls| && s.calls[i].Tool() && s.calls[i].Unfinished()
    ensures s.pc == Tracking(i) || i in Futures(s.inflight, s.calls[i].run)
    ensures forall r | r in s.inflight :: s.inflight[r] != {}
  {
    hide Counted, Drained;
    ReachableInv(s);
    assert Hooked(s, i) && Mapped(s, i);
  }

  /** When all calls are over and all callbacks have run, the map is empty again. */
  lemma QuietMapIsEmpty(s: State)
    requires Reachable(s) && forall c | c in s.calls :: c.Tool() ==> c.hook == Gone
    ensures s.inflight == map[]
  {
    hide Counted, Drained, Hooked;
    ReachableInv(s);
    forall i | 0 <= i < |s.calls|
      ensures i !in Futures(s.inflight, s.calls[i].run)
    {
      assert Mapped(s, i) && s.calls[i] in s.calls;
    }
    assert s.inflight.Keys == {};
  }

  // ---------------------------------------------------------------- the end of input

  /** A clean exit loses no tool_call: each is answered, or was cancelled earlier by a drain of its own run. */
  lemma CleanExitLosesNoToolCall(s: State, i: CallId)
    requires Reachable(s) && s.pc == Exited(true)
    requires i < |s.calls| && s.calls[i].Tool()
    ensures (s.calls[i].phase == Finished && s.calls[i].responses == 1) || s.calls[i].phase == Cancelled(false)
  {
    hide Hooked, Mapped;
    ReachableInv(s);
    assert Counted(s, i) && Drained(s, i);
  }

  /** Which requests shutdown drops: exactly the queued ones, and those are invokes. */
  lemma ShutdownDropsQueued(s: State, i: CallId)
    requires Reachable(s) && s.pc.ShuttingDown? && i < |s.calls| && !s.calls[i].phase.Cancelled?
    ensures Step(s, Shutdown).Some? && Step(s, Shutdown).value.calls[i].phase.Cancelled? <==> s.calls[i].phase == Queued
    ensures s.calls[i].phase == Queued ==> s.calls[i].invoke
  {
    hide Hooked, Mapped, Busy;
    ReachableInv(s);
    assert Drained(s, i) && Counted(s, i);
  }

  /** A dropped request never gets a response, whatever the workers still do. */
  lemma DroppedForGood(s: State, later: seq<Event>, i: CallId)
    requires Reachable(s) && s.pc.ShuttingDown? && i < |s.calls| && s.calls[i].phase == Queued
    requires After(s, [Shutdown] + later).Some?
    ensures var t := After(s, [Shutdown] + later).value;
      i < |t.calls| && t.calls[i].phase == Cancelled(true) && t.calls[i].responses == 0
  {
    hide Hooked, Mapped, Step;
    ReachableInv(s);
    assert Counted(s, i);
    AfterFirst(s, Shutdown, later);
    ShutdownStep(s, i);
    CallsGoForward(Step(s, Shutdown).value, later);
  }

  lemma ShutdownStep(s: State, i: CallId)
    requires s.pc.ShuttingDown? && i < |s.calls|
    ensures Step(s, Shutdown).Some? && |Step(s, Shutdown).value.calls| == |s.calls|
    ensures Step(s, Shutdown).value.calls[i] == ShutDown(s.calls[i])
    ensures Step(s, Shutdown).value.pc == Exited(s.pc.clean)
  {
  }

  /**
   Exactly when a clean end of input leaves every request that is not already cancelled to a
   response: no invoke is queued when the bridge shuts down.
   */
  lemma CleanExitAnswersAll(s: State)
    requires Reachable(s) && s.pc == ShuttingDown(true)
    ensures (forall i | 0 <= i < |s.calls| && !s.calls[i].phase.Cancelled? ::
               Step(s, Shutdown).Some? && !Step(s, Shutdown).value.calls[i].phase.Cancelled?) <==>
            !exists i | 0 <= i < |s.calls| :: s.calls[i].invoke && s.calls[i].phase == Queued
  {
    hide Step, Inv;
    forall i | 0 <= i < |s.calls| && !s.calls[i].phase.Cancelled?
      ensures Step(s, Shutdown).Some? && |Step(s, Shutdown).value.calls| == |s.calls|
      ensures Step(s, Shutdown).value.calls[i].phase.Cancelled? <==> s.calls[i].phase == Queued && s.calls[i].invoke
    {
      ShutdownDropsQueued(s, i);
      ShutdownStep(s, i);
    }
  }

  /** A queued tool.invoke is lost at the end of input, and the exit is still called clean. */
  lemma QueuedInvokeIsLost()
    ensures exists s :: Reachable(s) && s.pc == Exited(true) && s.calls == [Call("", true, Cancelled(true), Unhooked, 0)]
  {
    hide Step, Inv;
    var queued := START.(calls := [Call("", true, Queued, Unhooked, 0)]);
    var lost := queued.(calls := [Call("", true, Cancelled(true), Unhooked, 0)], pc := Exited(true));
    LosingSteps(queued, lost);
    assert After(START, []) == Some(START);
    AfterSnoc([], Invoke);
    AfterSnoc([Invoke], EndOfInput);
    AfterSnoc([Invoke, EndOfInput], WaitDone);
    AfterSnoc([Invoke, EndOfInput, WaitDone], Shutdown);
    assert Reachable(lost);
  }

  lemma AfterSnoc(trace: seq<Event>, e: Event)
    requires After(START, trace).Some?
    ensures After(START, trace + [e]) == Step(After(START, trace).value, e)
  {
    hide Step;
    assert (trace + [e])[..|trace|] == trace;
  }

  lemma LosingSteps(queued: State, lost: State)
    requires queued == START.(calls := [Call("", true, Queued, Unhooked, 0)])
    requires lost == queued.(calls := [Call("", true, Cancelled(true), Unhooked, 0)], pc := Exited(true))
    ensures Step(START, Invoke) == Some(queued)
    ensures Step(queued, EndOfInput) == Some(queued.(pc := Draining(Everyone, {})))
    ensures Step(queued.(pc := Draining(Everyone, {})), WaitDone) == Some(queued.(pc := ShuttingDown(true)))
    ensures Step(queued.(pc := ShuttingDown(true)), Shutdown) == Some(lost)
  {
    hide Busy;
    assert AllFutures(map[]) == {};
    assert [] + queued.calls == queued.calls;
    assert seq(|queued.calls|, i requires 0 <= i < |queued.calls| => ShutDown(queued.calls[i])) == lost.calls;
  }

  // ---------------------------------------------------------------- progress

  /** The reading thread is never stuck before it exits: some event of its own can happen. */
  lemma NeverStuck(s: State) returns (e: Event)
    requires Reachable(s) && !s.pc.Exited?
    ensures Step(s, e).Some?
  {
    hide Busy, AfterDrain;
    ReachableInv(s);
    match s.pc
    case Idle => e := EndOfInput;
    case Replying(_) => e := Reply;
    case Tracking(_) => e := Track;
    case Hooking(_) => e := Hook;
    case Draining(_, waited) =>
      var notDone := set c | c in waited && c < |s.calls| && !s.calls[c].Over();
      e := if notDone == {} then WaitDone else WaitTimeout(notDone);
      assert forall c | c in waited && c < |s.calls| :: c in notDone || s.calls[c].Over();
    case Cancelling(_, left) =>
      if c :| c in left {
        e := Cancel(c);
      } else if i :| 0 <= i < |s.calls| && s.calls[i].phase.Cancelled? && s.calls[i].hook == Due {
        e := Untrack(i);
      } else {
        e := CancelsOver;
      }
    case Closing(_, _) => e := Close;
    case Evicting(_, _) => e := Evict;
    case ShuttingDown(_) => e := Shutdown;
  }
}
