/** The bridge's shared state, updated in place one atomic action at a time (scripts/pi_bridge.py). */
module Bridge {
  import opened Wrappers
  import opened BridgeProtocol
  import opened BridgeSafety

  class Bridge {
    var calls: seq<Call>
    var inflight: map<string, set<CallId>>
    var sessions: set<string>
    var recorders: set<string>
    var pc: Pc

    function View(): State
      reads this
    {
      State(calls, inflight, sessions, recorders, pc)
    }

    /** Some interleaving leads here, so everything that BridgeSafety proves holds of this object. */
    ghost predicate Valid()
      reads this
    {
      Reachable(View())
    }

    constructor ()
      ensures View() == START && Valid()
    {
      calls, inflight, sessions, recorders, pc := [], map[], {}, {}, Idle;
      StartIsReachable();
    }

    /** Validate a tool_call and submit it; a malformed one or one of an unknown run is refused. */
    method HandleToolCall(run: string, wellFormed: bool) returns (call: CallId)
      requires Valid() && pc == Idle
      modifies this`calls, this`pc
      ensures Valid()
      ensures Some(View()) == Step(old(View()), ToolCall(run, wellFormed))
      ensures call == |old(calls)| && (pc == Tracking(call) <==> wellFormed && run in sessions)
    {
      hide Reachable, Busy;
      ghost var before := View();
      call := |calls|;
      if !wellFormed || run !in sessions {
        calls := calls + [Call(run, false, Refused, Unhooked, 0)];
        pc := Replying(call);
        StepReaches(before, ToolCall(run, wellFormed));
        return;
      }
      calls := calls + [Call(run, false, Queued, Unhooked, 0)];
      pc := Tracking(call);
      StepReaches(before, ToolCall(run, wellFormed));
    }

    /** setdefault(run, set()).add(future) */
    method Track()
      requires Valid() && pc.Tracking?
      modifies this`inflight, this`pc
      ensures Valid()
      ensures Some(View()) == Step(old(View()), BridgeProtocol.Track)
    {
      hide Reachable, Busy;
      ghost var before := View();
      PcInRange(before);
      var run := calls[pc.call].run;
      if run !in inflight {
        inflight := inflight[run := {}];
      }
      inflight := inflight[run := inflight[run] + {pc.call}];
      assert inflight == Tracked(old(inflight), run, pc.call);
      pc := Hooking(pc.call);
      StepReaches(before, BridgeProtocol.Track);
    }

    /** A callback on a future that is already done is due at once. */
    method AddDoneCallback()
      requires Valid() && pc.Hooking?
      modifies this`calls, this`pc
      ensures Valid()
      ensures Some(View()) == Step(old(View()), Hook)
    {
      hide Reachable, Busy;
      ghost var before := View();
      PcInRange(before);
      var c := calls[pc.call];
      calls := calls[pc.call := c.(hook := if c.Over() then Due else Attached)];
      pc := Idle;
      StepReaches(before, Hook);
    }

    /** Discard the future; a run without futures leaves the map. */
    method Untrack(call: CallId)
      requires Valid() && pc != Exited(false) && call < |calls| && calls[call].hook == Due
      modifies this`calls, this`inflight
      ensures Valid()
      ensures Some(View()) == Step(old(View()), BridgeProtocol.Untrack(call))
    {
      hide Reachable, Busy;
      ghost var before := View();
      var run := calls[call].run;
      calls := calls[call := calls[call].(hook := Gone)];
      if run !in inflight {
        StepReaches(before, BridgeProtocol.Untrack(call));
        return;
      }
      var pending := inflight[run] - {call};
      if pending == {} {
        inflight := inflight - {run};
      } else {
        inflight := inflight[run := pending];
      }
      StepReaches(before, BridgeProtocol.Untrack(call));
    }

    /** All tracked futures, run by run. */
    method GatherFutures() returns (futures: set<CallId>)
      ensures futures == AllFutures(inflight)
    {
      futures := {};
      var left := inflight.Keys;
      while left != {}
        invariant left <= inflight.Keys
        invariant futures == set r, c | r in inflight && r !in left && c in inflight[r] :: c
        decreases |left|
      {
        var run :| run in left;
        futures := futures + inflight[run];
        left := left - {run};
      }
    }

    method AgentStart(run: string, opens: bool)
      requires Valid() && pc == Idle
      modifies this`sessions, this`recorders
      ensures Valid()
      ensures Some(View()) == Step(old(View()), BridgeProtocol.AgentStart(run, opens))
    {
      hide Reachable, Busy;
      ghost var before := View();
      sessions := sessions + {run};
      if opens {
        recorders := recorders + {run};
      }
      assert recorders == old(recorders) + if opens then {run} else {};
      StepReaches(before, BridgeProtocol.AgentStart(run, opens));
    }

    /** agent_end, abort_run and the end of input begin by waiting for the tracked futures. */
    method AgentEnd(run: string, failed: bool)
      requires Valid() && pc == Idle
      modifies this`pc
      ensures Valid()
      ensures Some(View()) == Step(old(View()), BridgeProtocol.AgentEnd(run, failed))
    {
      hide Reachable, Busy;
      ghost var before := View();
      pc := Draining(OneRun(run, if failed then Failing else Completing), Futures(inflight, run));
      StepReaches(before, BridgeProtocol.AgentEnd(run, failed));
    }

    method AtEndOfInput()
      requires Valid() && pc == Idle
      modifies this`pc
      ensures Valid()
      ensures Some(View()) == Step(old(View()), EndOfInput)
    {
      hide Reachable, Busy;
      ghost var before := View();
      var futures := GatherFutures();
      pc := Draining(Everyone, futures);
      StepReaches(before, EndOfInput);
    }

    /** The wait returned: what is not done is to be cancelled. */
    method Waited(notDone: set<CallId>)
      requires Valid() && pc.Draining? && notDone <= pc.waited && DoneAll(View(), pc.waited - notDone)
      modifies this`pc
      ensures Valid()
      ensures Some(View()) == Step(old(View()), if notDone == {} then WaitDone else WaitTimeout(notDone))
    {
      hide Reachable, Busy;
      ghost var before := View();
      if notDone == {} {
        assert pc.waited - notDone == pc.waited;
        pc := AfterDrain(View(), pc.scope, false);
      } else {
        pc := Cancelling(pc.scope, notDone);
      }
      StepReaches(before, if notDone == {} then WaitDone else WaitTimeout(notDone));
    }

    /** Future.cancel: only a queued call is cancelled. */
    method CancelFuture(call: CallId) returns (cancelled: bool)
      requires Valid() && pc.Cancelling? && call in pc.left
      modifies this`calls, this`pc
      ensures Valid()
      ensures Some(View()) == Step(old(View()), Cancel(call))
      ensures cancelled == (old(calls[call].phase) == Queued)
    {
      hide Reachable, Busy;
      ghost var before := View();
      PcInRange(before);
      cancelled := calls[call].phase == Queued;
      var c := if cancelled then calls[call].(phase := Cancelled(pc.scope.Everyone?), hook := Due) else calls[call];
      calls := calls[call := c];
      pc := Cancelling(pc.scope, pc.left - {call});
      StepReaches(before, Cancel(call));
    }

    /** Close the run's recorder: on the normal path none of its calls is queued or running any more. */
    method CloseRecorder()
      requires Valid() && pc.Closing?
      modifies this`pc
      ensures Valid()
      ensures Some(View()) == Step(old(View()), Close)
      ensures old(pc.normal) ==> forall c | c in calls && c.Tool() && c.run == old(pc.run) :: c.Over()
    {
      hide Reachable, Busy, Call.Tool, Call.Over;
      ghost var before := View();
      if pc.normal {
        forall c | c in calls && c.Tool() && c.run == pc.run
          ensures c.Over()
        {
          var i :| 0 <= i < |calls| && calls[i] == c;
          ClosesAfterItsCalls(before, pc.run, i);
        }
      }
      pc := Evicting(pc.run, pc.normal);
      StepReaches(before, Close);
    }

    /** Drop the run's session and recorder. */
    method EvictRun()
      requires Valid() && pc.Evicting?
      modifies this`sessions, this`recorders, this`pc
      ensures Valid()
      ensures Some(View()) == Step(old(View()), Evict)
    {
      hide Reachable, Busy;
      ghost var before := View();
      sessions := sessions - {pc.run};
      recorders := recorders - {pc.run};
      pc := Idle;
      StepReaches(before, Evict);
    }

    /** Cancel what is queued and exit: a clean exit has answered or drained every tool_call. */
    method ShutdownExecutor() returns (clean: bool)
      requires Valid() && pc.ShuttingDown?
      modifies this`calls, this`pc
      ensures Valid()
      ensures Some(View()) == Step(old(View()), Shutdown) && clean == old(pc.clean)
      ensures clean ==> forall c | c in calls && c.Tool() :: c.responses == 1 || c.phase == Cancelled(false)
    {
      hide Reachable, Busy;
      ghost var before := View();
      clean := pc.clean;
      for i := 0 to |calls|
        invariant |calls| == |before.calls| && View() == before.(calls := calls)
        invariant forall k | 0 <= k < i :: calls[k] == ShutDown(before.calls[k])
        invariant forall k | i <= k < |calls| :: calls[k] == before.calls[k]
      {
        if calls[i].phase == Queued {
          calls := calls[i := calls[i].(phase := Cancelled(true))];
        }
      }
      pc := Exited(clean);
      assert calls == Step(before, Shutdown).value.calls;
      StepReaches(before, Shutdown);
      if clean {
        forall c | c in calls && c.Tool()
          ensures c.responses == 1 || c.phase == Cancelled(false)
        {
          var i :| 0 <= i < |calls| && calls[i] == c;
          CleanExitLosesNoToolCall(View(), i);
        }
      }
    }

    /** A free worker takes the oldest queued call. */
    method TakeWork() returns (taken: Option<CallId>)
      requires Valid() && pc != Exited(false)
      modifies this`calls
      ensures Valid()
      ensures taken.Some? ==> Some(View()) == Step(old(View()), Start(taken.value))
      ensures taken.None? ==> View() == old(View())
      ensures taken.None? <==> Busy(old(calls)) >= WORKERS || forall c | c in old(calls) :: c.phase != Queued
    {
      hide Reachable;
      ghost var before := View();
      if Busy(calls) >= WORKERS {
        return None;
      }
      for i := 0 to |calls|
        invariant View() == before
        invariant forall k | 0 <= k < i :: calls[k].phase != Queued
      {
        if calls[i].phase == Queued {
          calls := calls[i := calls[i].(phase := Running)];
          StepReaches(before, Start(i));
          return Some(i);
        }
      }
      return None;
    }

    /** The worker writes its one response, then its future is done. */
    method WriteResponse(call: CallId)
      requires Valid() && pc != Exited(false) && call < |calls| && calls[call].phase == Running
      modifies this`calls
      ensures Valid()
      ensures Some(View()) == Step(old(View()), Answer(call))
    {
      hide Reachable, Busy;
      ghost var before := View();
      calls := calls[call := calls[call].(phase := Answered, responses := calls[call].responses + 1)];
      StepReaches(before, Answer(call));
    }

    method CompleteFuture(call: CallId)
      requires Valid() && pc != Exited(false) && call < |calls| && calls[call].phase == Answered
      modifies this`calls
      ensures Valid()
      ensures Some(View()) == Step(old(View()), Finish(call))
    {
      hide Reachable, Busy;
      ghost var before := View();
      var c := calls[call].(phase := Finished);
      if c.hook == Attached {
        c := c.(hook := Due);
      }
      calls := calls[call := c];
      StepReaches(before, Finish(call));
    }
  }

  lemma StartIsReachable()
    ensures Reachable(START)
  {
    assert After(START, []) == Some(START);
  }

  lemma StepReaches(s: State, e: Event)
    requires Reachable(s) && Step(s, e).Some?
    ensures Reachable(Step(s, e).value)
  {
    hide Step;
    var trace :| After(START, trace) == Some(s);
    AfterSnoc(trace, e);
  }

  lemma PcInRange(s: State)
    requires Reachable(s)
    ensures PcSound(s)
  {
    ReachableInv(s);
  }

  // ---------------------------------------------------------------- research ids staged by calls

  /** A validated call: no job without a session. */
  datatype Staged = Staged(session: Option<string>, job: Option<string>)
  {
    predicate Valid() {
      session.None? ==> job.None?
    }
  }

  class Session {
    var activeSession: Option<string>
    var activeJob: Option<string>

    /** Apply the call's own ids, if any; what the call captures is the pair now active. */
    method Stage(ids: Staged) returns (captured: Staged)
      modifies this
      ensures captured == Staged(activeSession, activeJob)
      ensures activeSession == if ids.session.Some? then ids.session else old(activeSession)
      ensures activeJob == if ids.session.Some? || ids.job.Some? then ids.job else old(activeJob)
      ensures captured == StagedAfter(Staged(old(activeSession), old(activeJob)), [ids])
    {
      if ids.session.Some? {
        activeSession := ids.session;
        activeJob := ids.job;
      } else if ids.job.Some? {
        activeJob := ids.job;
      }
      captured := Staged(activeSession, activeJob);
      assert [ids][..0] == [];
    }
  }

  /** The active pair after calls staged in this order, by whatever workers. */
  function StagedAfter(before: Staged, calls: seq<Staged>): Staged {
    if calls == [] then before
    else
      var last := calls[|calls| - 1];
      var active := StagedAfter(before, calls[..|calls| - 1]);
      if last.session.Some? then last
      else if last.job.Some? then active.(job := last.job)
      else active
  }

  /** A captured pair was given by one call, whole: ids of different calls are never mixed. */
  lemma {:induction false} PairsAreNeverMixed(before: Staged, calls: seq<Staged>)
    requires forall c | c in calls :: c.Valid()
    ensures StagedAfter(before, calls) == before || StagedAfter(before, calls) in calls
    ensures calls != [] && calls[|calls| - 1].session.Some? ==> StagedAfter(before, calls) == calls[|calls| - 1]
  {
    if calls != [] {
      assert calls[|calls| - 1] in calls;
      PairsAreNeverMixed(before, calls[..|calls| - 1]);
    }
  }
}
