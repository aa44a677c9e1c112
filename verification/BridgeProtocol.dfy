/**
 The bridge's run protocol (scripts/pi_bridge.py): one thread reads requests, four workers run calls,
 and run state is shared. An event is one atomic action of one thread; a trace is any interleaving.
 */
module BridgeProtocol {
  import opened Wrappers

  type CallId = nat

  const WORKERS: nat := 4

  /** Answered: the response is written, the future is not done yet. */
  datatype Phase = Refused | Queued | Running | Answered | Finished | Cancelled(final: bool)

  /** The done-callback that forgets the future: not attached, attached, to be run, has run. */
  datatype Hook = Unhooked | Attached | Due | Gone

  datatype Call = Call(run: string, invoke: bool, phase: Phase, hook: Hook, responses: nat)
  {
    predicate Unfinished() {
      phase == Queued || phase == Running || phase == Answered
    }

    predicate Over() {
      phase == Finished || phase.Cancelled?
    }

    /** An accepted tool_call: its future is tracked. A tool.invoke future is not. */
    predicate Tool() {
      !invoke && phase != Refused
    }
  }

  datatype Why = Completing | Failing | Retrying | Aborting

  datatype Scope = OneRun(run: string, why: Why) | Everyone
  {
    predicate Covers(c: Call) {
      c.Tool() && (OneRun? ==> c.run == run)
    }
  }

  /** Where the reading thread stands. */
  datatype Pc =
    | Idle
    | Replying(call: CallId)
    | Tracking(call: CallId)
    | Hooking(call: CallId)
    | Draining(scope: Scope, waited: set<CallId>)
    | Cancelling(scope: Scope, left: set<CallId>)
    | Closing(run: string, normal: bool)
    | Evicting(run: string, normal: bool)
    | ShuttingDown(clean: bool)
    | Exited(clean: bool)

  datatype State = State(
    calls: seq<Call>,
    inflight: map<string, set<CallId>>,
    sessions: set<string>,
    recorders: set<string>,
    pc: Pc)

  const START := State([], map[], {}, {}, Idle)

  datatype Event =
    // requests read from stdin
    | ToolCall(run: string, wellFormed: bool)
    | Invoke
    | AgentStart(run: string, opens: bool)
    | Observe(run: string, opens: bool)
    | AgentEnd(run: string, failed: bool)
    | Abort(run: string)
    | EndOfInput
    // the reading thread going on
    | Reply
    | Track
    | Hook
    | WaitDone
    | WaitTimeout(notDone: set<CallId>)
    | Cancel(call: CallId)
    | CancelsOver
    | Close
    | Evict
    | Shutdown
    // workers
    | Start(call: CallId)
    | Answer(call: CallId)
    | Finish(call: CallId)
    | Untrack(call: CallId)

  // ---------------------------------------------------------------- the shared maps

  function Futures(inflight: map<string, set<CallId>>, run: string): set<CallId> {
    if run in inflight then inflight[run] else {}
  }

  function AllFutures(inflight: map<string, set<CallId>>): set<CallId> {
    set r, c | r in inflight && c in inflight[r] :: c
  }

  function Tracked(inflight: map<string, set<CallId>>, run: string, call: CallId): map<string, set<CallId>> {
    inflight[run := Futures(inflight, run) + {call}]
  }

  function Untracked(inflight: map<string, set<CallId>>, run: string, call: CallId): map<string, set<CallId>> {
    if run !in inflight then inflight
    else if inflight[run] - {call} == {} then inflight - {run}
    else inflight[run := inflight[run] - {call}]
  }

  function ScopeFutures(s: State, scope: Scope): set<CallId> {
    match scope
    case OneRun(run, _) => Futures(s.inflight, run)
    case Everyone => AllFutures(s.inflight)
  }

  function Busy(calls: seq<Call>): nat {
    if calls == [] then 0
    else
      var last := calls[|calls| - 1];
      Busy(calls[..|calls| - 1]) + (if last.phase == Running || last.phase == Answered then 1 else 0)
  }

  // ---------------------------------------------------------------- steps

  function With(s: State, call: CallId, c: Call): State
    requires call < |s.calls|
  {
    s.(calls := s.calls[call := c])
  }

  /** After a drain: a completing run that timed out is drained once more and then torn down. */
  function AfterDrain(s: State, scope: Scope, timedOut: bool): Pc {
    match scope
    case OneRun(run, Completing) =>
      if timedOut then Draining(OneRun(run, Retrying), Futures(s.inflight, run)) else Closing(run, true)
    case OneRun(run, _) => Closing(run, false)
    case Everyone => ShuttingDown(!timedOut)
  }

  predicate DoneAll(s: State, waited: set<CallId>) {
    forall c | c in waited && c < |s.calls| :: s.calls[c].Over()
  }

  function OnRequest(s: State, e: Event): Option<State> {
    if s.pc != Idle then None
    else
      match e
      case ToolCall(run, wellFormed) =>
        var accepted := wellFormed && run in s.sessions;
        var call := Call(run, false, if accepted then Queued else Refused, Unhooked, 0);
        Some(s.(calls := s.calls + [call], pc := if accepted then Tracking(|s.calls|) else Replying(|s.calls|)))
      case Invoke => Some(s.(calls := s.calls + [Call("", true, Queued, Unhooked, 0)]))
      case AgentStart(run, opens) =>
        Some(s.(sessions := s.sessions + {run}, recorders := s.recorders + if opens then {run} else {}))
      case Observe(run, opens) => Some(s.(recorders := s.recorders + if opens then {run} else {}))
      case AgentEnd(run, failed) =>
        var scope := OneRun(run, if failed then Failing else Completing);
        Some(s.(pc := Draining(scope, ScopeFutures(s, scope))))
      case Abort(run) => Some(s.(pc := Draining(OneRun(run, Aborting), Futures(s.inflight, run))))
      case EndOfInput => Some(s.(pc := Draining(Everyone, AllFutures(s.inflight))))
      case _ => None
  }

  function OnMain(s: State, e: Event): Option<State> {
    match e
    case Reply =>
      if s.pc.Replying? && s.pc.call < |s.calls| && s.calls[s.pc.call].phase == Refused then
        var c := s.calls[s.pc.call];
        Some(With(s, s.pc.call, c.(responses := c.responses + 1)).(pc := Idle))
      else None
    case Track =>
      if s.pc.Tracking? && s.pc.call < |s.calls| then
        Some(s.(inflight := Tracked(s.inflight, s.calls[s.pc.call].run, s.pc.call), pc := Hooking(s.pc.call)))
      else None
    case Hook =>
      if s.pc.Hooking? && s.pc.call < |s.calls| then
        var c := s.calls[s.pc.call];
        Some(With(s, s.pc.call, c.(hook := if c.Over() then Due else Attached)).(pc := Idle))
      else None
    case WaitDone =>
      if s.pc.Draining? && DoneAll(s, s.pc.waited) then Some(s.(pc := AfterDrain(s, s.pc.scope, false))) else None
    case WaitTimeout(notDone) =>
      if s.pc.Draining? && notDone != {} && notDone <= s.pc.waited && DoneAll(s, s.pc.waited - notDone) then
        Some(s.(pc := Cancelling(s.pc.scope, notDone)))
      else None
    case Cancel(call) =>
      if s.pc.Cancelling? && call in s.pc.left && call < |s.calls| then
        var c := s.calls[call];
        var cancelled := if c.phase == Queued then c.(phase := Cancelled(s.pc.scope.Everyone?), hook := Due) else c;
        Some(With(s, call, cancelled).(pc := Cancelling(s.pc.scope, s.pc.left - {call})))
      else None
    case CancelsOver =>
      // a cancel runs its callbacks before it returns
      if s.pc.Cancelling? && s.pc.left == {} && (forall c | c in s.calls && c.phase.Cancelled? :: c.hook != Due) then
        Some(s.(pc := AfterDrain(s, s.pc.scope, true)))
      else None
    case Close => if s.pc.Closing? then Some(s.(pc := Evicting(s.pc.run, s.pc.normal))) else None
    case Evict =>
      if s.pc.Evicting? then
        Some(s.(sessions := s.sessions - {s.pc.run}, recorders := s.recorders - {s.pc.run}, pc := Idle))
      else None
    case Shutdown =>
      if s.pc.ShuttingDown? then
        Some(s.(calls := seq(|s.calls|, i requires 0 <= i < |s.calls| => ShutDown(s.calls[i])), pc := Exited(s.pc.clean)))
      else None
    case _ => None
  }

  /** Shutdown cancels what is still queued. */
  function ShutDown(c: Call): Call {
    if c.phase == Queued then c.(phase := Cancelled(true)) else c
  }

  /** Workers take calls first come, first served; an unclean exit stops them where they are. */
  function OnWorker(s: State, e: Event): Option<State> {
    if s.pc == Exited(false) then None
    else
      match e
      case Start(call) =>
        if call < |s.calls| && s.calls[call].phase == Queued && Busy(s.calls) < WORKERS &&
           (forall i | 0 <= i < call :: s.calls[i].phase != Queued) then
          Some(With(s, call, s.calls[call].(phase := Running)))
        else None
      case Answer(call) =>
        if call < |s.calls| && s.calls[call].phase == Running then
          Some(With(s, call, s.calls[call].(phase := Answered, responses := s.calls[call].responses + 1)))
        else None
      case Finish(call) =>
        if call < |s.calls| && s.calls[call].phase == Answered then
          var hook := if s.calls[call].hook == Attached then Due else s.calls[call].hook;
          Some(With(s, call, s.calls[call].(phase := Finished, hook := hook)))
        else None
      case Untrack(call) =>
        if call < |s.calls| && s.calls[call].hook == Due then
          Some(With(s, call, s.calls[call].(hook := Gone)).(inflight := Untracked(s.inflight, s.calls[call].run, call)))
        else None
      case _ => None
  }

  /** The state after an event; None when the event is not possible. */
  function Step(s: State, e: Event): Option<State> {
    match e
    case ToolCall(_, _) => OnRequest(s, e)
    case Invoke => OnRequest(s, e)
    case AgentStart(_, _) => OnRequest(s, e)
    case Observe(_, _) => OnRequest(s, e)
    case AgentEnd(_, _) => OnRequest(s, e)
    case Abort(_) => OnRequest(s, e)
    case EndOfInput => OnRequest(s, e)
    case Start(_) => OnWorker(s, e)
    case Answer(_) => OnWorker(s, e)
    case Finish(_) => OnWorker(s, e)
    case Untrack(_) => OnWorker(s, e)
    case _ => OnMain(s, e)
  }

  /** The state after a trace. */
  function After(s: State, trace: seq<Event>): Option<State> {
    if trace == [] then Some(s)
    else
      var before := After(s, trace[..|trace| - 1]);
      if before.None? then None else Step(before.value, trace[|trace| - 1])
  }

  // ---------------------------------------------------------------- the invariant

  /** Responses so far are those the phase allows. */
  predicate Counted(s: State, i: CallId)
    requires i < |s.calls|
  {
    var c := s.calls[i];
    match c.phase
    case Refused => !c.invoke && c.hook == Unhooked && c.responses == if s.pc == Replying(i) then 0 else 1
    case Queued => c.responses == 0
    case Running => c.responses == 0
    case Answered => c.responses == 1
    case Finished => c.responses == 1
    case Cancelled(final) => c.responses == 0 && (final && !c.invoke ==> FinalTimeout(s.pc))
  }

  /** The last drain timed out. */
  predicate FinalTimeout(pc: Pc) {
    (pc.Cancelling? && pc.scope == Everyone) || pc == ShuttingDown(false) || pc == Exited(false)
  }

  predicate Hooked(s: State, i: CallId)
    requires i < |s.calls|
  {
    var c := s.calls[i];
    && (!c.Tool() ==> c.hook == Unhooked && s.pc != Tracking(i) && s.pc != Hooking(i))
    && (c.Tool() ==> (c.hook == Unhooked <==> s.pc == Tracking(i) || s.pc == Hooking(i)))
    && (c.hook == Attached ==> c.Unfinished())
    && (c.hook == Due || c.hook == Gone ==> c.Over())
  }

  /** A future is in the map from tracking until its callback has run. */
  predicate Mapped(s: State, i: CallId)
    requires i < |s.calls|
  {
    var c := s.calls[i];
    i in Futures(s.inflight, c.run) <==> c.Tool() && s.pc != Tracking(i) && c.hook != Gone
  }

  predicate MapSound(s: State) {
    forall r | r in s.inflight ::
      s.inflight[r] != {} && forall i | i in s.inflight[r] :: i < |s.calls| && s.calls[i].run == r
  }

  /** What the reading thread knows about the calls it has drained. */
  predicate Drained(s: State, i: CallId)
    requires i < |s.calls|
  {
    var c := s.calls[i];
    match s.pc
    case Draining(scope, waited) => (scope.Covers(c) && c.Unfinished() ==> i in waited) && (i in waited ==> c.Tool())
    case Cancelling(scope, left) => (scope.Covers(c) && c.phase == Queued ==> i in left) && (i in left ==> c.Tool())
    case Closing(run, normal) => normal && c.Tool() && c.run == run ==> c.Over()
    case Evicting(run, normal) => normal && c.Tool() && c.run == run ==> c.Over()
    case ShuttingDown(clean) => c.Tool() ==> c.phase != Queued && (clean ==> c.Over())
    case Exited(clean) => c.phase != Queued && (clean && c.Tool() ==> c.Over())
    case _ => true
  }

  predicate PcSound(s: State) {
    match s.pc
    case Replying(i) => i < |s.calls| && s.calls[i].phase == Refused
    case Tracking(i) => i < |s.calls|
    case Hooking(i) => i < |s.calls|
    case Draining(_, waited) => forall i | i in waited :: i < |s.calls|
    case Cancelling(_, left) => forall i | i in left :: i < |s.calls|
    case _ => true
  }

  ghost predicate Inv(s: State) {
    && MapSound(s) && PcSound(s) && Busy(s.calls) <= WORKERS
    && (forall i | 0 <= i < |s.calls| :: Counted(s, i) && Hooked(s, i) && Mapped(s, i) && Drained(s, i))
  }

  lemma {:induction false} BusyUpdate(calls: seq<Call>, i: CallId, c: Call)
    requires i < |calls|
    ensures Busy(calls[i := c]) == Busy(calls)
      - (if calls[i].phase == Running || calls[i].phase == Answered then 1 else 0)
      + (if c.phase == Running || c.phase == Answered then 1 else 0)
  {
    var n := |calls| - 1;
    if i < n {
      BusyUpdate(calls[..n], i, c);
      assert calls[i := c][..n] == calls[..n][i := c];
    } else {
      assert calls[i := c][..n] == calls[..n];
    }
  }

  lemma {:induction false} BusySame(a: seq<Call>, b: seq<Call>)
    requires |a| == |b|
    requires forall i | 0 <= i < |a| ::
      (a[i].phase == Running || a[i].phase == Answered) == (b[i].phase == Running || b[i].phase == Answered)
    ensures Busy(a) == Busy(b)
  {
    if a != [] {
      BusySame(a[..|a| - 1], b[..|b| - 1]);
    }
  }

  /** A request added a call: an invoke, an accepted tool_call to be tracked, or a refused one to be answered. */
  predicate AddsCall(s: State, t: State, c: Call) {
    && s.pc == Idle && t == s.(calls := s.calls + [c], pc := t.pc)
    && c.hook == Unhooked && c.responses == 0
    && (|| (c.invoke && c.phase == Queued && t.pc == Idle)
        || (!c.invoke && c.phase == Queued && t.pc == Tracking(|s.calls|))
        || (!c.invoke && c.phase == Refused && t.pc == Replying(|s.calls|)))
  }

  lemma OldCallStays(s: State, t: State, c: Call, i: CallId)
    requires Inv(s) && AddsCall(s, t, c) && i < |s.calls|
    ensures Counted(t, i) && Hooked(t, i) && Mapped(t, i) && Drained(t, i)
  {
    hide Busy, MapSound;
    assert Counted(s, i) && Hooked(s, i) && Mapped(s, i);
    assert t.calls[i] == s.calls[i];
  }

  lemma NewCallSound(s: State, t: State, c: Call)
    requires Inv(s) && AddsCall(s, t, c)
    ensures var i := |s.calls|;
      Counted(t, i) && Hooked(t, i) && Mapped(t, i) && Drained(t, i)
  {
    hide Busy, Counted, Hooked, Mapped, Drained;
    var i := |s.calls|;
    assert t.calls[i] == c && i !in Futures(s.inflight, c.run);
    NewCallAlone(s, t, c);
  }

  lemma NewCallAlone(s: State, t: State, c: Call)
    requires AddsCall(s, t, c) && |s.calls| !in Futures(s.inflight, c.run)
    ensures var i := |s.calls|;
      Counted(t, i) && Hooked(t, i) && Mapped(t, i) && Drained(t, i)
  {
  }

  lemma AddedKeepsMap(s: State, t: State, c: Call)
    requires Inv(s) && AddsCall(s, t, c)
    ensures MapSound(t) && PcSound(t) && Busy(t.calls) == Busy(s.calls)
  {
    hide Counted, Hooked, Mapped, Drained;
    assert t.calls[..|s.calls|] == s.calls;
  }

  lemma CallRequestKeepsInv(s: State, e: Event)
    requires Inv(s) && OnRequest(s, e).Some? && (e.ToolCall? || e == Invoke)
    ensures Inv(OnRequest(s, e).value)
  {
    hide Counted, Hooked, Mapped, Drained, MapSound, PcSound, Busy;
    var t := OnRequest(s, e).value;
    var c := t.calls[|s.calls|];
    assert AddsCall(s, t, c);
    AddedKeepsMap(s, t, c);
    forall i | 0 <= i < |t.calls|
      ensures Counted(t, i) && Hooked(t, i) && Mapped(t, i) && Drained(t, i)
    {
      if i < |s.calls| {
        OldCallStays(s, t, c, i);
      } else {
        NewCallSound(s, t, c);
      }
    }
  }

  lemma RunRequestKeepsInv(s: State, e: Event)
    requires Inv(s) && OnRequest(s, e).Some? && (!e.ToolCall? && e != Invoke)
    ensures Inv(OnRequest(s, e).value)
  {
    var t := OnRequest(s, e).value;
    forall i | 0 <= i < |t.calls|
      ensures Counted(t, i) && Hooked(t, i) && Mapped(t, i) && Drained(t, i)
    {
      assert Counted(s, i) && Hooked(s, i) && Mapped(s, i);
    }
  }

  lemma ReplyKeepsInv(s: State, e: Event)
    requires Inv(s) && OnMain(s, e).Some? && (e == Reply || e == Hook)
    ensures Inv(OnMain(s, e).value)
  {
    var t := OnMain(s, e).value;
    BusyUpdate(s.calls, s.pc.call, t.calls[s.pc.call]);
    forall i | 0 <= i < |t.calls|
      ensures Counted(t, i) && Hooked(t, i) && Mapped(t, i) && Drained(t, i)
    {
      assert Counted(s, i) && Hooked(s, i) && Mapped(s, i) && Drained(s, i);
    }
  }

  lemma TrackKeepsInv(s: State, e: Event)
    requires Inv(s) && OnMain(s, e).Some? && (e == Track)
    ensures Inv(OnMain(s, e).value)
  {
    var t := OnMain(s, e).value;
    forall i | 0 <= i < |t.calls|
      ensures Counted(t, i) && Hooked(t, i) && Mapped(t, i) && Drained(t, i)
    {
      assert Counted(s, i) && Hooked(s, i) && Mapped(s, i) && Drained(s, i);
    }
  }

  lemma WaitKeepsInv(s: State, e: Event)
    requires Inv(s) && OnMain(s, e).Some? && (e == WaitDone || e.WaitTimeout? || e == CancelsOver)
    ensures Inv(OnMain(s, e).value)
  {
    var t := OnMain(s, e).value;
    forall i | 0 <= i < |t.calls|
      ensures Counted(t, i) && Hooked(t, i) && Mapped(t, i) && Drained(t, i)
    {
      assert Counted(s, i) && Hooked(s, i) && Mapped(s, i) && Drained(s, i);
    }
  }

  lemma CancelKeepsInv(s: State, e: Event)
    requires Inv(s) && OnMain(s, e).Some? && (e.Cancel?)
    ensures Inv(OnMain(s, e).value)
  {
    var t := OnMain(s, e).value;
    BusyUpdate(s.calls, e.call, t.calls[e.call]);
    forall i | 0 <= i < |t.calls|
      ensures Counted(t, i) && Hooked(t, i) && Mapped(t, i) && Drained(t, i)
    {
      assert Counted(s, i) && Hooked(s, i) && Mapped(s, i) && Drained(s, i);
    }
  }

  lemma CloseKeepsInv(s: State, e: Event)
    requires Inv(s) && OnMain(s, e).Some? && (e == Close || e == Evict)
    ensures Inv(OnMain(s, e).value)
  {
    var t := OnMain(s, e).value;
    forall i | 0 <= i < |t.calls|
      ensures Counted(t, i) && Hooked(t, i) && Mapped(t, i) && Drained(t, i)
    {
      assert Counted(s, i) && Hooked(s, i) && Mapped(s, i) && Drained(s, i);
    }
  }

  lemma ShutdownKeepsInv(s: State, e: Event)
    requires Inv(s) && OnMain(s, e).Some? && (e == Shutdown)
    ensures Inv(OnMain(s, e).value)
  {
    var t := OnMain(s, e).value;
    BusySame(s.calls, t.calls);
    forall i | 0 <= i < |t.calls|
      ensures Counted(t, i) && Hooked(t, i) && Mapped(t, i) && Drained(t, i)
    {
      assert Counted(s, i) && Hooked(s, i) && Mapped(s, i) && Drained(s, i);
    }
  }

  lemma MainKeepsInv(s: State, e: Event)
    requires Inv(s) && OnMain(s, e).Some?
    ensures Inv(OnMain(s, e).value)
  {
    hide Inv;
    match e
    case Reply => ReplyKeepsInv(s, e);
    case Hook => ReplyKeepsInv(s, e);
    case Track => TrackKeepsInv(s, e);
    case Cancel(_) => CancelKeepsInv(s, e);
    case Close => CloseKeepsInv(s, e);
    case Evict => CloseKeepsInv(s, e);
    case Shutdown => ShutdownKeepsInv(s, e);
    case WaitDone => WaitKeepsInv(s, e);
    case CancelsOver => WaitKeepsInv(s, e);
    case WaitTimeout(_) => WaitKeepsInv(s, e);
    case _ =>
  }

  lemma StartKeepsInv(s: State, e: Event)
    requires Inv(s) && OnWorker(s, e).Some? && e.Start?
    ensures Inv(OnWorker(s, e).value)
  {
    var t := OnWorker(s, e).value;
    BusyUpdate(s.calls, e.call, t.calls[e.call]);
    forall i | 0 <= i < |t.calls|
      ensures Counted(t, i) && Hooked(t, i) && Mapped(t, i) && Drained(t, i)
    {
      assert Counted(s, i) && Hooked(s, i) && Mapped(s, i) && Drained(s, i);
    }
  }

  lemma AnswerKeepsInv(s: State, e: Event)
    requires Inv(s) && OnWorker(s, e).Some? && (e.Answer? || e.Finish?)
    ensures Inv(OnWorker(s, e).value)
  {
    var t := OnWorker(s, e).value;
    BusyUpdate(s.calls, e.call, t.calls[e.call]);
    forall i | 0 <= i < |t.calls|
      ensures Counted(t, i) && Hooked(t, i) && Mapped(t, i) && Drained(t, i)
    {
      assert Counted(s, i) && Hooked(s, i) && Mapped(s, i) && Drained(s, i);
    }
  }

  lemma UntrackKeepsCalls(s: State, e: Event, i: CallId)
    requires Inv(s) && OnWorker(s, e).Some? && e.Untrack? && i < |s.calls|
    ensures var t := OnWorker(s, e).value;
      |t.calls| == |s.calls| && Counted(t, i) && Hooked(t, i) && Drained(t, i)
  {
    hide MapSound, Mapped, Untracked, Busy;
    assert Counted(s, i) && Hooked(s, i) && Drained(s, i);
  }

  lemma UntrackKeepsMap(s: State, e: Event)
    requires Inv(s) && OnWorker(s, e).Some? && e.Untrack?
    ensures var t := OnWorker(s, e).value;
      MapSound(t) && PcSound(t) && |t.calls| == |s.calls| && forall i | 0 <= i < |t.calls| :: Mapped(t, i)
  {
    hide Counted, Drained, Busy;
    var t := OnWorker(s, e).value;
    forall i | 0 <= i < |t.calls|
      ensures Mapped(t, i)
    {
      assert Mapped(s, i) && Hooked(s, i);
    }
  }

  lemma UntrackKeepsInv(s: State, e: Event)
    requires Inv(s) && OnWorker(s, e).Some? && e.Untrack?
    ensures Inv(OnWorker(s, e).value)
  {
    hide Counted, Hooked, Mapped, Drained, MapSound, PcSound, Untracked;
    var t := OnWorker(s, e).value;
    BusyUpdate(s.calls, e.call, t.calls[e.call]);
    UntrackKeepsMap(s, e);
    forall i | 0 <= i < |t.calls|
      ensures Counted(t, i) && Hooked(t, i) && Drained(t, i)
    {
      UntrackKeepsCalls(s, e, i);
    }
  }

  /** Every event of every thread keeps the invariant. */
  lemma StepKeepsInv(s: State, e: Event)
    requires Inv(s) && Step(s, e).Some?
    ensures Inv(Step(s, e).value)
  {
    hide Inv, OnRequest, OnMain, OnWorker;
    match e
    case ToolCall(_, _) => CallRequestKeepsInv(s, e);
    case Invoke => CallRequestKeepsInv(s, e);
    case AgentStart(_, _) => RunRequestKeepsInv(s, e);
    case Observe(_, _) => RunRequestKeepsInv(s, e);
    case AgentEnd(_, _) => RunRequestKeepsInv(s, e);
    case Abort(_) => RunRequestKeepsInv(s, e);
    case EndOfInput => RunRequestKeepsInv(s, e);
    case Start(_) => StartKeepsInv(s, e);
    case Answer(_) => AnswerKeepsInv(s, e);
    case Finish(_) => AnswerKeepsInv(s, e);
    case Untrack(_) => UntrackKeepsInv(s, e);
    case _ => MainKeepsInv(s, e);
  }

  /** So it holds after every trace, whatever the interleaving. */
  lemma {:induction false} InvAlways(trace: seq<Event>)
    requires After(START, trace).Some?
    ensures Inv(After(START, trace).value)
  {
    hide Step;
    if trace != [] {
      var front := trace[..|trace| - 1];
      InvAlways(front);
      StepKeepsInv(After(START, front).value, trace[|trace| - 1]);
    }
  }
}
