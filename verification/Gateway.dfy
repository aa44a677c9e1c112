/**
 The gateway's gate pipeline over one session (app/pi_gateway.py). Calls overlap freely; an event is one
 gate of one call, so a trace is any interleaving. Gate verdicts and handler results are parameters.
 */
module Gateway {
  import opened Wrappers
  import opened Budget
  import Text

  type CallId = nat

  const FORBIDDEN := {"call_tool", "browse_tools", "search_tools", "list_tool_domains", "describe_tool"}
  const CALL_TOOL := "call_tool"
  const SEARCH := "search_web"

  /** Arguments as far as call_tool looks at them. */
  datatype Inner = Missing | AnObject | SomethingElse

  datatype Arguments = NotAnObject | Object(name: Option<string>, inner: Inner)

  datatype Error =
    | BadName | BadArguments | ForbiddenTarget | UnknownTool
    | NotPermitted | NotDispatched | OverBudget | NotAuthorized | HandlerFailed | Quarantined | OverEvidence | Raised

  /** The target of a call_tool wrapper: a known tool outside the forbidden set, or else an error. */
  function UnwrapCallTool(args: Arguments, tools: set<string>): (r: Result<string, Error>)
    ensures r.Ok? ==>
      && args.Object? && args.name.Some? && r.value == Text.Strip(args.name.value) && r.value in tools
      && r.value !in ["", "call_tool", "browse_tools", "search_tools", "list_tool_domains", "describe_tool"]
    ensures r.Err? ==> r.error in {BadName, BadArguments, ForbiddenTarget, UnknownTool}
    ensures r.Ok? <==> args.Object? && args.name.Some? && !args.inner.SomethingElse? &&
                       Text.Strip(args.name.value) in tools - FORBIDDEN - {""}
    ensures r == Err(BadName) <==> args.Object? && args.name.Some? ==> Text.Strip(args.name.value) == ""
    ensures r == Err(BadArguments) <==> r != Err(BadName) && args.inner.SomethingElse?
    ensures r == Err(ForbiddenTarget) <==>
      r != Err(BadName) && r != Err(BadArguments) && Text.Strip(args.name.value) in FORBIDDEN
  {
    if args.NotAnObject? || args.name.None? || Text.Strip(args.name.value) == "" then Err(BadName)
    else if args.inner.SomethingElse? then Err(BadArguments)
    else
      var target := Text.Strip(args.name.value);
      if target in FORBIDDEN then Err(ForbiddenTarget)
      else if target !in tools then Err(UnknownTool)
      else Ok(target)
  }

  datatype Slot = ToolSlot | SearchSlot | PersistedSlot

  /** A granted slot, in order of granting. */
  datatype Grant = Grant(call: CallId, slot: Slot)

  datatype Phase =
    | Arrived
    | Targeted
    | Permitted
    | Dispatched(consumed: bool)
    | Reserved
    | Authorized
    | Running
    | Handled
    | Scanned(tokens: nat)
    | Billed
    | Returned
    | Failed(error: Error)

  /**
   name is what Pi asked for, target what is called now, args its arguments; hops counts unwrappings,
   runs counts handler runs, billed is what evidence was charged.
   */
  datatype Call = Call(name: string, args: Arguments, target: string, hops: nat, phase: Phase, runs: nat, billed: Option<nat>)

  datatype State = State(budget: Counters, grants: seq<Grant>, quarantined: nat, calls: seq<Call>)

  datatype Event =
    | Arrive(name: string, args: Arguments)
    | Unwrap(call: CallId, innerArgs: Arguments)
    | Permit(call: CallId, allowed: bool)
    | Dispatch(call: CallId, attached: bool, granted: bool)
    | Reserve(call: CallId, now: real)
    | Authorize(call: CallId, allowed: bool)
    | Run(call: CallId)
    | Finish(call: CallId, succeeded: bool)
    | Scan(call: CallId, tokens: Option<nat>)
    | Bill(call: CallId)
    | Return(call: CallId)
    | Raise(call: CallId)

  function With(s: State, i: CallId, c: Call): State
    requires i < |s.calls|
  {
    s.(calls := s.calls[i := c])
  }

  function FailIf(bad: bool, error: Error, good: Phase): Phase {
    if bad then Failed(error) else good
  }

  /** search_web draws from its own pool. */
  predicate RoomFor(name: string, b: Counters) {
    if name == SEARCH then Room(b.searches, 1, b.maxSearches) else Room(b.tools, 1, b.maxTools)
  }

  function Charged(name: string, b: Counters): Counters {
    if name == SEARCH then b.(searches := b.searches + 1) else b.(tools := b.tools + 1)
  }

  /** One step of one call; None when the call is not there yet. */
  function OnCall(s: State, tools: set<string>, e: Event): Option<State>
    requires !e.Arrive? && e.call < |s.calls|
  {
    var i := e.call;
    var c := s.calls[i];
    match e
    case Unwrap(_, innerArgs) =>
      // the inner call enters again from the top, with its own name and arguments
      if c.phase != Arrived then None
      else if c.target != CALL_TOOL then Some(With(s, i, c.(phase := Targeted)))
      else
        var inner := UnwrapCallTool(c.args, tools);
        Some(With(s, i, if inner.Ok? then c.(target := inner.value, args := innerArgs, hops := c.hops + 1)
                        else c.(phase := Failed(inner.error))))
    case Permit(_, allowed) =>
      if c.phase != Targeted then None else Some(With(s, i, c.(phase := FailIf(!allowed, NotPermitted, Permitted))))
    case Dispatch(_, attached, granted) =>
      // only attached staged data dispatches use a persisted slot
      if c.phase != Permitted then None
      else if !attached then Some(With(s, i, c.(phase := Dispatched(false))))
      else if !granted then Some(With(s, i, c.(phase := Failed(NotDispatched))))
      else Some(With(s, i, c.(phase := Dispatched(true))).(grants := s.grants + [Grant(i, PersistedSlot)]))
    case Reserve(_, now) =>
      if !c.phase.Dispatched? then None
      else if c.phase.consumed then Some(With(s, i, c.(phase := Reserved)))
      else
        var slot := if c.target == SEARCH then SearchSlot else ToolSlot;
        if !s.budget.RuntimeLeft(now) || !RoomFor(c.target, s.budget) then Some(With(s, i, c.(phase := Failed(OverBudget))))
        else
          Some(With(s, i, c.(phase := Reserved)).(
               budget := Charged(c.target, s.budget), grants := s.grants + [Grant(i, slot)]))
    case Authorize(_, allowed) =>
      if c.phase != Reserved then None else Some(With(s, i, c.(phase := FailIf(!allowed, NotAuthorized, Authorized))))
    case Run(_) =>
      if c.phase != Authorized then None else Some(With(s, i, c.(phase := Running, runs := c.runs + 1)))
    case Finish(_, succeeded) =>
      if c.phase != Running then None else Some(With(s, i, c.(phase := FailIf(!succeeded, HandlerFailed, Handled))))
    case Scan(_, tokens) =>
      if c.phase != Handled then None
      else if tokens.Some? then Some(With(s, i, c.(phase := Scanned(tokens.value))))
      else Some(With(s, i, c.(phase := Failed(Quarantined))).(quarantined := s.quarantined + 1))
    case Bill(_) =>
      if !c.phase.Scanned? then None
      else if !Room(s.budget.evidence, c.phase.tokens, s.budget.maxEvidence) then
        Some(With(s, i, c.(phase := Failed(OverEvidence))))
      else
        Some(With(s, i, c.(phase := Billed, billed := Some(c.phase.tokens))).(
             budget := s.budget.(evidence := s.budget.evidence + c.phase.tokens)))
    case Return(_) => if c.phase != Billed then None else Some(With(s, i, c.(phase := Returned)))
    case Raise(_) =>
      if c.phase == Returned || c.phase.Failed? then None else Some(With(s, i, c.(phase := Failed(Raised))))
  }

  function Step(s: State, tools: set<string>, e: Event): Option<State> {
    if e.Arrive? then
      Some(s.(calls := s.calls + [Call(e.name, e.args, e.name, 0, Arrived, 0, None)]))
    else if e.call < |s.calls| then OnCall(s, tools, e)
    else None
  }

  function Start(budget: Counters): State {
    State(budget, [], 0, [])
  }

  function After(s: State, tools: set<string>, trace: seq<Event>): Option<State> {
    if trace == [] then Some(s)
    else
      var before := After(s, tools, trace[..|trace| - 1]);
      if before.None? then None else Step(before.value, tools, trace[|trace| - 1])
  }

  // ---------------------------------------------------------------- counting

  function SlotCount(grants: seq<Grant>, slot: Slot): nat {
    if grants == [] then 0
    else SlotCount(grants[..|grants| - 1], slot) + (if grants[|grants| - 1].slot == slot then 1 else 0)
  }

  function CallCount(grants: seq<Grant>, call: CallId): nat {
    if grants == [] then 0
    else CallCount(grants[..|grants| - 1], call) + (if grants[|grants| - 1].call == call then 1 else 0)
  }

  function BilledTotal(calls: seq<Call>): nat {
    if calls == [] then 0
    else
      var last := calls[|calls| - 1];
      BilledTotal(calls[..|calls| - 1]) + BilledOf(last)
  }

  lemma {:induction false} BilledUpdate(calls: seq<Call>, i: CallId, c: Call)
    requires i < |calls|
    ensures BilledTotal(calls[i := c]) + BilledOf(calls[i]) == BilledTotal(calls) + BilledOf(c)
  {
    var n := |calls| - 1;
    if i < n {
      BilledUpdate(calls[..n], i, c);
      assert calls[i := c][..n] == calls[..n][i := c];
    } else {
      assert calls[i := c][..n] == calls[..n];
    }
  }

  lemma CountSnoc(grants: seq<Grant>, g: Grant)
    ensures forall slot :: SlotCount(grants + [g], slot) == SlotCount(grants, slot) + if g.slot == slot then 1 else 0
    ensures forall i :: CallCount(grants + [g], i) == CallCount(grants, i) + if g.call == i then 1 else 0
  {
    assert (grants + [g])[..|grants|] == grants;
  }

  // ---------------------------------------------------------------- the invariant

  predicate PastReserve(phase: Phase) {
    phase == Reserved || phase == Authorized || phase == Running || phase == Handled || phase.Scanned? || phase == Billed ||
    phase == Returned
  }

  predicate PastRun(phase: Phase) {
    phase == Running || phase == Handled || phase.Scanned? || phase == Billed || phase == Returned
  }

  /** What a call's phase says about its slots, handler runs, billing and unwrapping. */
  predicate CallOk(c: Call, slots: nat) {
    && slots <= 1
    && (PastReserve(c.phase) || c.phase == Dispatched(true) ==> slots == 1)
    && (c.phase == Arrived || c.phase == Targeted || c.phase == Permitted || c.phase == Dispatched(false) ==> slots == 0)
    && c.runs <= slots
    && (PastRun(c.phase) ==> c.runs == 1) && (!PastRun(c.phase) && !c.phase.Failed? ==> c.runs == 0)
    && (c.phase == Billed || c.phase == Returned ==> c.billed.Some?)
    && (c.billed.Some? ==> c.phase == Billed || c.phase == Returned || c.phase == Failed(Raised))
    && c.hops <= 1 && (c.hops == 0 ==> c.target == c.name) && (c.hops == 1 ==> c.name == CALL_TOOL && c.target !in FORBIDDEN)
    && (c.phase != Arrived && !c.phase.Failed? ==> c.target != CALL_TOOL)
    && (slots > 0 ==> c.target != CALL_TOOL)
  }

  predicate CallSound(s: State, i: CallId)
    requires i < |s.calls|
  {
    CallOk(s.calls[i], CallCount(s.grants, i))
  }

  function BilledOf(c: Call): nat {
    if c.billed.Some? then c.billed.value else 0
  }

  predicate Fits(slot: Slot, target: string) {
    (slot == SearchSlot ==> target == SEARCH) && (slot == ToolSlot ==> target != SEARCH)
  }

  predicate GrantSound(s: State, g: Grant) {
    g.call < |s.calls| && Fits(g.slot, s.calls[g.call].target)
  }

  ghost predicate Inv(s: State) {
    && s.budget.Within()
    && s.budget.tools == SlotCount(s.grants, ToolSlot) && s.budget.searches == SlotCount(s.grants, SearchSlot)
    && s.budget.evidence == BilledTotal(s.calls)
    && (forall g | g in s.grants :: GrantSound(s, g))
    && (forall i | 0 <= i < |s.calls| :: CallSound(s, i))
  }

  lemma {:induction false} NoGrantYet(grants: seq<Grant>, i: CallId)
    requires forall g | g in grants :: g.call != i
    ensures CallCount(grants, i) == 0
  {
    if grants != [] {
      NoGrantYet(grants[..|grants| - 1], i);
    }
  }

  lemma {:induction false} GrantCounts(grants: seq<Grant>, g: Grant)
    requires g in grants
    ensures CallCount(grants, g.call) >= 1
  {
    var n := |grants| - 1;
    if grants[n] != g {
      GrantCounts(grants[..n], g);
    }
  }

  lemma OldCallStays(s: State, t: State, c: Call, i: CallId)
    requires t == s.(calls := s.calls + [c]) && i < |s.calls| && CallSound(s, i)
    ensures CallSound(t, i)
  {
    hide CallOk, CallCount;
    assert t.calls[i] == s.calls[i];
  }

  lemma NewCallSound(s: State, t: State, c: Call)
    requires Inv(s) && t == s.(calls := s.calls + [c]) && c == Call(c.name, c.args, c.name, 0, Arrived, 0, None)
    ensures CallSound(t, |s.calls|)
  {
    hide CallCount, CallSound;
    assert forall g | g in s.grants :: GrantSound(s, g);
    NoGrantYet(s.grants, |s.calls|);
    assert t.calls[|s.calls|] == c;
    ArrivedIsOk(c);
    SoundFromOk(t, |s.calls|);
  }

  lemma ArrivedIsOk(c: Call)
    requires c == Call(c.name, c.args, c.name, 0, Arrived, 0, None)
    ensures CallOk(c, 0)
  {
  }

  lemma SoundFromOk(s: State, i: CallId)
    requires i < |s.calls| && CallOk(s.calls[i], CallCount(s.grants, i))
    ensures CallSound(s, i)
  {
  }

  lemma ArrivalKeepsInv(s: State, tools: set<string>, e: Event)
    requires Inv(s) && e.Arrive?
    ensures Inv(Step(s, tools, e).value)
  {
    hide CallOk, CallCount, CallSound, SlotCount, OnCall;
    var t := Step(s, tools, e).value;
    var c := t.calls[|s.calls|];
    assert t.calls[..|s.calls|] == s.calls;
    forall g | g in t.grants
      ensures GrantSound(t, g)
    {
      assert GrantSound(s, g);
    }
    forall i | 0 <= i < |t.calls|
      ensures CallSound(t, i)
    {
      if i < |s.calls| {
        assert CallSound(s, i);
        OldCallStays(s, t, c, i);
      } else {
        NewCallSound(s, t, c);
      }
    }
  }

  predicate Granted(s: State, t: State, slot: Slot) {
    |t.grants| > |s.grants| && t.grants[|s.grants|].slot == slot
  }

  /** What one step does: it changes its own call, grants it at most one slot, and charges just that. */
  predicate Local(s: State, t: State, i: CallId) {
    && i < |s.calls| && |t.calls| == |s.calls| && t.calls == s.calls[i := t.calls[i]]
    && |s.grants| <= |t.grants| <= |s.grants| + 1 && s.grants == t.grants[..|s.grants|]
    && (|t.grants| > |s.grants| ==> t.grants[|s.grants|].call == i && Fits(t.grants[|s.grants|].slot, t.calls[i].target))
    && (CallCount(s.grants, i) > 0 ==> t.calls[i].target == s.calls[i].target)
    && CallOk(t.calls[i], CallCount(s.grants, i) + |t.grants| - |s.grants|)
    && t.budget.Within()
    && t.budget.tools == s.budget.tools + (if Granted(s, t, ToolSlot) then 1 else 0)
    && t.budget.searches == s.budget.searches + (if Granted(s, t, SearchSlot) then 1 else 0)
    && t.budget.evidence + BilledOf(s.calls[i]) == s.budget.evidence + BilledOf(t.calls[i])
  }

  lemma UnwrapIsLocal(s: State, tools: set<string>, e: Event)
    requires s.budget.Within() && (e.Unwrap?) && e.call < |s.calls| && OnCall(s, tools, e).Some?
    requires CallSound(s, e.call)
    ensures Local(s, OnCall(s, tools, e).value, e.call)
  {
    hide UnwrapCallTool, CallCount, Text.Strip;
  }

  lemma VerdictIsLocal(s: State, tools: set<string>, e: Event)
    requires s.budget.Within() && (e.Permit? || e.Authorize? || e.Run? || e.Finish? || e.Scan?)
    requires e.call < |s.calls| && OnCall(s, tools, e).Some?
    requires CallSound(s, e.call)
    ensures Local(s, OnCall(s, tools, e).value, e.call)
  {
    hide UnwrapCallTool, CallCount, Room, Text.Strip;
  }

  lemma DispatchIsLocal(s: State, tools: set<string>, e: Event)
    requires s.budget.Within() && (e.Dispatch?) && e.call < |s.calls| && OnCall(s, tools, e).Some?
    requires CallSound(s, e.call)
    ensures Local(s, OnCall(s, tools, e).value, e.call)
  {
    hide UnwrapCallTool, CallCount, Text.Strip;
  }

  lemma ReserveIsLocal(s: State, tools: set<string>, e: Event)
    requires s.budget.Within() && (e.Reserve?) && e.call < |s.calls| && OnCall(s, tools, e).Some?
    requires CallSound(s, e.call)
    ensures Local(s, OnCall(s, tools, e).value, e.call)
  {
    hide UnwrapCallTool, CallCount, Text.Strip;
  }

  lemma BillIsLocal(s: State, tools: set<string>, e: Event)
    requires s.budget.Within() && (e.Bill? || e.Return? || e.Raise?) && e.call < |s.calls| && OnCall(s, tools, e).Some?
    requires CallSound(s, e.call)
    ensures Local(s, OnCall(s, tools, e).value, e.call)
  {
    hide UnwrapCallTool, CallCount, Text.Strip;
  }

  lemma StepIsLocal(s: State, tools: set<string>, e: Event)
    requires s.budget.Within() && !e.Arrive? && e.call < |s.calls| && OnCall(s, tools, e).Some?
    requires CallSound(s, e.call)
    ensures Local(s, OnCall(s, tools, e).value, e.call)
  {
    hide OnCall, Local, CallSound, Counters.Within;
    if e.Unwrap? {
      UnwrapIsLocal(s, tools, e);
    } else if e.Dispatch? {
      DispatchIsLocal(s, tools, e);
    } else if e.Reserve? {
      ReserveIsLocal(s, tools, e);
    } else if e.Bill? || e.Return? || e.Raise? {
      BillIsLocal(s, tools, e);
    } else {
      VerdictIsLocal(s, tools, e);
    }
  }

  /** A local step leaves the other calls and their grants alone. */
  lemma LocalKeepsInv(s: State, t: State, i: CallId)
    requires Inv(s) && Local(s, t, i)
    ensures Inv(t)
  {
    hide CallOk, CallCount, SlotCount, BilledTotal, BilledOf, Fits;
    BilledUpdate(s.calls, i, t.calls[i]);
    var granted := |t.grants| > |s.grants|;
    if granted {
      assert t.grants == s.grants + [t.grants[|s.grants|]];
      CountSnoc(s.grants, t.grants[|s.grants|]);
    } else {
      assert t.grants == s.grants;
    }
    forall g | g in t.grants
      ensures GrantSound(t, g)
    {
      if g in s.grants {
        assert GrantSound(s, g);
        GrantCounts(s.grants, g);
      }
    }
    forall k | 0 <= k < |t.calls|
      ensures CallSound(t, k)
    {
      assert CallSound(s, k);
    }
  }

  /** Every step of every call keeps the invariant. */
  lemma StepKeepsInv(s: State, tools: set<string>, e: Event)
    requires Inv(s) && Step(s, tools, e).Some?
    ensures Inv(Step(s, tools, e).value)
  {
    hide Inv, OnCall;
    if e.Arrive? {
      ArrivalKeepsInv(s, tools, e);
    } else {
      var t := OnCall(s, tools, e).value;
      assert s.budget.Within() && CallSound(s, e.call) by {
        InvParts(s, e.call);
      }
      StepIsLocal(s, tools, e);
      LocalKeepsInv(s, t, e.call);
    }
  }

  lemma InvParts(s: State, i: CallId)
    requires Inv(s) && i < |s.calls|
    ensures s.budget.Within() && CallSound(s, i)
  {
  }

  lemma {:induction false} InvAlways(budget: Counters, tools: set<string>, trace: seq<Event>)
    requires budget.tools == budget.searches == budget.evidence == 0
    requires After(Start(budget), tools, trace).Some?
    ensures Inv(After(Start(budget), tools, trace).value)
  {
    hide Step;
    if trace != [] {
      var front := trace[..|trace| - 1];
      InvAlways(budget, tools, front);
      StepKeepsInv(After(Start(budget), tools, front).value, tools, trace[|trace| - 1]);
    }
  }

  // ---------------------------------------------------------------- what every interleaving guarantees

  /** A state that some trace reaches from unused counters. */
  ghost predicate Reachable(s: State) {
    exists budget: Counters, tools, trace ::
      budget.tools == budget.searches == budget.evidence == 0 && After(Start(budget), tools, trace) == Some(s)
  }

  lemma ReachableInv(s: State)
    requires Reachable(s)
    ensures Inv(s)
  {
    hide Inv, After;
    var budget: Counters, tools, trace :|
      budget.tools == budget.searches == budget.evidence == 0 && After(Start(budget), tools, trace) == Some(s);
    InvAlways(budget, tools, trace);
  }

  /** Counters are the granted slots, evidence is what calls were billed, and no maximum is passed. */
  lemma CountersAreGrants(s: State)
    requires Reachable(s)
    ensures s.budget.tools == SlotCount(s.grants, ToolSlot) && s.budget.searches == SlotCount(s.grants, SearchSlot)
    ensures s.budget.evidence == BilledTotal(s.calls) && s.budget.Within()
  {
    hide CallSound, GrantSound;
    ReachableInv(s);
  }

  /** A handler runs at most once per call, and under exactly one slot, of the pool its target draws from. */
  lemma RunsAreCovered(s: State, i: CallId)
    requires Reachable(s) && i < |s.calls|
    ensures s.calls[i].runs <= CallCount(s.grants, i) <= 1
    ensures forall g | g in s.grants && g.call == i :: (g.slot == SearchSlot ==> s.calls[i].target == SEARCH)
    ensures forall g | g in s.grants && g.call == i :: (g.slot == ToolSlot ==> s.calls[i].target != SEARCH)
  {
    ReachableInv(s);
    assert CallSound(s, i);
    forall g | g in s.grants && g.call == i
      ensures (g.slot == SearchSlot ==> s.calls[i].target == SEARCH) && (g.slot == ToolSlot ==> s.calls[i].target != SEARCH)
    {
      assert GrantSound(s, g);
    }
  }

  /** call_tool takes no slot itself and is unwrapped at most once, into a tool that cannot unwrap again. */
  lemma WrapperTakesNoSlot(s: State, i: CallId)
    requires Reachable(s) && i < |s.calls| && s.calls[i].name == CALL_TOOL
    ensures s.calls[i].hops <= 1
    ensures CallCount(s.grants, i) > 0 ==> s.calls[i].hops == 1 && s.calls[i].target !in FORBIDDEN
  {
    ReachableInv(s);
    assert CallSound(s, i);
  }

  function SuccessTotal(calls: seq<Call>): nat {
    if calls == [] then 0
    else
      var last := calls[|calls| - 1];
      SuccessTotal(calls[..|calls| - 1]) + (if last.phase == Returned && last.billed.Some? then last.billed.value else 0)
  }

  lemma {:induction false} TotalsAgree(calls: seq<Call>)
    ensures SuccessTotal(calls) <= BilledTotal(calls)
    ensures (forall c | c in calls :: c.billed.Some? ==> c.phase == Returned) ==> SuccessTotal(calls) == BilledTotal(calls)
  {
    if calls != [] {
      TotalsAgree(calls[..|calls| - 1]);
      assert calls[|calls| - 1] in calls;
      assert forall c | c in calls[..|calls| - 1] :: c in calls;
    }
  }

  /**
   Returned successes were billed, so their tokens never pass the maximum; the counter equals them
   whenever no call stands between its billing and its return, or raised there.
   */
  lemma EvidenceIsSuccesses(s: State)
    requires Reachable(s)
    ensures forall c | c in s.calls :: c.phase == Returned ==> c.billed.Some?
    ensures SuccessTotal(s.calls) <= s.budget.evidence
    ensures (forall c | c in s.calls :: c.phase != Billed && (c.phase == Failed(Raised) ==> c.billed.None?)) ==>
      s.budget.evidence == SuccessTotal(s.calls)
  {
    ReachableInv(s);
    forall c | c in s.calls
      ensures c.phase == Returned ==> c.billed.Some?
      ensures c.billed.Some? ==> c.phase == Billed || c.phase == Returned || c.phase == Failed(Raised)
    {
      var i :| 0 <= i < |s.calls| && s.calls[i] == c;
      assert CallSound(s, i);
    }
    TotalsAgree(s.calls);
  }

  lemma StepKeepsLimits(s: State, tools: set<string>, e: Event)
    requires Step(s, tools, e).Some?
    ensures var b := Step(s, tools, e).value.budget;
      b == s.budget.(tools := b.tools, searches := b.searches, evidence := b.evidence)
  {
    hide UnwrapCallTool, Room;
  }

  lemma {:induction false} LimitsNeverMove(budget: Counters, tools: set<string>, trace: seq<Event>)
    requires After(Start(budget), tools, trace).Some?
    ensures var b := After(Start(budget), tools, trace).value.budget;
      b == budget.(tools := b.tools, searches := b.searches, evidence := b.evidence)
  {
    hide Step;
    if trace != [] {
      var front := trace[..|trace| - 1];
      LimitsNeverMove(budget, tools, front);
      StepKeepsLimits(After(Start(budget), tools, front).value, tools, trace[|trace| - 1]);
    }
  }

  /** A Pi session has no search maximum: after any trace, a search is refused its slot by the clock only. */
  lemma UnlimitedSearch(budget: Counters, tools: set<string>, trace: seq<Event>, i: CallId, now: real)
    requires budget.maxSearches.None? && After(Start(budget), tools, trace).Some?
    requires var s := After(Start(budget), tools, trace).value;
      i < |s.calls| && s.calls[i].phase == Dispatched(false) && s.calls[i].target == SEARCH
    ensures var t := After(Start(budget), tools, trace + [Reserve(i, now)]);
      t.Some? && (t.value.calls[i].phase == Failed(OverBudget) <==> !budget.RuntimeLeft(now))
  {
    LimitsNeverMove(budget, tools, trace);
    assert (trace + [Reserve(i, now)])[..|trace|] == trace;
  }

  // ---------------------------------------------------------------- the session

  /** The part of a session that its lock guards. */
  class Session {
    const budget: ExecutionBudget
    var labels: set<string>
    var quarantined: nat

    constructor (budget: ExecutionBudget, isPrivate: bool)
      ensures this.budget == budget && labels == (if isPrivate then {"private"} else {}) && quarantined == 0
    {
      this.budget := budget;
      labels := if isPrivate then {"private"} else {};
      quarantined := 0;
    }

    /** One slot per call: persisted already, or from the pool of the tool. */
    method ReserveRunBudget(name: string, consumed: bool, now: real) returns (granted: bool)
      modifies budget`tools, budget`searches
      ensures consumed ==> granted && budget.View() == old(budget.View())
      ensures !consumed ==>
        granted == (
          && (budget.maxRuntime.Some? ==> now - budget.started < budget.maxRuntime.value)
          && if name == "search_web" then (budget.maxSearches.Some? ==> old(budget.searches) < budget.maxSearches.value)
             else (budget.maxTools.Some? ==> old(budget.tools) < budget.maxTools.value))
      ensures !consumed ==> var search, before := name == "search_web", old(budget.View());
        && budget.tools == before.tools + (if granted && !search then 1 else 0)
        && budget.searches == before.searches + (if granted && search then 1 else 0)
        && budget.evidence == before.evidence
    {
      if consumed {
        return true;
      }
      if name != SEARCH {
        granted := budget.ReserveToolCall(now);
      } else {
        granted := budget.ReserveSearchCall(now);
      }
    }

    /** Label the session by what Pi is about to see, and charge the text. */
    method BillEvidence(name: string, isPrivate: bool, tokens: nat) returns (allowed: bool)
      modifies this`labels, budget`evidence
      ensures allowed <==> (budget.maxEvidence.Some? ==> old(budget.evidence) + tokens <= budget.maxEvidence.value)
      ensures budget.View() == old(budget.View()).(evidence := old(budget.evidence) + if allowed then tokens else 0)
      ensures labels == old(labels) + (if name == "search_web" then {"external"} else {}) + (if isPrivate then {"private"} else {})
    {
      if name == SEARCH {
        labels := labels + {"external"};
      }
      if isPrivate {
        labels := labels + {"private"};
      }
      allowed := budget.AddEvidenceTokens(tokens);
    }
  }
}
