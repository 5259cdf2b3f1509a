/// The provisioning portal machine on bb_fsm, and its three-hop entry driver.
module ProvMachine {
  import opened Wrappers
  import opened Fsm
  import opened FsmEngine

  const WP_IDLE: StateId := 0
  const WP_ACTIVE: StateId := 1
  const WP_CLOSING: StateId := 2

  const EV_ENTRY_FIRST_BOOT: EventId := 0
  const EV_ENTRY_DEPROV_ANOMALY: EventId := 1
  const EV_ENTRY_USER_REQUESTED: EventId := 2
  const EV_AP_START_OK: EventId := 3
  const EV_PROV_START_OK: EventId := 4
  const EV_SAVE_SUCCESS: EventId := 5
  const EV_SETTLE_TIMEOUT: EventId := 6

  datatype LogEvent =
    | EntryFirstBoot | EntryDeprovAnomaly | EntryUserRequested | EntryAlreadyActive
    | ApStartFailed | ProvStartFailed | PortalOpen | PortalClosed

  /// One adapter call with, for the two start calls, its outcome.
  datatype Call =
    | ApStart(ok: bool) | ApStop | ProvStart(ok: bool) | ProvStop
    | CredsArrived | SetActive(active: bool) | Log(evt: LogEvent)

  /// What the two start calls answer if they are made.
  datatype Env = Env(apStartOk: bool, provStartOk: bool)

  datatype Ctx = Ctx(lastOpOk: bool, settleMs: nat, calls: seq<Call>)

  function SettleFloor(ms: nat): nat { if ms == 0 then 1 else ms }

  function EntryLog(event: EventId): LogEvent {
    if event == EV_ENTRY_FIRST_BOOT then EntryFirstBoot
    else if event == EV_ENTRY_DEPROV_ANOMALY then EntryDeprovAnomaly
    else EntryUserRequested
  }

  // --- Actions and hooks -------------------------------------------------------

  function Always(c: Ctx, e: EventId, d: Env): bool { true }

  function NoAction(c: Ctx, e: EventId, d: Env): Effect<Ctx> { Effect(c, []) }

  function ActTryApStart(c: Ctx, e: EventId, d: Env): Effect<Ctx> {
    Effect(c.(lastOpOk := d.apStartOk,
              calls := c.calls + [Log(EntryLog(e)), ApStart(d.apStartOk)] + if d.apStartOk then [] else [Log(ApStartFailed)]), [])
  }

  function ActTryProvStart(c: Ctx, e: EventId, d: Env): Effect<Ctx> {
    Effect(c.(lastOpOk := d.provStartOk,
              calls := c.calls + [ProvStart(d.provStartOk)] + if d.provStartOk then [] else [ApStop, Log(ProvStartFailed)]), [])
  }

  function ActReentry(c: Ctx, e: EventId, d: Env): Effect<Ctx> {
    Effect(c.(calls := c.calls + [Log(EntryAlreadyActive)]), [])
  }

  function ActClosePortal(c: Ctx, e: EventId, d: Env): Effect<Ctx> {
    Effect(c.(calls := c.calls + [ProvStop, ApStop, CredsArrived, Log(PortalClosed)]), [])
  }

  function NoHook(c: Ctx, s: StateId): Effect<Ctx> { Effect(c, []) }

  function ActiveOnEntry(c: Ctx, s: StateId): Effect<Ctx> {
    Effect(c.(calls := c.calls + [Log(PortalOpen), SetActive(true)]), [])
  }

  function IdleOnEntry(c: Ctx, s: StateId): Effect<Ctx> {
    Effect(c.(calls := c.calls + [SetActive(false)]), [])
  }

  function ClosingOnEntry(c: Ctx, s: StateId): Effect<Ctx> {
    Effect(c, [Arm(EV_SETTLE_TIMEOUT, SettleFloor(c.settleMs))])
  }

  const ROWS: seq<Row<Ctx, Env>> := [
    Row(At(WP_IDLE), EV_ENTRY_FIRST_BOOT, Always, ActTryApStart, Same),
    Row(At(WP_IDLE), EV_ENTRY_DEPROV_ANOMALY, Always, ActTryApStart, Same),
    Row(At(WP_IDLE), EV_ENTRY_USER_REQUESTED, Always, ActTryApStart, Same),
    Row(At(WP_IDLE), EV_AP_START_OK, Always, ActTryProvStart, Same),
    Row(At(WP_IDLE), EV_PROV_START_OK, Always, NoAction, Goto(WP_ACTIVE)),
    Row(At(WP_ACTIVE), EV_ENTRY_USER_REQUESTED, Always, ActReentry, Same),
    Row(At(WP_ACTIVE), EV_SAVE_SUCCESS, Always, NoAction, Goto(WP_CLOSING)),
    Row(At(WP_CLOSING), EV_SETTLE_TIMEOUT, Always, ActClosePortal, Goto(WP_IDLE))
  ]

  const STATES: seq<Hooks<Ctx>> := [
    Hooks(WP_IDLE, IdleOnEntry, NoHook),
    Hooks(WP_ACTIVE, ActiveOnEntry, NoHook),
    Hooks(WP_CLOSING, ClosingOnEntry, NoHook)
  ]

  const DESC: Desc<Ctx, Env> := Desc(ROWS, STATES, WP_IDLE)

  // --- The driver ----------------------------------------------------------------

  function Feed(capacity: nat, m: Machine<Ctx>, event: EventId, d: Env): (Status, Machine<Ctx>) {
    Step(DESC, capacity, m, event, d)
  }

  /// wifi_prov_fsm_drive_entry: up to three steps, stopping at the first failure.
  function Drive(capacity: nat, m: Machine<Ctx>, event: EventId, d: Env): Machine<Ctx> {
    var r := Feed(capacity, m.(ctx := m.ctx.(lastOpOk := false)), event, d);
    if r.0 != Ok || r.1.current != WP_IDLE || !r.1.ctx.lastOpOk then r.1
    else
      var s := Feed(capacity, r.1, EV_AP_START_OK, d).1;
      if !s.ctx.lastOpOk then s else Feed(capacity, s, EV_PROV_START_OK, d).1
  }

  method DriveEntry(fsm: Engine<Ctx, Env>, event: EventId, d: Env)
    requires fsm.Valid() && fsm.desc == DESC
    modifies fsm, fsm.timers
    ensures fsm.Valid() && fsm.View() == Drive(fsm.timers.Length, old(fsm.View()), event, d)
  {
    fsm.ctx := fsm.ctx.(lastOpOk := false);
    var status := fsm.StepEvent(event, d);
    if status != Ok {
      return;
    }
    if fsm.current != WP_IDLE {
      return;
    }
    if !fsm.ctx.lastOpOk {
      return;
    }
    var _ := fsm.StepEvent(EV_AP_START_OK, d);
    if !fsm.ctx.lastOpOk {
      return;
    }
    var _ := fsm.StepEvent(EV_PROV_START_OK, d);
  }

  predicate IsEntry(event: EventId) {
    event == EV_ENTRY_FIRST_BOOT || event == EV_ENTRY_DEPROV_ANOMALY || event == EV_ENTRY_USER_REQUESTED
  }

  /// The manager task's dispatch: entry events go to the driver, all others to one step.
  function Dispatch(capacity: nat, m: Machine<Ctx>, event: EventId, d: Env): Machine<Ctx> {
    if IsEntry(event) then Drive(capacity, m, event, d) else Feed(capacity, m, event, d).1
  }

  method DispatchEvent(fsm: Engine<Ctx, Env>, event: EventId, d: Env)
    requires fsm.Valid() && fsm.desc == DESC
    modifies fsm, fsm.timers
    ensures fsm.Valid() && fsm.View() == Dispatch(fsm.timers.Length, old(fsm.View()), event, d)
  {
    if event == EV_ENTRY_FIRST_BOOT || event == EV_ENTRY_DEPROV_ANOMALY || event == EV_ENTRY_USER_REQUESTED {
      DriveEntry(fsm, event, d);
    } else {
      var _ := fsm.StepEvent(event, d);
    }
  }

  function Init(capacity: nat, initial: StateId, settleMs: nat): Machine<Ctx> {
    Enter(DESC, capacity, Ctx(false, SettleFloor(settleMs), []), initial)
  }

  // ------------------------------------------------------------------------
  // What the calls made so far have brought about
  // ------------------------------------------------------------------------

  /// The resources the adapter calls leave up, in call order.
  datatype World = World(apUp: bool, portalUp: bool, active: bool)

  function Effected(w: World, call: Call): World {
    match call
    case ApStart(ok) => w.(apUp := ok || w.apUp)
    case ApStop => w.(apUp := false)
    case ProvStart(ok) => w.(portalUp := ok || w.portalUp)
    case ProvStop => w.(portalUp := false)
    case SetActive(active) => w.(active := active)
    case CredsArrived => w
    case Log(_) => w
  }

  function WorldAfter(calls: seq<Call>): World {
    if calls == [] then World(false, false, false)
    else Effected(WorldAfter(calls[..|calls| - 1]), calls[|calls| - 1])
  }

  /// The access point is only stopped behind a closed portal, and fresh credentials are only
  /// announced once both are down.
  predicate InOrder(w: World, call: Call) {
    && (call == ApStop ==> !w.portalUp)
    && (call == CredsArrived ==> !w.portalUp && !w.apUp)
  }

  predicate Orderly(calls: seq<Call>) {
    calls == [] ||
    (Orderly(calls[..|calls| - 1]) && InOrder(WorldAfter(calls[..|calls| - 1]), calls[|calls| - 1]))
  }

  lemma WorldSnoc(calls: seq<Call>, x: Call)
    ensures WorldAfter(calls + [x]) == Effected(WorldAfter(calls), x)
    ensures Orderly(calls + [x]) == (Orderly(calls) && InOrder(WorldAfter(calls), x))
  {
    assert (calls + [x])[..|calls|] == calls;
  }

  lemma World2(calls: seq<Call>, x: Call, y: Call)
    ensures WorldAfter(calls + [x, y]) == Effected(Effected(WorldAfter(calls), x), y)
    ensures Orderly(calls + [x, y]) ==
            (Orderly(calls) && InOrder(WorldAfter(calls), x) && InOrder(Effected(WorldAfter(calls), x), y))
  {
    WorldSnoc(calls, x);
    WorldSnoc(calls + [x], y);
    assert calls + [x, y] == (calls + [x]) + [y];
  }

  function Up(flag: bool): World { World(flag, flag, flag) }

  /// Access point, portal and published flag agree with each other and with the state;
  /// a closing machine has its settle timer armed and any other machine has none.
  ghost predicate Coherent(m: Machine<Ctx>) {
    && !m.terminal
    && m.current in {WP_IDLE, WP_ACTIVE, WP_CLOSING}
    && WorldAfter(m.ctx.calls) == Up(m.current != WP_IDLE)
    && Orderly(m.ctx.calls)
    && m.timers == (if m.current == WP_CLOSING then map[EV_SETTLE_TIMEOUT := SettleFloor(m.ctx.settleMs)] else map[])
  }

  // ------------------------------------------------------------------------
  // Steps
  // ------------------------------------------------------------------------

  lemma ApplyOne(capacity: nat, req: TimerReq)
    ensures ApplyAll(capacity, map[], [req]) == Apply(capacity, map[], req)
  {
    assert [req][..0] == [];
  }

  lemma EnterState(capacity: nat, c: Ctx, state: StateId)
    requires capacity >= 1 && state in {WP_IDLE, WP_ACTIVE, WP_CLOSING}
    ensures Enter(DESC, capacity, c, state) ==
            Machine(state, false,
                    if state == WP_CLOSING then map[EV_SETTLE_TIMEOUT := SettleFloor(c.settleMs)] else map[],
                    if state == WP_IDLE then IdleOnEntry(c, state).ctx else if state == WP_ACTIVE then ActiveOnEntry(c, state).ctx else c)
  {
    assert STATES[state].state == state;
    assert Lookup(STATES, state) == Some(state) by {
      assert forall i :: 0 <= i < |STATES| && STATES[i].state == state ==> i == state;
    }
    ApplyOne(capacity, Arm(EV_SETTLE_TIMEOUT, SettleFloor(c.settleMs)));
  }

  lemma ExitIsSilent(c: Ctx, state: StateId)
    ensures ExitEffect(DESC, c, state).ctx == c
  {
    var i := Lookup(STATES, state);
    if i.Some? { assert STATES[i.value].onExit == NoHook; }
  }

  function Choose(state: StateId, event: EventId): Option<nat> {
    if state == WP_IDLE && event <= EV_PROV_START_OK then Some(event)
    else if state == WP_ACTIVE && event == EV_ENTRY_USER_REQUESTED then Some(5)
    else if state == WP_ACTIVE && event == EV_SAVE_SUCCESS then Some(6)
    else if state == WP_CLOSING && event == EV_SETTLE_TIMEOUT then Some(7)
    else None
  }

  lemma FeedFires(capacity: nat, m: Machine<Ctx>, event: EventId, d: Env)
    requires !m.terminal
    ensures Feed(capacity, m, event, d) ==
            match Choose(m.current, event)
            case None => (NotFound, m)
            case Some(k) => (Ok, Fire(DESC, capacity, m, ROWS[k], event, d))
  {
    var k := Choose(m.current, event);
    if k.Some? {
      assert RowMatches(ROWS[k.value], m.current, m.ctx, event, d);
      StepFiresRow(DESC, capacity, m, event, d, k.value);
    }
  }

  /// A row that stays put only runs its action.
  lemma FeedSame(capacity: nat, m: Machine<Ctx>, event: EventId, d: Env, k: nat)
    requires !m.terminal && Choose(m.current, event) == Some(k) && k in {0, 1, 2, 3, 5}
    ensures Feed(capacity, m, event, d) == (Ok, m.(ctx := ROWS[k].action(m.ctx, event, d).ctx))
  {
    FeedFires(capacity, m, event, d);
    assert ROWS[k].next == Same && ROWS[k].action(m.ctx, event, d).requests == [];
  }

  lemma FeedGoto(capacity: nat, m: Machine<Ctx>, event: EventId, d: Env, k: nat)
    requires capacity >= 1 && !m.terminal && Choose(m.current, event) == Some(k) && k in {4, 6, 7}
    ensures Feed(capacity, m, event, d) ==
            (Ok, Enter(DESC, capacity, ROWS[k].action(m.ctx, event, d).ctx, if k == 4 then WP_ACTIVE else if k == 6 then WP_CLOSING else WP_IDLE))
  {
    FeedFires(capacity, m, event, d);
    ExitIsSilent(ROWS[k].action(m.ctx, event, d).ctx, m.current);
  }

  // ------------------------------------------------------------------------
  // One driver call
  // ------------------------------------------------------------------------

  /// Hop 1 from the idle state: the access point is up exactly if its start succeeded.
  lemma FirstHop(capacity: nat, m: Machine<Ctx>, event: EventId, d: Env)
    requires Coherent(m) && m.current == WP_IDLE && IsEntry(event)
    ensures var r := Feed(capacity, m.(ctx := m.ctx.(lastOpOk := false)), event, d);
            && r.0 == Ok && r.1.current == WP_IDLE && r.1.timers == map[] && !r.1.terminal
            && r.1.ctx.lastOpOk == d.apStartOk && r.1.ctx.settleMs == m.ctx.settleMs
            && WorldAfter(r.1.ctx.calls) == World(d.apStartOk, false, false) && Orderly(r.1.ctx.calls)
  {
    FeedSame(capacity, m.(ctx := m.ctx.(lastOpOk := false)), event, d, event);
    World2(m.ctx.calls, Log(EntryLog(event)), ApStart(d.apStartOk));
    WorldSnoc(m.ctx.calls + [Log(EntryLog(event)), ApStart(d.apStartOk)], Log(ApStartFailed));
    var a := m.ctx.calls + [Log(EntryLog(event)), ApStart(d.apStartOk)];
    assert a + [] == a;
  }

  /// Hop 2: the portal is up exactly if its start succeeded, and otherwise the access point is rolled back.
  lemma SecondHop(capacity: nat, m: Machine<Ctx>, d: Env)
    requires !m.terminal && m.current == WP_IDLE && m.timers == map[] && !WorldAfter(m.ctx.calls).portalUp
    ensures var s := Feed(capacity, m, EV_AP_START_OK, d).1;
            && s.current == WP_IDLE && s.timers == map[] && !s.terminal
            && s.ctx.lastOpOk == d.provStartOk && s.ctx.settleMs == m.ctx.settleMs
            && WorldAfter(s.ctx.calls) ==
               World(WorldAfter(m.ctx.calls).apUp && d.provStartOk, d.provStartOk, WorldAfter(m.ctx.calls).active)
            && Orderly(s.ctx.calls) == Orderly(m.ctx.calls)
  {
    FeedSame(capacity, m, EV_AP_START_OK, d, 3);
    WorldSnoc(m.ctx.calls, ProvStart(d.provStartOk));
    var a := m.ctx.calls + [ProvStart(d.provStartOk)];
    World2(a, ApStop, Log(ProvStartFailed));
    assert a + [] == a;
  }

  lemma ThirdHop(capacity: nat, m: Machine<Ctx>, d: Env)
    requires capacity >= 1 && !m.terminal && m.current == WP_IDLE && m.timers == map[]
    ensures var s := Feed(capacity, m, EV_PROV_START_OK, d).1;
            && s.current == WP_ACTIVE && s.timers == map[] && !s.terminal && s.ctx.settleMs == m.ctx.settleMs
            && WorldAfter(s.ctx.calls) == WorldAfter(m.ctx.calls).(active := true)
            && Orderly(s.ctx.calls) == Orderly(m.ctx.calls)
  {
    FeedGoto(capacity, m, EV_PROV_START_OK, d, 4);
    EnterState(capacity, m.ctx, WP_ACTIVE);
    World2(m.ctx.calls, Log(PortalOpen), SetActive(true));
  }

  /// One entry attempt from idle opens the portal exactly when both starts succeed, and
  /// otherwise ends idle with everything rolled back.
  lemma EntryFromIdle(capacity: nat, m: Machine<Ctx>, event: EventId, d: Env)
    requires capacity >= 1 && Coherent(m) && m.current == WP_IDLE && IsEntry(event)
    ensures var n := Drive(capacity, m, event, d);
            && Coherent(n) && n.ctx.settleMs == m.ctx.settleMs
            && n.current == if d.apStartOk && d.provStartOk then WP_ACTIVE else WP_IDLE
  {
    FirstHop(capacity, m, event, d);
    if d.apStartOk {
      var r := Feed(capacity, m.(ctx := m.ctx.(lastOpOk := false)), event, d).1;
      SecondHop(capacity, r, d);
      if d.provStartOk {
        ThirdHop(capacity, Feed(capacity, r, EV_AP_START_OK, d).1, d);
      }
    }
  }

  /// Outside the idle state a driver call never changes state or world.
  lemma DriveElsewhere(capacity: nat, m: Machine<Ctx>, event: EventId, d: Env)
    requires capacity >= 1 && Coherent(m) && m.current != WP_IDLE && IsEntry(event)
    ensures Coherent(Drive(capacity, m, event, d)) && Drive(capacity, m, event, d).current == m.current
    ensures Drive(capacity, m, event, d).ctx.settleMs == m.ctx.settleMs
  {
    var m0 := m.(ctx := m.ctx.(lastOpOk := false));
    FeedFires(capacity, m0, event, d);
    if Choose(m.current, event) == Some(5) {
      FeedSame(capacity, m0, event, d, 5);
      WorldSnoc(m.ctx.calls, Log(EntryAlreadyActive));
    }
  }

  /// Save and settle: the portal stays up while closing and is torn down by the settle timeout.
  lemma PlainStep(capacity: nat, m: Machine<Ctx>, event: EventId, d: Env)
    requires capacity >= 1 && Coherent(m) && !IsEntry(event) && event != EV_AP_START_OK && event != EV_PROV_START_OK
    ensures var n := Feed(capacity, m, event, d).1;
            && Coherent(n) && n.ctx.settleMs == m.ctx.settleMs
            && n.current == (if m.current == WP_ACTIVE && event == EV_SAVE_SUCCESS then WP_CLOSING
                             else if m.current == WP_CLOSING && event == EV_SETTLE_TIMEOUT then WP_IDLE
                             else m.current)
  {
    FeedFires(capacity, m, event, d);
    var k := Choose(m.current, event);
    if k == Some(6) {
      FeedGoto(capacity, m, event, d, 6);
      EnterState(capacity, m.ctx, WP_CLOSING);
    } else if k == Some(7) {
      FeedGoto(capacity, m, event, d, 7);
      var c := ActClosePortal(m.ctx, event, d).ctx;
      EnterState(capacity, c, WP_IDLE);
      ClosingWorld(m.ctx.calls);
    }
  }

  lemma ClosingWorld(calls: seq<Call>)
    ensures WorldAfter(calls + [ProvStop, ApStop, CredsArrived, Log(PortalClosed)] + [SetActive(false)]) == Up(false)
    ensures Orderly(calls + [ProvStop, ApStop, CredsArrived, Log(PortalClosed)] + [SetActive(false)]) == Orderly(calls)
  {
    var a := calls + [ProvStop, ApStop];
    World2(calls, ProvStop, ApStop);
    World2(a, CredsArrived, Log(PortalClosed));
    assert calls + [ProvStop, ApStop, CredsArrived, Log(PortalClosed)] == a + [CredsArrived, Log(PortalClosed)];
    WorldSnoc(calls + [ProvStop, ApStop, CredsArrived, Log(PortalClosed)], SetActive(false));
  }

  // ------------------------------------------------------------------------
  // Runs
  // ------------------------------------------------------------------------

  function RunAll(capacity: nat, m: Machine<Ctx>, inputs: seq<Input<Env>>): Machine<Ctx> {
    if inputs == [] then m
    else
      var last := inputs[|inputs| - 1];
      Dispatch(capacity, RunAll(capacity, m, inputs[..|inputs| - 1]), last.event, last.data)
  }

  /// The two events only the driver itself may post.
  predicate Synthetic(event: EventId) {
    event == EV_AP_START_OK || event == EV_PROV_START_OK
  }

  lemma InitIsCoherent(capacity: nat, settleMs: nat)
    requires capacity >= 1
    ensures Coherent(Init(capacity, WP_IDLE, settleMs))
    ensures Init(capacity, WP_IDLE, settleMs).ctx.settleMs == SettleFloor(settleMs)
  {
    var c := Ctx(false, SettleFloor(settleMs), []);
    EnterState(capacity, c, WP_IDLE);
    WorldSnoc([], SetActive(false));
  }

  /// Provisioning resources: under every sequence of entry attempts, saves, settle timeouts and
  /// stray events, and every success or failure of the start calls, access point, portal and
  /// published flag are up together, exactly while the machine is active or closing.
  lemma {:induction false} ResourcesStayCoherent(capacity: nat, settleMs: nat, inputs: seq<Input<Env>>)
    requires capacity >= 1
    requires forall x :: x in inputs ==> !Synthetic(x.event)
    ensures var m := RunAll(capacity, Init(capacity, WP_IDLE, settleMs), inputs);
            && Coherent(m)
            && (m.current == WP_CLOSING ==>
                  m.timers == map[EV_SETTLE_TIMEOUT := if settleMs == 0 then 1 else settleMs])
            && m.ctx.settleMs == SettleFloor(settleMs)
  {
    if inputs == [] {
      InitIsCoherent(capacity, settleMs);
    } else {
      var before, last := inputs[..|inputs| - 1], inputs[|inputs| - 1];
      ResourcesStayCoherent(capacity, settleMs, before);
      var m := RunAll(capacity, Init(capacity, WP_IDLE, settleMs), before);
      if !IsEntry(last.event) {
        PlainStep(capacity, m, last.event, last.data);
      } else if m.current == WP_IDLE {
        EntryFromIdle(capacity, m, last.event, last.data);
      } else {
        DriveElsewhere(capacity, m, last.event, last.data);
      }
    }
  }

  /// The exclusion is exact: an event dispatched to a coherent machine keeps it coherent,
  /// whatever the start calls answer, unless it is a synthetic event reaching the idle state.
  lemma CoherenceIff(capacity: nat, m: Machine<Ctx>, event: EventId)
    requires capacity >= 1 && Coherent(m)
    ensures (forall d :: Coherent(Dispatch(capacity, m, event, d))) <==> !(m.current == WP_IDLE && Synthetic(event))
  {
    if m.current == WP_IDLE && event == EV_AP_START_OK {
      SecondHop(capacity, m, Env(true, true));
      assert !Coherent(Dispatch(capacity, m, event, Env(true, true)));
    } else if m.current == WP_IDLE && event == EV_PROV_START_OK {
      ThirdHop(capacity, m, Env(true, true));
      assert !Coherent(Dispatch(capacity, m, event, Env(true, true)));
    } else {
      forall d ensures Coherent(Dispatch(capacity, m, event, d)) {
        if IsEntry(event) {
          if m.current == WP_IDLE { EntryFromIdle(capacity, m, event, d); } else { DriveElsewhere(capacity, m, event, d); }
        } else if Synthetic(event) {
          FeedFires(capacity, m, event, d);
        } else {
          PlainStep(capacity, m, event, d);
        }
      }
    }
  }

  /// Why the driver is needed: an entry event given to a plain step leaves an access point
  /// without a portal as soon as it starts.
  lemma EntryNeedsDriver(capacity: nat, m: Machine<Ctx>, event: EventId)
    requires capacity >= 1 && Coherent(m) && m.current == WP_IDLE && IsEntry(event)
    ensures var n := Feed(capacity, m, event, Env(true, true)).1;
            n.current == WP_IDLE && WorldAfter(n.ctx.calls) == World(true, false, false)
  {
    FeedSame(capacity, m, event, Env(true, true), event);
    World2(m.ctx.calls, Log(EntryLog(event)), ApStart(true));
    var a := m.ctx.calls + [Log(EntryLog(event)), ApStart(true)];
    assert a + [] == a;
  }
}
