/// The Wi-Fi reconnect machine: bb_fsm's row table instantiated with the reconnect
/// guards, actions and entry hooks, and shown equal to a plain transition function.
module ReconnMachine {
  import opened Wrappers
  import opened Fsm
  import opened ReconnPolicy

  const WR_NO_CREDS: StateId := 0
  const WR_CONNECTING: StateId := 1
  const WR_CONNECTED: StateId := 2
  const WR_BACKOFF: StateId := 3
  const WR_ESCALATE_REBOOT: StateId := 4
  const WR_LEFT: StateId := 5

  const EV_GOT_IP: EventId := 0
  const EV_STA_DISCONNECTED: EventId := 1
  const EV_CONNECTING_TIMEOUT: EventId := 2
  const EV_BACKOFF_TIMEOUT: EventId := 3
  const EV_CREDS_ARRIVED: EventId := 4
  const EV_RECONNECT_REQUESTED: EventId := 5

  /// Everything the adapter may answer during one step: the mapped disconnect
  /// reason, the clock, and whether a safeguard reboot is allowed right now.
  datatype Env = Env(reason: Reason, nowUs: int, rebootAllowed: bool)

  /// Side effects issued through the adapter, in order.
  datatype Call = Connect | ConnectFresh | Disconnect | RebootCall | RebootDenied(reason: Reason) | Parked(reason: Reason)

  datatype Ctx = Ctx(cfg: Config, policy: Policy, pendingBackoffMs: nat, selfDisconnect: bool, calls: seq<Call>)

  // --- Guards ----------------------------------------------------------------

  function Always(c: Ctx, e: EventId, d: Env): bool { true }

  function GuardEscalateAllowed(c: Ctx, e: EventId, d: Env): bool {
    WouldEscalate(c.cfg, c.policy, d.nowUs) && d.rebootAllowed
  }

  function GuardEscalateDenied(c: Ctx, e: EventId, d: Env): bool {
    WouldEscalate(c.cfg, c.policy, d.nowUs)
  }

  function GuardReconnectNow(c: Ctx, e: EventId, d: Env): bool {
    WouldReconnectNow(c.cfg, c.policy, d.reason)
  }

  function GuardAssocLeave(c: Ctx, e: EventId, d: Env): bool {
    d.reason == AssocLeave
  }

  // --- Actions ---------------------------------------------------------------

  function ArmConnecting(c: Ctx): seq<TimerReq> {
    [Arm(EV_CONNECTING_TIMEOUT, c.cfg.connectingTimeoutMs)]
  }

  function NoAction(c: Ctx, e: EventId, d: Env): Effect<Ctx> { Effect(c, []) }

  function ActResetState(c: Ctx, e: EventId, d: Env): Effect<Ctx> {
    Effect(c.(policy := FRESH, selfDisconnect := false, calls := c.calls + [Connect]), [])
  }

  function ActCredsArrived(c: Ctx, e: EventId, d: Env): Effect<Ctx> {
    Effect(c.(policy := FRESH, selfDisconnect := false, calls := c.calls + [ConnectFresh]), [])
  }

  function ActOnGotIp(c: Ctx, e: EventId, d: Env): Effect<Ctx> {
    Effect(c.(policy := OnGotIp(c.policy), pendingBackoffMs := 0), [])
  }

  function ActNoteDisconnect(c: Ctx, e: EventId, d: Env): Effect<Ctx> {
    Effect(c.(policy := OnDisconnect(c.cfg, c.policy, d.nowUs, d.reason).policy), [])
  }

  function ActDisconnectDenied(c: Ctx, e: EventId, d: Env): Effect<Ctx> {
    Effect(c.(policy := OnDisconnect(c.cfg, c.policy, d.nowUs, d.reason).policy,
              pendingBackoffMs := c.cfg.genericPauseMs,
              calls := c.calls + [RebootDenied(d.reason)]), [])
  }

  function ActDisconnectPark(c: Ctx, e: EventId, d: Env): Effect<Ctx> {
    Effect(c.(policy := OnDisconnect(c.cfg, c.policy, d.nowUs, d.reason).policy,
              calls := c.calls + [Parked(d.reason)]), [])
  }

  function ActDisconnectReconnectNow(c: Ctx, e: EventId, d: Env): Effect<Ctx> {
    Effect(c.(policy := OnDisconnect(c.cfg, c.policy, d.nowUs, d.reason).policy,
              calls := c.calls + [Connect]), ArmConnecting(c))
  }

  function ActDisconnectBackoff(c: Ctx, e: EventId, d: Env): Effect<Ctx> {
    var r := OnDisconnect(c.cfg, c.policy, d.nowUs, d.reason);
    Effect(c.(policy := r.policy, pendingBackoffMs := if r.backoffMs.Some? then r.backoffMs.value else 0), [])
  }

  function ActNoteTimeout(c: Ctx, e: EventId, d: Env): Effect<Ctx> {
    Effect(c.(policy := OnConnectTimeout(c.cfg, c.policy, d.nowUs).policy), [])
  }

  function ActTimeoutDenied(c: Ctx, e: EventId, d: Env): Effect<Ctx> {
    Effect(c.(policy := OnConnectTimeout(c.cfg, c.policy, d.nowUs).policy,
              pendingBackoffMs := c.cfg.genericPauseMs,
              calls := c.calls + [RebootDenied(Unknown)]), [])
  }

  function ActTimeoutReattempt(c: Ctx, e: EventId, d: Env): Effect<Ctx> {
    Effect(c.(policy := OnConnectTimeout(c.cfg, c.policy, d.nowUs).policy,
              selfDisconnect := true,
              calls := c.calls + [Disconnect, Connect]), ArmConnecting(c))
  }

  function ActBackoffElapsed(c: Ctx, e: EventId, d: Env): Effect<Ctx> {
    Effect(c.(calls := c.calls + [Connect]), [])
  }

  // --- Hooks -----------------------------------------------------------------

  function NoHook(c: Ctx, s: StateId): Effect<Ctx> { Effect(c, []) }

  function ConnectingOnEntry(c: Ctx, s: StateId): Effect<Ctx> { Effect(c, ArmConnecting(c)) }

  function BackoffOnEntry(c: Ctx, s: StateId): Effect<Ctx> {
    Effect(c, [Arm(EV_BACKOFF_TIMEOUT, c.pendingBackoffMs)])
  }

  function EscalateOnEntry(c: Ctx, s: StateId): Effect<Ctx> {
    Effect(c.(calls := c.calls + [RebootCall]), [])
  }

  // --- Tables ----------------------------------------------------------------

  const ROWS: seq<Row<Ctx, Env>> := [
    Row(At(WR_NO_CREDS), EV_CREDS_ARRIVED, Always, ActCredsArrived, Goto(WR_CONNECTING)),

    Row(At(WR_CONNECTING), EV_GOT_IP, Always, ActOnGotIp, Goto(WR_CONNECTED)),
    Row(At(WR_CONNECTING), EV_STA_DISCONNECTED, GuardAssocLeave, ActDisconnectPark, Goto(WR_LEFT)),
    Row(At(WR_CONNECTING), EV_STA_DISCONNECTED, GuardEscalateAllowed, ActNoteDisconnect, Goto(WR_ESCALATE_REBOOT)),
    Row(At(WR_CONNECTING), EV_STA_DISCONNECTED, GuardEscalateDenied, ActDisconnectDenied, Goto(WR_BACKOFF)),
    Row(At(WR_CONNECTING), EV_STA_DISCONNECTED, GuardReconnectNow, ActDisconnectReconnectNow, Same),
    Row(At(WR_CONNECTING), EV_STA_DISCONNECTED, Always, ActDisconnectBackoff, Goto(WR_BACKOFF)),
    Row(At(WR_CONNECTING), EV_CONNECTING_TIMEOUT, GuardEscalateAllowed, ActNoteTimeout, Goto(WR_ESCALATE_REBOOT)),
    Row(At(WR_CONNECTING), EV_CONNECTING_TIMEOUT, GuardEscalateDenied, ActTimeoutDenied, Goto(WR_BACKOFF)),
    Row(At(WR_CONNECTING), EV_CONNECTING_TIMEOUT, Always, ActTimeoutReattempt, Same),

    Row(At(WR_CONNECTED), EV_STA_DISCONNECTED, GuardAssocLeave, ActDisconnectPark, Goto(WR_LEFT)),
    Row(At(WR_CONNECTED), EV_STA_DISCONNECTED, GuardReconnectNow, ActDisconnectReconnectNow, Goto(WR_CONNECTING)),
    Row(At(WR_CONNECTED), EV_STA_DISCONNECTED, Always, ActDisconnectBackoff, Goto(WR_BACKOFF)),

    Row(At(WR_BACKOFF), EV_BACKOFF_TIMEOUT, Always, ActBackoffElapsed, Goto(WR_CONNECTING)),
    Row(At(WR_BACKOFF), EV_STA_DISCONNECTED, Always, NoAction, Same),

    Row(At(WR_LEFT), EV_RECONNECT_REQUESTED, Always, ActResetState, Goto(WR_CONNECTING))
  ]

  const STATES: seq<Hooks<Ctx>> := [
    Hooks(WR_CONNECTING, ConnectingOnEntry, NoHook),
    Hooks(WR_BACKOFF, BackoffOnEntry, NoHook),
    Hooks(WR_ESCALATE_REBOOT, EscalateOnEntry, NoHook)
  ]

  function ReconnDesc(initial: StateId): Desc<Ctx, Env> {
    Desc(ROWS, STATES, initial)
  }

  function Boot(cfg: Config): Ctx {
    Ctx(cfg, FRESH, 0, false, [])
  }

  /// wifi_reconn_fsm_init.
  function Init(cfg: Config, capacity: nat, initial: StateId): Machine<Ctx> {
    Enter(ReconnDesc(initial), capacity, Boot(cfg), initial)
  }

  // ------------------------------------------------------------------------
  // The table, read as a decision
  // ------------------------------------------------------------------------

  /// Which row a step selects, without scanning.
  function Choose(m: Machine<Ctx>, event: EventId, d: Env): Option<nat> {
    var c := m.ctx;
    var esc := WouldEscalate(c.cfg, c.policy, d.nowUs);
    var leave := d.reason == AssocLeave;
    var hot := WouldReconnectNow(c.cfg, c.policy, d.reason);
    if m.current == WR_NO_CREDS then
      if event == EV_CREDS_ARRIVED then Some(0) else None
    else if m.current == WR_CONNECTING then
      if event == EV_GOT_IP then Some(1)
      else if event == EV_STA_DISCONNECTED then
        Some(if leave then 2 else if esc then (if d.rebootAllowed then 3 else 4) else if hot then 5 else 6)
      else if event == EV_CONNECTING_TIMEOUT then
        Some(if esc then (if d.rebootAllowed then 7 else 8) else 9)
      else None
    else if m.current == WR_CONNECTED then
      if event == EV_STA_DISCONNECTED then Some(if leave then 10 else if hot then 11 else 12) else None
    else if m.current == WR_BACKOFF then
      if event == EV_BACKOFF_TIMEOUT then Some(13) else if event == EV_STA_DISCONNECTED then Some(14) else None
    else if m.current == WR_LEFT then
      if event == EV_RECONNECT_REQUESTED then Some(15) else None
    else None
  }

  /// The source column of the table, in row order.
  function Source(k: nat): StateId {
    if k == 0 then WR_NO_CREDS
    else if k <= 9 then WR_CONNECTING
    else if k <= 12 then WR_CONNECTED
    else if k <= 14 then WR_BACKOFF
    else WR_LEFT
  }

  /// The event column of the table, in row order.
  function Trigger(k: nat): EventId {
    if k == 0 then EV_CREDS_ARRIVED
    else if k == 1 then EV_GOT_IP
    else if 7 <= k <= 9 then EV_CONNECTING_TIMEOUT
    else if k == 13 then EV_BACKOFF_TIMEOUT
    else if k == 15 then EV_RECONNECT_REQUESTED
    else EV_STA_DISCONNECTED
  }

  /// What a selected row says about the state, the event and the environment.
  lemma ChoiceFacts(m: Machine<Ctx>, event: EventId, d: Env, k: nat)
    requires Choose(m, event, d) == Some(k)
    ensures k < 16 && m.current == Source(k) && event == Trigger(k)
    ensures k == 3 || k == 4 || k == 7 || k == 8 ==> WouldEscalate(m.ctx.cfg, m.ctx.policy, d.nowUs)
    ensures k == 3 || k == 7 ==> d.rebootAllowed
    ensures k == 4 || k == 8 ==> !d.rebootAllowed
    ensures k == 5 || k == 6 || k == 9 ==> !WouldEscalate(m.ctx.cfg, m.ctx.policy, d.nowUs)
    ensures k == 5 || k == 11 ==> WouldReconnectNow(m.ctx.cfg, m.ctx.policy, d.reason)
    ensures k == 6 || k == 12 ==> !WouldReconnectNow(m.ctx.cfg, m.ctx.policy, d.reason)
    ensures k == 2 || k == 10 ==> d.reason == AssocLeave
    ensures k in {3, 4, 5, 6, 11, 12} ==> d.reason != AssocLeave
  {}

  lemma ChosenRowMatches(m: Machine<Ctx>, event: EventId, d: Env, k: nat)
    requires Choose(m, event, d) == Some(k)
    ensures k < |ROWS| && RowMatches(ROWS[k], m.current, m.ctx, event, d)
  {}

  lemma NoEarlierMatch(m: Machine<Ctx>, event: EventId, d: Env, j: nat)
    requires j < |ROWS| && RowMatches(ROWS[j], m.current, m.ctx, event, d)
    ensures Choose(m, event, d).Some? && Choose(m, event, d).value <= j
  {}

  lemma ScanChooses(m: Machine<Ctx>, event: EventId, d: Env)
    ensures FirstRow(ROWS, 0, m.current, m.ctx, event, d) == Choose(m, event, d)
  {
    var r, k := FirstRow(ROWS, 0, m.current, m.ctx, event, d), Choose(m, event, d);
    if k.Some? {
      ChosenRowMatches(m, event, d, k.value);
    }
    if r.Some? {
      NoEarlierMatch(m, event, d, r.value);
    }
  }

  // ------------------------------------------------------------------------
  // A plain transition function
  // ------------------------------------------------------------------------

  function Only(event: EventId, ms: nat): map<EventId, nat> {
    if ms == 0 then map[] else map[event := ms]
  }

  /// The timers a state stands with, given its context.
  function StateTimers(state: StateId, c: Ctx): map<EventId, nat> {
    if state == WR_CONNECTING then Only(EV_CONNECTING_TIMEOUT, c.cfg.connectingTimeoutMs)
    else if state == WR_BACKOFF then Only(EV_BACKOFF_TIMEOUT, c.pendingBackoffMs)
    else map[]
  }

  function Standing(state: StateId, c: Ctx): Machine<Ctx> {
    Machine(state, false, StateTimers(state, c), c)
  }

  function Rebooting(c: Ctx): Machine<Ctx> {
    Standing(WR_ESCALATE_REBOOT, c.(calls := c.calls + [RebootCall]))
  }

  /// Where each row leads, in table order; row 14 stays put.
  function Target(k: nat): StateId {
    if k == 1 then WR_CONNECTED
    else if k == 2 || k == 10 then WR_LEFT
    else if k == 3 || k == 7 then WR_ESCALATE_REBOOT
    else if k == 4 || k == 6 || k == 8 || k == 12 || k == 14 then WR_BACKOFF
    else WR_CONNECTING
  }

  function PolicyAfter(p: Policy, k: nat, d: Env): Policy {
    if k == 0 || k == 15 then FRESH
    else if k == 1 then OnGotIp(p)
    else if k == 13 || k == 14 then p
    else if k == 7 || k == 8 || k == 9 then NoteTimeout(p, d.nowUs)
    else NoteDisconnect(p, d.nowUs, d.reason)
  }

  function PendingAfter(c: Ctx, k: nat, d: Env): nat {
    if k == 1 then 0
    else if k == 4 || k == 8 then c.cfg.genericPauseMs
    else if k == 6 || k == 12 then
      var r := OnDisconnect(c.cfg, c.policy, d.nowUs, d.reason);
      if r.backoffMs.Some? then r.backoffMs.value else 0
    else c.pendingBackoffMs
  }

  function Emits(k: nat, d: Env): seq<Call> {
    if k == 0 then [ConnectFresh]
    else if k == 2 || k == 10 then [Parked(d.reason)]
    else if k == 3 || k == 7 then [RebootCall]
    else if k == 4 then [RebootDenied(d.reason)]
    else if k == 8 then [RebootDenied(Unknown)]
    else if k == 9 then [Disconnect, Connect]
    else if k == 1 || k == 6 || k == 12 || k == 14 then []
    else [Connect]
  }

  function CtxAfter(c: Ctx, k: nat, d: Env): Ctx {
    Ctx(
      c.cfg,
      PolicyAfter(c.policy, k, d),
      PendingAfter(c, k, d),
      if k == 0 || k == 15 then false else k == 9 || c.selfDisconnect,
      c.calls + Emits(k, d))
  }

  function ApplyRow(c: Ctx, k: nat, d: Env): Machine<Ctx> {
    Standing(Target(k), CtxAfter(c, k, d))
  }

  /// The machine after one event, with no table, no hooks and no slot array.
  function Advance(m: Machine<Ctx>, event: EventId, d: Env): Machine<Ctx> {
    var k := Choose(m, event, d);
    if k.None? then m else ApplyRow(m.ctx, k.value, d)
  }

  ghost predicate Stands(m: Machine<Ctx>) {
    m == Standing(m.current, m.ctx)
  }

  lemma ApplyOne(capacity: nat, timers: map<EventId, nat>, req: TimerReq)
    ensures ApplyAll(capacity, timers, [req]) == Apply(capacity, timers, req)
    ensures ApplyAll(capacity, timers, []) == timers
  {
    assert [req][..0] == [];
  }

  /// Entering any state, with at least one timer slot, leaves exactly that state's timers armed.
  lemma EnterStands(initial: StateId, capacity: nat, c: Ctx, state: StateId)
    requires capacity >= 1
    ensures Enter(ReconnDesc(initial), capacity, c, state) ==
            if state == WR_ESCALATE_REBOOT then Rebooting(c) else Standing(state, c)
  {
    var e := EntryEffect(ReconnDesc(initial), c, state);
    var i := Lookup(STATES, state);
    if state == WR_CONNECTING {
      assert STATES[0].state == state;
      ApplyOne(capacity, map[], Arm(EV_CONNECTING_TIMEOUT, c.cfg.connectingTimeoutMs));
    } else if state == WR_BACKOFF {
      assert STATES[1].state == state && STATES[0].state != state;
      ApplyOne(capacity, map[], Arm(EV_BACKOFF_TIMEOUT, c.pendingBackoffMs));
    } else if state == WR_ESCALATE_REBOOT {
      assert STATES[2].state == state && STATES[1].state != state && STATES[0].state != state;
    } else {
      assert i.None?;
    }
  }

  lemma ExitIsSilent(initial: StateId, c: Ctx, state: StateId)
    ensures ExitEffect(ReconnDesc(initial), c, state).ctx == c
  {
    var i := Lookup(STATES, state);
    if i.Some? {
      assert STATES[i.value].onExit == NoHook;
    }
  }

  lemma FireGoto(initial: StateId, capacity: nat, m: Machine<Ctx>, row: Row<Ctx, Env>, event: EventId, d: Env)
    requires capacity >= 1 && row.next.Goto?
    ensures var c := row.action(m.ctx, event, d).ctx;
            Fire(ReconnDesc(initial), capacity, m, row, event, d) ==
            if row.next.state == WR_ESCALATE_REBOOT then Rebooting(c) else Standing(row.next.state, c)
  {
    var a := row.action(m.ctx, event, d);
    ExitIsSilent(initial, a.ctx, m.current);
    EnterStands(initial, capacity, a.ctx, row.next.state);
  }

  lemma FireSame(initial: StateId, capacity: nat, m: Machine<Ctx>, row: Row<Ctx, Env>, event: EventId, d: Env)
    requires capacity >= 1 && row.next.Same? && Stands(m)
    requires var a := row.action(m.ctx, event, d);
             || a == Effect(m.ctx, [])
             || (m.current == WR_CONNECTING && a.ctx.cfg == m.ctx.cfg && a.requests == ArmConnecting(m.ctx))
    ensures Fire(ReconnDesc(initial), capacity, m, row, event, d) == Standing(m.current, row.action(m.ctx, event, d).ctx)
  {
    ApplyOne(capacity, m.timers, Arm(EV_CONNECTING_TIMEOUT, m.ctx.cfg.connectingTimeoutMs));
  }

  lemma FireAdvances(initial: StateId, capacity: nat, m: Machine<Ctx>, event: EventId, d: Env, k: nat)
    requires capacity >= 1 && Stands(m) && Choose(m, event, d) == Some(k)
    ensures Fire(ReconnDesc(initial), capacity, m, ROWS[k], event, d) == Advance(m, event, d)
  {
    hide WouldEscalate, WouldReconnectNow, NoteDisconnect, NoteTimeout, Decide, OnGotIp;
    var row := ROWS[k];
    assert m.ctx.calls + [] == m.ctx.calls;
    if k == 5 || k == 9 || k == 14 {
      FireSame(initial, capacity, m, row, event, d);
    } else {
      assert row.next.Goto?;
      FireGoto(initial, capacity, m, row, event, d);
    }
  }

  /// The table-driven step with any non-empty slot array is the plain transition
  /// function, and reports a match exactly when some row is chosen.
  lemma TableImplementsAdvance(initial: StateId, capacity: nat, m: Machine<Ctx>, event: EventId, d: Env)
    requires capacity >= 1 && Stands(m)
    ensures Step(ReconnDesc(initial), capacity, m, event, d) ==
            (if Choose(m, event, d).Some? then Ok else NotFound, Advance(m, event, d))
    ensures Stands(Advance(m, event, d))
  {
    ScanChooses(m, event, d);
    var k := Choose(m, event, d);
    if k.Some? {
      FireAdvances(initial, capacity, m, event, d, k.value);
    }
  }
}
