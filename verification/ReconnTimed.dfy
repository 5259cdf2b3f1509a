/// Timed runs of the reconnect machine: how late the escalation can come when due times
/// are honoured, whether a wait is counted from its arming or from the last event.
module ReconnTimed {
  import opened Wrappers
  import opened Fsm
  import opened ReconnPolicy
  import opened ReconnMachine
  import opened ReconnRuns

  // ------------------------------------------------------------------------
  // Timed runs
  // ------------------------------------------------------------------------

  /// How the shell turns an armed timer into a due time.  FixedDeadline counts from the
  /// moment the timer was armed; RestartOnEvent counts again from every received event.
  datatype Discipline = FixedDeadline | RestartOnEvent

  /// `nowUs` is the instant of the last event, `armedUs` the last instant a state was entered
  /// or a timer armed again, `deniedUs` the last instant a reboot was refused (each the start
  /// of the run if never).
  datatype Clocked = Clocked(m: Machine<Ctx>, nowUs: int, armedUs: int, deniedUs: int)

  /// A run: the state it boots in, when, and the events it receives.
  datatype Trace = Trace(boot: StateId, startUs: int, inputs: seq<Input<Env>>)

  function ArmedUs(m: Machine<Ctx>): nat {
    1000 * if m.current == WR_CONNECTING then m.ctx.cfg.connectingTimeoutMs else m.ctx.pendingBackoffMs
  }

  /// One of the machine's two timers is armed.
  predicate Waiting(m: Machine<Ctx>) {
    EV_CONNECTING_TIMEOUT in m.timers || EV_BACKOFF_TIMEOUT in m.timers
  }

  /// The step arms a timer afresh: it enters a state, or stays put and re-arms.
  predicate Rearms(m: Machine<Ctx>, event: EventId, d: Env) {
    var k := Choose(m, event, d);
    k.Some? && k.value < |ROWS| && (ROWS[k.value].next.Goto? || ROWS[k.value].action(m.ctx, event, d).requests != [])
  }

  function DueUs(discipline: Discipline, t: Clocked): Option<int> {
    if !Waiting(t.m) then None
    else Some((if discipline.RestartOnEvent? then t.nowUs else t.armedUs) + ArmedUs(t.m))
  }

  /// An input may arrive no earlier than the last one and no later than the due time.
  predicate InTime(discipline: Discipline, t: Clocked, input: Input<Env>) {
    && t.nowUs <= input.data.nowUs
    && (DueUs(discipline, t).Some? ==> input.data.nowUs <= DueUs(discipline, t).value)
  }

  function Tick(t: Clocked, input: Input<Env>): Clocked {
    var now := input.data.nowUs;
    Clocked(
      Advance(t.m, input.event, input.data),
      now,
      if Rearms(t.m, input.event, input.data) then now else t.armedUs,
      if Choose(t.m, input.event, input.data) in {Some(4), Some(8)} then now else t.deniedUs)
  }

  /// The run after its first `k` events.
  function After(cfg: Config, r: Trace, k: nat): Clocked
    requires k <= |r.inputs|
  {
    if k == 0 then Clocked(Standing(r.boot, Boot(cfg)), r.startUs, r.startUs, r.startUs)
    else Tick(After(cfg, r, k - 1), r.inputs[k - 1])
  }

  function End(cfg: Config, r: Trace): Clocked {
    After(cfg, r, |r.inputs|)
  }

  /// A run from boot that honours every due time.
  ghost predicate Legal(discipline: Discipline, cfg: Config, r: Trace) {
    BootState(r.boot) && forall k :: 0 <= k < |r.inputs| ==> InTime(discipline, After(cfg, r, k), r.inputs[k])
  }

  lemma {:induction false} AfterIsWalk(cfg: Config, r: Trace, k: nat)
    requires BootState(r.boot) && k <= |r.inputs|
    ensures After(cfg, r, k).m == Walk(cfg, r.boot, r.inputs[..k])
    ensures Good(cfg, After(cfg, r, k).m)
  {
    WalkIsGood(cfg, r.boot, r.inputs[..k]);
    if k > 0 {
      AfterIsWalk(cfg, r, k - 1);
      assert DropLast(r.inputs[..k]) == r.inputs[..k - 1];
    }
  }

  /// Event `k` of a legal run is a step from a good machine, in time.
  lemma LegalStep(discipline: Discipline, cfg: Config, r: Trace, k: nat)
    requires Legal(discipline, cfg, r) && k < |r.inputs|
    ensures Good(cfg, After(cfg, r, k).m)
    ensures InTime(discipline, After(cfg, r, k), r.inputs[k])
    ensures After(cfg, r, k + 1) == Tick(After(cfg, r, k), r.inputs[k])
  {
    AfterIsWalk(cfg, r, k);
  }

  lemma RearmingRows(m: Machine<Ctx>, event: EventId, d: Env)
    ensures Rearms(m, event, d) <==> Choose(m, event, d).Some? && Choose(m, event, d) != Some(14)
  {
    var k := Choose(m, event, d);
    if k.Some? {
      ChoiceFacts(m, event, d, k.value);
      if k.value == 14 {
        assert ROWS[14].action(m.ctx, event, d).requests == [];
      } else if k.value == 5 {
        assert ROWS[5].action(m.ctx, event, d).requests != [];
      } else if k.value == 9 {
        assert ROWS[9].action(m.ctx, event, d).requests != [];
      } else {
        assert ROWS[k.value].next.Goto?;
      }
    }
  }

  /// A step that arms nothing leaves the machine as it was.
  lemma AbsorbedChangesNothing(cfg: Config, m: Machine<Ctx>, event: EventId, d: Env)
    requires Good(cfg, m) && !Rearms(m, event, d)
    ensures Advance(m, event, d) == m
  {
    RearmingRows(m, event, d);
    if Choose(m, event, d) == Some(14) {
      ChoiceFacts(m, event, d, 14);
      assert m.ctx.calls + [] == m.ctx.calls;
    }
  }

  /// Timers stand in the two waiting states only.
  lemma WaitingStates(cfg: Config, m: Machine<Ctx>)
    requires Good(cfg, m) && Ticking(cfg)
    ensures Waiting(m) <==> m.current == WR_CONNECTING || m.current == WR_BACKOFF
    ensures m.current == WR_BACKOFF ==> ArmedUs(m) <= LongestBackoffUs(cfg)
    ensures m.current == WR_CONNECTING ==> ArmedUs(m) == ConnectUs(cfg)
  {}

  // ------------------------------------------------------------------------
  // The escalation deadline
  // ------------------------------------------------------------------------

  function Max(a: int, b: int): int { if a >= b then a else b }

  function LongestBackoffUs(cfg: Config): int {
    1000 * Max(Max(Max(cfg.handshakeTier2Ms, cfg.handshakeTier3Ms), Max(cfg.slowTier1Ms, cfg.slowTier2Ms)), cfg.genericPauseMs)
  }

  function ConnectUs(cfg: Config): int { 1000 * cfg.connectingTimeoutMs }

  predicate Ticking(cfg: Config) {
    cfg.connectingTimeoutMs > 0 && cfg.genericPauseMs > 0
  }

  /// The failure window is open.
  predicate Open(t: Clocked) { t.m.ctx.policy.firstFailUs != 0 }

  /// The instant from which escalation is overdue, before any waiting.
  function Ripe(cfg: Config, t: Clocked): int {
    Max(t.m.ctx.policy.firstFailUs + cfg.windowUs, t.deniedUs)
  }

  /// How far the events received since the arming have put off the due time.
  function Lag(discipline: Discipline, t: Clocked): int {
    if discipline.RestartOnEvent? then t.nowUs - t.armedUs else 0
  }

  /// While the window is open, a backoff is put off by at most `backoffUs` and a connect
  /// attempt by at most `connectUs`.
  predicate LagWithin(discipline: Discipline, t: Clocked, backoffUs: int, connectUs: int) {
    && (Open(t) && t.m.current == WR_BACKOFF ==> Lag(discipline, t) <= backoffUs)
    && (Open(t) && t.m.current == WR_CONNECTING ==> Lag(discipline, t) <= connectUs)
  }

  ghost predicate LagsWithin(discipline: Discipline, cfg: Config, r: Trace, backoffUs: int, connectUs: int) {
    forall k :: 0 <= k <= |r.inputs| ==> LagWithin(discipline, After(cfg, r, k), backoffUs, connectUs)
  }

  /// What a step does to the window start.
  lemma StepTiming(cfg: Config, m: Machine<Ctx>, event: EventId, d: Env, k: nat)
    requires Good(cfg, m) && Choose(m, event, d) == Some(k)
    ensures var f, g := m.ctx.policy.firstFailUs, Advance(m, event, d).ctx.policy.firstFailUs;
            && (g != 0 && f != 0 ==> g == f)
            && (g != 0 && f == 0 ==> g == d.nowUs)
            && (k in {5, 6, 9, 11, 12} && g != 0 ==> d.nowUs <= g + cfg.windowUs)
            && (k in {0, 1, 15} ==> g == 0)
    ensures k < 16 && Advance(m, event, d).current == Target(k)
    ensures k == 13 || k == 14 ==> m.current == WR_BACKOFF && Advance(m, event, d).ctx.policy == m.ctx.policy
  {
    ChoiceFacts(m, event, d, k);
  }

  /// Clock values are in order: refusals and the window start are no later than the last
  /// arming, and that no later than the last event.
  predicate Ordered(t: Clocked) {
    t.deniedUs <= t.armedUs <= t.nowUs && (Open(t) ==> t.m.ctx.policy.firstFailUs <= t.armedUs)
  }

  lemma TickKeepsOrder(cfg: Config, t: Clocked, input: Input<Env>)
    requires Good(cfg, t.m) && Ordered(t) && t.nowUs <= input.data.nowUs
    ensures Ordered(Tick(t, input))
  {
    var d, k := input.data, Choose(t.m, input.event, input.data);
    RearmingRows(t.m, input.event, d);
    if k.Some? {
      StepTiming(cfg, t.m, input.event, d, k.value);
    }
  }

  lemma {:induction false} RunsAreOrdered(discipline: Discipline, cfg: Config, r: Trace, k: nat)
    requires Legal(discipline, cfg, r) && k <= |r.inputs|
    ensures Ordered(After(cfg, r, k))
  {
    hide Tick;
    if k > 0 {
      RunsAreOrdered(discipline, cfg, r, k - 1);
      LegalStep(discipline, cfg, r, k - 1);
      TickKeepsOrder(cfg, After(cfg, r, k - 1), r.inputs[k - 1]);
    }
  }

  /// While the window is open a backoff starts no later than `Ripe`, and a connect attempt no
  /// later than one longest backoff, put off by `backoffUs`, after that.
  predicate OnSchedule(cfg: Config, t: Clocked, backoffUs: int) {
    && (Open(t) && t.m.current == WR_BACKOFF ==> t.armedUs <= Ripe(cfg, t))
    && (Open(t) && t.m.current == WR_CONNECTING ==> t.armedUs <= Ripe(cfg, t) + LongestBackoffUs(cfg) + backoffUs)
  }

  lemma TickKeepsSchedule(discipline: Discipline, cfg: Config, t: Clocked, input: Input<Env>, backoffUs: nat, connectUs: nat)
    requires Ticking(cfg) && Good(cfg, t.m) && OnSchedule(cfg, t, backoffUs) && InTime(discipline, t, input)
    requires LagWithin(discipline, t, backoffUs, connectUs)
    ensures OnSchedule(cfg, Tick(t, input), backoffUs)
  {
    var d, k := input.data, Choose(t.m, input.event, input.data);
    WaitingStates(cfg, t.m);
    RearmingRows(t.m, input.event, d);
    if k.Some? {
      StepTiming(cfg, t.m, input.event, d, k.value);
      ChoiceFacts(t.m, input.event, d, k.value);
    }
  }

  lemma {:induction false} RunsStayOnSchedule(discipline: Discipline, cfg: Config, r: Trace, backoffUs: nat, connectUs: nat, k: nat)
    requires Ticking(cfg) && Legal(discipline, cfg, r) && LagsWithin(discipline, cfg, r, backoffUs, connectUs)
    requires k <= |r.inputs|
    ensures OnSchedule(cfg, After(cfg, r, k), backoffUs)
  {
    hide Tick;
    if k > 0 {
      RunsStayOnSchedule(discipline, cfg, r, backoffUs, connectUs, k - 1);
      LegalStep(discipline, cfg, r, k - 1);
      TickKeepsSchedule(discipline, cfg, After(cfg, r, k - 1), r.inputs[k - 1], backoffUs, connectUs);
    }
  }

  /// What a machine that waits with an open window still has to wait through.
  function BoundUs(cfg: Config): int {
    LongestBackoffUs(cfg) + ConnectUs(cfg)
  }

  /// With an open window, more than `boundUs` after `Ripe` only two states are left.
  predicate EscalatedBy(cfg: Config, t: Clocked, now: int, boundUs: int) {
    Open(t) && now > Ripe(cfg, t) + boundUs ==> t.m.current == WR_ESCALATE_REBOOT || t.m.current == WR_LEFT
  }

  predicate BeforeDue(discipline: Discipline, t: Clocked, now: int) {
    DueUs(discipline, t).Some? ==> now <= DueUs(discipline, t).value
  }

  /// At any point of the run and any instant up to the next due time, the machine has escalated
  /// or is parked once it is `boundUs` overdue.
  ghost predicate MeetsDeadline(discipline: Discipline, cfg: Config, r: Trace, boundUs: int) {
    forall k, now :: 0 <= k <= |r.inputs| && BeforeDue(discipline, After(cfg, r, k), now) ==>
      EscalatedBy(cfg, After(cfg, r, k), now, boundUs)
  }

  lemma ScheduledIsEscalated(discipline: Discipline, cfg: Config, t: Clocked, now: int, backoffUs: nat, connectUs: nat)
    requires Ticking(cfg) && Good(cfg, t.m) && OnSchedule(cfg, t, backoffUs)
    requires LagWithin(discipline, t, backoffUs, connectUs) && BeforeDue(discipline, t, now)
    ensures EscalatedBy(cfg, t, now, BoundUs(cfg) + backoffUs + connectUs)
  {
    WaitingStates(cfg, t.m);
  }

  /// The deadline under either discipline: each wait adds the lag it was put off by.
  lemma DeadlineWithLags(discipline: Discipline, cfg: Config, r: Trace, backoffUs: nat, connectUs: nat)
    requires Ticking(cfg) && Legal(discipline, cfg, r) && LagsWithin(discipline, cfg, r, backoffUs, connectUs)
    ensures MeetsDeadline(discipline, cfg, r, BoundUs(cfg) + backoffUs + connectUs)
  {
    forall k, now | 0 <= k <= |r.inputs| && BeforeDue(discipline, After(cfg, r, k), now)
      ensures EscalatedBy(cfg, After(cfg, r, k), now, BoundUs(cfg) + backoffUs + connectUs)
    {
      RunsStayOnSchedule(discipline, cfg, r, backoffUs, connectUs, k);
      AfterIsWalk(cfg, r, k);
      ScheduledIsEscalated(discipline, cfg, After(cfg, r, k), now, backoffUs, connectUs);
    }
  }

  /// Escalation deadline.  In every run that honours timers counted from their arming, at any
  /// instant up to the next due time: once more than window + longest backoff + connect timeout
  /// has passed since the window opened (or longest backoff + connect timeout since a reboot
  /// was last refused, if that is later), the machine has escalated or is parked.
  lemma EscalationDeadline(cfg: Config, r: Trace)
    requires Ticking(cfg) && Legal(FixedDeadline, cfg, r)
    ensures MeetsDeadline(FixedDeadline, cfg, r, BoundUs(cfg))
  {
    DeadlineWithLags(FixedDeadline, cfg, r, 0, 0);
  }

  ghost predicate RebootsPermitted(r: Trace) {
    forall i :: 0 <= i < |r.inputs| ==> r.inputs[i].data.rebootAllowed
  }

  predicate Undenied(t: Clocked, startUs: int) {
    t.deniedUs == startUs <= t.nowUs && (Open(t) ==> startUs <= t.m.ctx.policy.firstFailUs)
  }

  lemma TickKeepsUndenied(cfg: Config, t: Clocked, input: Input<Env>, startUs: int)
    requires Good(cfg, t.m) && Undenied(t, startUs) && t.nowUs <= input.data.nowUs && input.data.rebootAllowed
    ensures Undenied(Tick(t, input), startUs)
  {
    var k := Choose(t.m, input.event, input.data);
    if k.Some? {
      StepTiming(cfg, t.m, input.event, input.data, k.value);
      ChoiceFacts(t.m, input.event, input.data, k.value);
    }
  }

  lemma {:induction false} NoRefusalNoDenial(discipline: Discipline, cfg: Config, r: Trace, k: nat)
    requires Legal(discipline, cfg, r) && RebootsPermitted(r) && k <= |r.inputs|
    ensures Undenied(After(cfg, r, k), r.startUs)
  {
    hide Tick;
    if k > 0 {
      NoRefusalNoDenial(discipline, cfg, r, k - 1);
      LegalStep(discipline, cfg, r, k - 1);
      TickKeepsUndenied(cfg, After(cfg, r, k - 1), r.inputs[k - 1], r.startUs);
    }
  }

  /// With reboots always permitted the bound counts from the first failure alone.
  lemma EscalationDeadlineWhenPermitted(cfg: Config, r: Trace, k: nat, now: int)
    requires Ticking(cfg) && Legal(FixedDeadline, cfg, r) && RebootsPermitted(r)
    requires k <= |r.inputs| && BeforeDue(FixedDeadline, After(cfg, r, k), now)
    ensures var t := After(cfg, r, k);
            Open(t) && now > t.m.ctx.policy.firstFailUs + cfg.windowUs + BoundUs(cfg) ==>
              t.m.current == WR_ESCALATE_REBOOT || t.m.current == WR_LEFT
  {
    EscalationDeadline(cfg, r);
    NoRefusalNoDenial(FixedDeadline, cfg, r, k);
    assert EscalatedBy(cfg, After(cfg, r, k), now, BoundUs(cfg));
  }
}
