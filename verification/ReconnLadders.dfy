/// How long a failure waits, told by how many failures of its kind the inputs hold since the
/// ladders were last cleared.
module ReconnLadders {
  import opened Wrappers
  import opened Fsm
  import opened ReconnPolicy
  import opened ReconnMachine
  import opened ReconnRuns
  import opened ReconnCalls

  datatype Ladder = Handshake | Slow | Generic

  /// Bad credentials and an absent access point share a ladder; a connect timeout climbs the
  /// generic one.
  function LadderOf(input: Input<Env>): Ladder {
    if input.event == EV_CONNECTING_TIMEOUT then Generic
    else match input.data.reason
      case HandshakeTimeout => Handshake
      case AuthFail => Slow
      case NoApFound => Slow
      case _ => Generic
  }

  /// The failures of one ladder among the first `n` inputs, since it was last cleared.
  function FailuresOn(cfg: Config, boot: StateId, inputs: seq<Input<Env>>, n: nat, ladder: Ladder): nat
    requires n <= |inputs|
  {
    if n == 0 || ClearsLadders(cfg, boot, inputs, n - 1) then 0
    else
      FailuresOn(cfg, boot, inputs, n - 1, ladder)
      + if CountsFailure(cfg, boot, inputs, n - 1) && LadderOf(inputs[n - 1]) == ladder then 1 else 0
  }

  function CounterOf(p: Policy, ladder: Ladder): nat {
    match ladder
    case Handshake => p.handshakeFails
    case Slow => p.slowFails
    case Generic => p.genericFails
  }

  lemma StepClimbs(cfg: Config, m: Machine<Ctx>, input: Input<Env>, ladder: Ladder)
    requires Good(cfg, m)
    ensures CounterOf(Advance(m, input.event, input.data).ctx.policy, ladder) ==
            if Clears(m, input.event) then 0
            else CounterOf(m.ctx.policy, ladder) + if Counts(m, input.event) && LadderOf(input) == ladder then 1 else 0
  {
    ClearingRows(m, input.event, input.data);
    CountingRows(m, input.event, input.data);
    var k := Choose(m, input.event, input.data);
    if k.Some? { ChoiceFacts(m, input.event, input.data, k.value); }
  }

  /// Each counter is the number of failures of its ladder since the last clearing.
  lemma {:induction false} LaddersCountInputs(cfg: Config, boot: StateId, inputs: seq<Input<Env>>, n: nat, ladder: Ladder)
    requires BootState(boot) && n <= |inputs|
    ensures CounterOf(Prefix(cfg, boot, inputs, n).ctx.policy, ladder) == FailuresOn(cfg, boot, inputs, n, ladder)
  {
    if n == 0 {
      assert inputs[..0] == [];
    } else {
      hide Advance, CounterOf, Walk, LadderOf;
      LaddersCountInputs(cfg, boot, inputs, n - 1, ladder);
      PrefixAdvances(cfg, boot, inputs, n - 1);
      StepClimbs(cfg, Prefix(cfg, boot, inputs, n - 1), inputs[n - 1], ladder);
    }
  }

  /// The wait after the `n`-th failure of a ladder, in milliseconds; 0 retries at once.
  function WaitMs(cfg: Config, ladder: Ladder, n: nat): nat {
    match ladder
    case Handshake =>
      if n <= cfg.handshakeFastLimit then 0
      else if n <= cfg.handshakeTier2Limit then cfg.handshakeTier2Ms
      else cfg.handshakeTier3Ms
    case Slow => if n <= cfg.slowTier1Limit then cfg.slowTier1Ms else cfg.slowTier2Ms
    case Generic => if n <= cfg.genericFastLimit then 0 else cfg.genericPauseMs
  }

  /// The machine waits `ms` before it connects again.
  predicate WaitsFor(m: Machine<Ctx>, ms: nat) {
    if ms == 0 then m.current == WR_CONNECTING
    else m.current == WR_BACKOFF && m.timers == map[EV_BACKOFF_TIMEOUT := ms]
  }

  lemma StepWaits(cfg: Config, m: Machine<Ctx>, input: Input<Env>)
    requires Good(cfg, m) && Retries(m, input.event, input.data)
    ensures var n := Advance(m, input.event, input.data); var ladder := LadderOf(input);
            WaitsFor(n, WaitMs(cfg, ladder, CounterOf(n.ctx.policy, ladder)))
  {
    EscalateIsOverrun(m, input.data.nowUs);
    var k := Choose(m, input.event, input.data);
    ChoiceFacts(m, input.event, input.data, k.value);
    PeeksPredictDecision(cfg, m.ctx.policy, input.data.nowUs, input.data.reason);
  }

  /// A lost connection that is to be retried waits exactly as long as the number of failures
  /// of its ladder since the last clearing says, this one included.
  lemma WaitFollowsCount(cfg: Config, boot: StateId, inputs: seq<Input<Env>>, k: nat)
    requires BootState(boot) && k < |inputs|
    requires Retries(Prefix(cfg, boot, inputs, k), inputs[k].event, inputs[k].data)
    ensures var ladder := LadderOf(inputs[k]);
            WaitsFor(Prefix(cfg, boot, inputs, k + 1), WaitMs(cfg, ladder, FailuresOn(cfg, boot, inputs, k + 1, ladder)))
  {
    PrefixAdvances(cfg, boot, inputs, k);
    StepWaits(cfg, Prefix(cfg, boot, inputs, k), inputs[k]);
    LaddersCountInputs(cfg, boot, inputs, k + 1, LadderOf(inputs[k]));
  }

  /// After a refused reboot the machine waits the generic pause; a connect timeout in a window
  /// that is not overrun starts the next attempt.
  predicate PausesOrRestarts(m: Machine<Ctx>, event: EventId, d: Env, n: Machine<Ctx>) {
    && (Denied(m, event, d) ==>
          n.current == WR_BACKOFF && n.timers == Only(EV_BACKOFF_TIMEOUT, m.ctx.cfg.genericPauseMs))
    && (m.current == WR_CONNECTING && event == EV_CONNECTING_TIMEOUT && !Overrun(m, d.nowUs) ==>
          n.current == WR_CONNECTING && n.timers == Only(EV_CONNECTING_TIMEOUT, m.ctx.cfg.connectingTimeoutMs))
  }

  lemma StepPauses(cfg: Config, m: Machine<Ctx>, event: EventId, d: Env)
    requires Good(cfg, m)
    ensures PausesOrRestarts(m, event, d, Advance(m, event, d))
  {
    EscalateIsOverrun(m, d.nowUs);
  }

  /// Refusals and connect timeouts wait as they should, whatever the ladders say.
  lemma RefusalAndTimeoutWaits(cfg: Config, boot: StateId, inputs: seq<Input<Env>>, k: nat)
    requires BootState(boot) && k < |inputs|
    ensures PausesOrRestarts(Prefix(cfg, boot, inputs, k), inputs[k].event, inputs[k].data, Prefix(cfg, boot, inputs, k + 1))
  {
    PrefixAdvances(cfg, boot, inputs, k);
    StepPauses(cfg, Prefix(cfg, boot, inputs, k), inputs[k].event, inputs[k].data);
  }
}
