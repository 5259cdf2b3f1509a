/// Properties of every run of the reconnect machine: liveness of its timer, reboot
/// safety, the bound on hot retries, and the spacing of denied reboots.
module ReconnRuns {
  import opened Wrappers
  import opened Fsm
  import opened ReconnPolicy
  import opened ReconnMachine

  // ------------------------------------------------------------------------
  // Reachable states
  // ------------------------------------------------------------------------

  /// The two states the boot code starts the machine in.
  predicate BootState(s: StateId) {
    s == WR_CONNECTING || s == WR_NO_CREDS
  }

  /// The machine after `inputs`, driven through the row table and a slot array of `capacity` timers.
  function Reach(cfg: Config, capacity: nat, boot: StateId, inputs: seq<Input<Env>>): Machine<Ctx> {
    Run(ReconnDesc(boot), capacity, Init(cfg, capacity, boot), inputs)
  }

  /// The same run through the plain transition function.
  function Walk(cfg: Config, boot: StateId, inputs: seq<Input<Env>>): Machine<Ctx> {
    if inputs == [] then Standing(boot, Boot(cfg))
    else Advance(Walk(cfg, boot, DropLast(inputs)), Last(inputs).event, Last(inputs).data)
  }

  function DropLast<T>(s: seq<T>): seq<T>
    requires s != []
  {
    s[..|s| - 1]
  }

  function Last<T>(s: seq<T>): T
    requires s != []
  {
    s[|s| - 1]
  }

  function Ladder(cfg: Config): set<nat> {
    {cfg.handshakeTier2Ms, cfg.handshakeTier3Ms, cfg.slowTier1Ms, cfg.slowTier2Ms, cfg.genericPauseMs}
  }

  predicate Cleared(p: Policy) {
    p.handshakeFails == p.genericFails == p.slowFails == p.retries == 0 && p.firstFailUs == 0
  }

  /// The invariant behind every property below.
  ghost predicate Good(cfg: Config, m: Machine<Ctx>) {
    && Stands(m)
    && m.ctx.cfg == cfg
    && m.current <= WR_LEFT
    && Conserved(m.ctx.policy)
    && (m.current == WR_CONNECTED || m.current == WR_NO_CREDS ==> Cleared(m.ctx.policy))
    && (m.current == WR_BACKOFF ==> m.ctx.pendingBackoffMs in Ladder(cfg))
    && (m.current == WR_BACKOFF && cfg.genericPauseMs > 0 ==> m.ctx.pendingBackoffMs > 0)
  }

  /// Row `k` leaves the ladders consistent with the state it leads to.
  lemma RowKeepsLadders(cfg: Config, p: Policy, k: nat, d: Env)
    requires Conserved(p)
    ensures Conserved(PolicyAfter(p, k, d))
    ensures k == 0 || k == 1 || k == 15 ==> Cleared(PolicyAfter(p, k, d))
  {}

  /// The backoff rows stash a rung of the ladder, and never zero while the pause is positive.
  lemma RowStashesRung(cfg: Config, m: Machine<Ctx>, event: EventId, d: Env, k: nat)
    requires Good(cfg, m) && Choose(m, event, d) == Some(k) && (k == 4 || k == 6 || k == 8 || k == 12)
    ensures PendingAfter(m.ctx, k, d) in Ladder(cfg)
    ensures cfg.genericPauseMs > 0 ==> PendingAfter(m.ctx, k, d) > 0
  {
    if k == 6 || k == 12 {
      PeeksPredictDecision(cfg, m.ctx.policy, d.nowUs, d.reason);
    }
  }

  lemma RowIsGood(cfg: Config, c: Ctx, k: nat, d: Env)
    requires c.cfg == cfg && Conserved(c.policy) && k < 16
    requires Target(k) == WR_BACKOFF ==> PendingAfter(c, k, d) in Ladder(cfg)
    requires Target(k) == WR_BACKOFF && cfg.genericPauseMs > 0 ==> PendingAfter(c, k, d) > 0
    ensures Good(cfg, ApplyRow(c, k, d))
  {
    RowKeepsLadders(cfg, c.policy, k, d);
    TargetFacts(k);
    StandingIsGood(cfg, Target(k), CtxAfter(c, k, d));
  }

  lemma TargetFacts(k: nat)
    requires k < 16
    ensures Target(k) <= WR_LEFT && Target(k) != WR_NO_CREDS
    ensures Target(k) == WR_CONNECTED ==> k == 1
  {}

  lemma StandingIsGood(cfg: Config, s: StateId, c: Ctx)
    requires s <= WR_LEFT && c.cfg == cfg && Conserved(c.policy)
    requires s == WR_CONNECTED || s == WR_NO_CREDS ==> Cleared(c.policy)
    requires s == WR_BACKOFF ==> c.pendingBackoffMs in Ladder(cfg)
    requires s == WR_BACKOFF && cfg.genericPauseMs > 0 ==> c.pendingBackoffMs > 0
    ensures Good(cfg, Standing(s, c))
  {}

  lemma GoodStep(cfg: Config, m: Machine<Ctx>, event: EventId, d: Env)
    requires Good(cfg, m)
    ensures Good(cfg, Advance(m, event, d))
  {
    var k := Choose(m, event, d);
    if k.Some? {
      if k.value in {4, 6, 8, 12} {
        RowStashesRung(cfg, m, event, d, k.value);
      }
      assert k.value == 14 ==> m.current == WR_BACKOFF;
      RowIsGood(cfg, m.ctx, k.value, d);
    }
  }

  lemma InitStands(cfg: Config, capacity: nat, boot: StateId)
    requires capacity >= 1 && BootState(boot)
    ensures Init(cfg, capacity, boot) == Walk(cfg, boot, [])
  {
    EnterStands(boot, capacity, Boot(cfg), boot);
  }

  lemma BootIsGood(cfg: Config, boot: StateId)
    requires BootState(boot)
    ensures Good(cfg, Standing(boot, Boot(cfg)))
  {}

  lemma {:induction false} WalkIsGood(cfg: Config, boot: StateId, inputs: seq<Input<Env>>)
    requires BootState(boot)
    ensures Good(cfg, Walk(cfg, boot, inputs))
  {
    if inputs == [] {
      BootIsGood(cfg, boot);
    } else {
      WalkIsGood(cfg, boot, DropLast(inputs));
      GoodStep(cfg, Walk(cfg, boot, DropLast(inputs)), Last(inputs).event, Last(inputs).data);
    }
  }

  /// Refinement: every run of the table-driven engine, whatever its number of timer slots,
  /// is the run of the plain transition function.  One slot is therefore enough.
  lemma {:induction false} RunsAreWalks(cfg: Config, capacity: nat, boot: StateId, inputs: seq<Input<Env>>)
    requires capacity >= 1 && BootState(boot)
    ensures Reach(cfg, capacity, boot, inputs) == Walk(cfg, boot, inputs)
  {
    if inputs == [] {
      InitStands(cfg, capacity, boot);
    } else {
      RunsAreWalks(cfg, capacity, boot, DropLast(inputs));
      WalkIsGood(cfg, boot, DropLast(inputs));
      TableImplementsAdvance(boot, capacity, Walk(cfg, boot, DropLast(inputs)), Last(inputs).event, Last(inputs).data);
    }
  }

  lemma Snoc<T>(s: seq<T>)
    requires s != []
    ensures s == DropLast(s) + [Last(s)]
  {}

  lemma WalkAdvances(cfg: Config, boot: StateId, before: seq<Input<Env>>, last: Input<Env>)
    requires BootState(boot)
    ensures Good(cfg, Walk(cfg, boot, before))
    ensures Walk(cfg, boot, before + [last]) == Advance(Walk(cfg, boot, before), last.event, last.data)
  {
    WalkIsGood(cfg, boot, before);
    assert DropLast(before + [last]) == before;
  }

  // ------------------------------------------------------------------------
  // Never stranded
  // ------------------------------------------------------------------------

  /// A connecting or backing-off machine has exactly its own positive timer armed, any
  /// other state has none, and firing whatever is armed always matches a row.
  ghost predicate Alive(cfg: Config, capacity: nat, m: Machine<Ctx>) {
    && !m.terminal
    && (m.current == WR_CONNECTING ==>
          cfg.connectingTimeoutMs > 0 && m.timers == map[EV_CONNECTING_TIMEOUT := cfg.connectingTimeoutMs])
    && (m.current == WR_BACKOFF ==>
          exists ms :: ms in Ladder(cfg) && ms > 0 && m.timers == map[EV_BACKOFF_TIMEOUT := ms])
    && (m.current != WR_CONNECTING && m.current != WR_BACKOFF ==> m.timers == map[])
    && (forall e, d: Env :: e in m.timers ==> Step(ReconnDesc(0), capacity, m, e, d).0 == Ok)
  }

  ghost predicate NeverStranded(cfg: Config, capacity: nat) {
    forall boot, inputs: seq<Input<Env>> :: BootState(boot) ==> Alive(cfg, capacity, Reach(cfg, capacity, boot, inputs))
  }

  lemma GoodIsAlive(cfg: Config, capacity: nat, m: Machine<Ctx>)
    requires capacity >= 1 && Good(cfg, m)
    requires cfg.connectingTimeoutMs > 0 && cfg.genericPauseMs > 0
    ensures Alive(cfg, capacity, m)
  {
    if m.current == WR_BACKOFF {
      assert m.timers == map[EV_BACKOFF_TIMEOUT := m.ctx.pendingBackoffMs];
    }
    forall e, d: Env | e in m.timers ensures Step(ReconnDesc(0), capacity, m, e, d).0 == Ok {
      TableImplementsAdvance(0, capacity, m, e, d);
    }
  }

  function Lost(nowUs: int): Input<Env> {
    Input(EV_STA_DISCONNECTED, Env(Unknown, nowUs, false))
  }

  lemma FirstLossKeepsConnecting(cfg: Config)
    requires cfg.genericPauseMs == 0
    ensures var m := Advance(Standing(WR_CONNECTING, Boot(cfg)), EV_STA_DISCONNECTED, Lost(1).data);
            m.current == WR_CONNECTING && m.ctx.policy.firstFailUs == 1 && m.ctx.cfg == cfg
  {
    assert Choose(Standing(WR_CONNECTING, Boot(cfg)), EV_STA_DISCONNECTED, Lost(1).data) == Some(5);
  }

  lemma DeniedLossBacksOff(m: Machine<Ctx>, nowUs: int)
    requires m.current == WR_CONNECTING && m.ctx.policy.firstFailUs == 1 && nowUs == m.ctx.cfg.windowUs + 2
    ensures Advance(m, EV_STA_DISCONNECTED, Lost(nowUs).data).current == WR_BACKOFF
    ensures m.ctx.cfg.genericPauseMs == 0 ==> Advance(m, EV_STA_DISCONNECTED, Lost(nowUs).data).timers == map[]
  {
    assert Choose(m, EV_STA_DISCONNECTED, Lost(nowUs).data) == Some(4);
  }

  /// With a zero pause, the second of these two disconnects is denied a reboot and
  /// lands in the backoff state with nothing armed.
  lemma ZeroPauseStrands(cfg: Config)
    requires cfg.genericPauseMs == 0
    ensures var m := Walk(cfg, WR_CONNECTING, [Lost(1)] + [Lost(cfg.windowUs + 2)]);
            m.current == WR_BACKOFF && m.timers == map[]
  {
    var first, second := Lost(1), Lost(cfg.windowUs + 2);
    assert Walk(cfg, WR_CONNECTING, [first]) == Advance(Standing(WR_CONNECTING, Boot(cfg)), EV_STA_DISCONNECTED, first.data) by {
      assert DropLast([first]) == [];
    }
    FirstLossKeepsConnecting(cfg);
    DeniedLossBacksOff(Walk(cfg, WR_CONNECTING, [first]), cfg.windowUs + 2);
    assert DropLast([first] + [second]) == [first];
  }

  lemma NothingArmedIsNotAlive(cfg: Config, capacity: nat, m: Machine<Ctx>)
    requires m.timers == map[]
    requires m.current == WR_BACKOFF || (m.current == WR_CONNECTING && cfg.connectingTimeoutMs == 0)
    ensures !Alive(cfg, capacity, m)
  {
    forall ms: nat ensures m.timers != map[EV_BACKOFF_TIMEOUT := ms] {
      assert EV_BACKOFF_TIMEOUT in map[EV_BACKOFF_TIMEOUT := ms];
    }
  }

  /// The machine can never be stranded, under any sequence of events, clock values and
  /// permissions, exactly when the connect timeout and the generic pause are positive.
  lemma NeverStrandedIff(cfg: Config, capacity: nat)
    requires capacity >= 1
    ensures NeverStranded(cfg, capacity) <==> cfg.connectingTimeoutMs > 0 && cfg.genericPauseMs > 0
  {
    if cfg.connectingTimeoutMs > 0 && cfg.genericPauseMs > 0 {
      forall boot, inputs: seq<Input<Env>> | BootState(boot)
        ensures Alive(cfg, capacity, Reach(cfg, capacity, boot, inputs))
      {
        RunsAreWalks(cfg, capacity, boot, inputs);
        WalkIsGood(cfg, boot, inputs);
        GoodIsAlive(cfg, capacity, Walk(cfg, boot, inputs));
      }
    } else if cfg.connectingTimeoutMs == 0 {
      Stranded(cfg, capacity, []);
    } else {
      ZeroPauseStrands(cfg);
      Stranded(cfg, capacity, [Lost(1)] + [Lost(cfg.windowUs + 2)]);
    }
  }

  lemma Stranded(cfg: Config, capacity: nat, inputs: seq<Input<Env>>)
    requires capacity >= 1
    requires var m := Walk(cfg, WR_CONNECTING, inputs);
             m.timers == map[] && (m.current == WR_BACKOFF || (m.current == WR_CONNECTING && cfg.connectingTimeoutMs == 0))
    ensures !NeverStranded(cfg, capacity)
  {
    RunsAreWalks(cfg, capacity, WR_CONNECTING, inputs);
    NothingArmedIsNotAlive(cfg, capacity, Walk(cfg, WR_CONNECTING, inputs));
    assert BootState(WR_CONNECTING);
  }

  /// When the generic pause is the shortest rung, no backoff is shorter than it.
  lemma BackoffAtLeastPause(cfg: Config, boot: StateId, inputs: seq<Input<Env>>)
    requires BootState(boot)
    requires forall ms :: ms in Ladder(cfg) ==> ms >= cfg.genericPauseMs > 0
    ensures var m := Walk(cfg, boot, inputs);
            m.current == WR_BACKOFF ==> EV_BACKOFF_TIMEOUT in m.timers && m.timers[EV_BACKOFF_TIMEOUT] >= cfg.genericPauseMs
  {
    WalkIsGood(cfg, boot, inputs);
  }

  // ------------------------------------------------------------------------
  // Reboot safety
  // ------------------------------------------------------------------------

  function Prefix(cfg: Config, boot: StateId, inputs: seq<Input<Env>>, k: nat): Machine<Ctx>
    requires k <= |inputs|
  {
    Walk(cfg, boot, inputs[..k])
  }

  /// Input `k` is a failure the policy counts.
  predicate CountsFailure(cfg: Config, boot: StateId, inputs: seq<Input<Env>>, k: nat)
    requires k < |inputs|
  {
    var m := Prefix(cfg, boot, inputs, k);
    || (inputs[k].event == EV_STA_DISCONNECTED && (m.current == WR_CONNECTING || m.current == WR_CONNECTED))
    || (inputs[k].event == EV_CONNECTING_TIMEOUT && m.current == WR_CONNECTING)
  }

  /// The event clears the ladders: an address was acquired, credentials arrived, or a parked
  /// machine was resumed.
  predicate Clears(m: Machine<Ctx>, event: EventId) {
    || (event == EV_GOT_IP && m.current == WR_CONNECTING)
    || (event == EV_CREDS_ARRIVED && m.current == WR_NO_CREDS)
    || (event == EV_RECONNECT_REQUESTED && m.current == WR_LEFT)
  }

  predicate ClearsLadders(cfg: Config, boot: StateId, inputs: seq<Input<Env>>, k: nat)
    requires k < |inputs|
  {
    Clears(Prefix(cfg, boot, inputs, k), inputs[k].event)
  }

  /// Input `j` started the failure window that is still open after all of `inputs`.
  ghost predicate OpensWindow(cfg: Config, boot: StateId, inputs: seq<Input<Env>>, j: nat)
    requires j < |inputs|
  {
    && CountsFailure(cfg, boot, inputs, j)
    && Prefix(cfg, boot, inputs, j).ctx.policy.firstFailUs == 0
    && forall i :: j < i < |inputs| ==> !ClearsLadders(cfg, boot, inputs, i)
  }

  /// How one input moves the start of the window: it opens on a counted failure,
  /// stays put otherwise, and closes when the ladders are cleared.
  lemma StepMovesWindow(cfg: Config, m: Machine<Ctx>, event: EventId, d: Env)
    requires Good(cfg, m)
    ensures var k := Choose(m, event, d); var before, after := m.ctx.policy.firstFailUs, Advance(m, event, d).ctx.policy.firstFailUs;
            && (k.Some? && (k.value == 0 || k.value == 1 || k.value == 15) ==> after == 0)
            && (before != 0 && after != 0 ==> after == before)
            && (before == 0 && after != 0 ==>
                  && after == d.nowUs
                  && ((event == EV_STA_DISCONNECTED && (m.current == WR_CONNECTING || m.current == WR_CONNECTED))
                      || (event == EV_CONNECTING_TIMEOUT && m.current == WR_CONNECTING)))
  {
    var k := Choose(m, event, d);
    if k.Some? { ChoiceFacts(m, event, d, k.value); }
  }

  lemma ClearingRows(m: Machine<Ctx>, event: EventId, d: Env)
    ensures Clears(m, event) <==> Choose(m, event, d) in {Some(0), Some(1), Some(15)}
  {}

  /// A nonzero window start is the clock value of a counted failure since which nothing was cleared.
  lemma {:induction false} WindowHasOpener(cfg: Config, boot: StateId, inputs: seq<Input<Env>>)
    returns (j: nat)
    requires BootState(boot)
    requires Walk(cfg, boot, inputs).ctx.policy.firstFailUs != 0
    ensures j < |inputs| && inputs[j].data.nowUs == Walk(cfg, boot, inputs).ctx.policy.firstFailUs
    ensures OpensWindow(cfg, boot, inputs, j)
  {
    assert inputs != [];
    var before, last := DropLast(inputs), Last(inputs);
    Snoc(inputs);
    WalkAdvances(cfg, boot, before, last);
    var m := Walk(cfg, boot, before);
    StepMovesWindow(cfg, m, last.event, last.data);
    ClearingRows(m, last.event, last.data);
    var n := |inputs| - 1;
    assert inputs[..n] == before;
    if m.ctx.policy.firstFailUs == 0 {
      j := n;
    } else {
      j := WindowHasOpener(cfg, boot, before);
      OpenerPersists(cfg, boot, before, last, j);
    }
  }

  // --- the zero sentinel ---------------------------------------------------------

  /// Input `i` is a failure counted since the ladders were last cleared.
  ghost predicate CountedSince(cfg: Config, boot: StateId, inputs: seq<Input<Env>>, i: nat) {
    && i < |inputs|
    && CountsFailure(cfg, boot, inputs, i)
    && forall l :: i < l < |inputs| ==> !ClearsLadders(cfg, boot, inputs, l)
  }

  /// What CountsFailure and ClearsLadders say of the machine before the input.
  predicate Counts(m: Machine<Ctx>, event: EventId) {
    || (event == EV_STA_DISCONNECTED && (m.current == WR_CONNECTING || m.current == WR_CONNECTED))
    || (event == EV_CONNECTING_TIMEOUT && m.current == WR_CONNECTING)
  }

  lemma RowMovesPolicy(p: Policy, k: nat, d: Env)
    requires k < 16
    ensures var q := PolicyAfter(p, k, d);
            && (k in {0, 1, 15} ==> q.firstFailUs == 0 && q.retries == 0)
            && (k in {13, 14} ==> q == p)
            && (2 <= k <= 12 ==> q.firstFailUs == FirstFail(p, d.nowUs) && q.retries == p.retries + 1)
  {}

  lemma CountingRows(m: Machine<Ctx>, event: EventId, d: Env)
    ensures Counts(m, event) <==> Choose(m, event, d).Some? && 2 <= Choose(m, event, d).value <= 12
    ensures Choose(m, event, d).Some? ==> Choose(m, event, d).value < 16
  {}

  /// How one input moves the window start and the retry count.
  predicate Moved(p: Policy, q: Policy, clears: bool, counts: bool, nowUs: int) {
    if clears then q.firstFailUs == 0 && q.retries == 0 && !counts
    else if counts then q.firstFailUs == FirstFail(p, nowUs) && q.retries == p.retries + 1
    else q.firstFailUs == p.firstFailUs && q.retries == p.retries
  }

  lemma AdvanceMoves(m: Machine<Ctx>, event: EventId, d: Env)
    ensures Moved(m.ctx.policy, Advance(m, event, d).ctx.policy, Clears(m, event), Counts(m, event), d.nowUs)
  {
    ClearingRows(m, event, d);
    CountingRows(m, event, d);
    var k := Choose(m, event, d);
    if k.Some? {
      RowMovesPolicy(m.ctx.policy, k.value, d);
    }
  }

  lemma LastInput(cfg: Config, boot: StateId, before: seq<Input<Env>>, last: Input<Env>)
    ensures var inputs, n, m := before + [last], |before|, Walk(cfg, boot, before);
            && ClearsLadders(cfg, boot, inputs, n) == Clears(m, last.event)
            && CountsFailure(cfg, boot, inputs, n) == Counts(m, last.event)
  {
    assert (before + [last])[..|before|] == before;
  }

  lemma StepCounts(cfg: Config, boot: StateId, before: seq<Input<Env>>, last: Input<Env>)
    requires BootState(boot)
    ensures var inputs, n := before + [last], |before|;
            Moved(Walk(cfg, boot, before).ctx.policy, Walk(cfg, boot, inputs).ctx.policy,
                  ClearsLadders(cfg, boot, inputs, n), CountsFailure(cfg, boot, inputs, n), last.data.nowUs)
  {
    LastInput(cfg, boot, before, last);
    AdvanceMoves(Walk(cfg, boot, before), last.event, last.data);
    WalkAdvances(cfg, boot, before, last);
  }

  lemma CountedSinceSnoc(cfg: Config, boot: StateId, before: seq<Input<Env>>, last: Input<Env>, i: nat)
    ensures var inputs, n := before + [last], |before|;
            CountedSince(cfg, boot, inputs, i) <==>
              if i < n then CountedSince(cfg, boot, before, i) && !ClearsLadders(cfg, boot, inputs, n)
              else i == n && CountsFailure(cfg, boot, inputs, n)
  {
    var inputs, n := before + [last], |before|;
    if i < n {
      assert inputs[..i] == before[..i] && inputs[i] == before[i];
      forall l | i < l < n
        ensures ClearsLadders(cfg, boot, inputs, l) <==> ClearsLadders(cfg, boot, before, l)
      {
        assert inputs[..l] == before[..l] && inputs[l] == before[l];
      }
    }
  }

  ghost predicate AllAtZero(cfg: Config, boot: StateId, inputs: seq<Input<Env>>) {
    forall i: nat :: CountedSince(cfg, boot, inputs, i) ==> inputs[i].data.nowUs == 0
  }

  ghost predicate NoneCounted(cfg: Config, boot: StateId, inputs: seq<Input<Env>>) {
    forall i: nat :: !CountedSince(cfg, boot, inputs, i)
  }

  lemma CountedAfter(cfg: Config, boot: StateId, before: seq<Input<Env>>, last: Input<Env>)
    ensures var inputs, n := before + [last], |before|;
            var clears, counts := ClearsLadders(cfg, boot, inputs, n), CountsFailure(cfg, boot, inputs, n);
            && (AllAtZero(cfg, boot, inputs) <==>
                  (clears || AllAtZero(cfg, boot, before)) && (counts ==> last.data.nowUs == 0))
            && (NoneCounted(cfg, boot, inputs) <==> (clears || NoneCounted(cfg, boot, before)) && !counts)
  {
    var inputs, n := before + [last], |before|;
    forall i: nat
      ensures CountedSince(cfg, boot, inputs, i) <==>
                if i < n then CountedSince(cfg, boot, before, i) && !ClearsLadders(cfg, boot, inputs, n)
                else i == n && CountsFailure(cfg, boot, inputs, n)
    {
      CountedSinceSnoc(cfg, boot, before, last, i);
    }
    assert CountedSince(cfg, boot, inputs, n) <==> CountsFailure(cfg, boot, inputs, n);
    assert forall i: nat :: CountedSince(cfg, boot, before, i) ==> i < n && inputs[i] == before[i];
  }

  /// The window start reads 0 exactly when every failure counted since the ladders were
  /// last cleared read the clock as 0, and the retry count exactly when there is none.
  lemma {:induction false} SentinelIff(cfg: Config, boot: StateId, inputs: seq<Input<Env>>)
    requires BootState(boot)
    ensures Walk(cfg, boot, inputs).ctx.policy.firstFailUs == 0 <==> AllAtZero(cfg, boot, inputs)
    ensures Walk(cfg, boot, inputs).ctx.policy.retries == 0 <==> NoneCounted(cfg, boot, inputs)
  {
    if inputs != [] {
      var before, last := DropLast(inputs), Last(inputs);
      Snoc(inputs);
      SentinelIff(cfg, boot, before);
      StepCounts(cfg, boot, before, last);
      CountedAfter(cfg, boot, before, last);
    }
  }

  /// The 0 sentinel tells the truth exactly when no failure is counted or some failure
  /// counted since the last clearing read a nonzero clock.
  lemma SentinelExactIff(cfg: Config, boot: StateId, inputs: seq<Input<Env>>)
    requires BootState(boot)
    ensures var p := Walk(cfg, boot, inputs).ctx.policy;
            (p.firstFailUs == 0 <==> p.retries == 0) <==>
              NoneCounted(cfg, boot, inputs)
              || exists i: nat :: CountedSince(cfg, boot, inputs, i) && inputs[i].data.nowUs != 0
  {
    SentinelIff(cfg, boot, inputs);
  }

  /// One disconnect at clock 0: a failure is counted, and the window still reads "not open".
  lemma ZeroClockHidesFailure(cfg: Config)
    ensures var p := Walk(cfg, WR_CONNECTING, [Lost(0)]).ctx.policy;
            p.retries == 1 && p.firstFailUs == 0
  {
    var m := Standing(WR_CONNECTING, Boot(cfg));
    assert DropLast([Lost(0)]) == [];
    var k := Choose(m, EV_STA_DISCONNECTED, Lost(0).data);
    assert k == Some(5) || k == Some(6);
  }

  /// In particular a clock that never reads 0 makes the sentinel exact.
  lemma NonzeroClockMakesSentinelExact(cfg: Config, boot: StateId, inputs: seq<Input<Env>>)
    requires BootState(boot)
    requires forall i :: 0 <= i < |inputs| ==> inputs[i].data.nowUs != 0
    ensures var p := Walk(cfg, boot, inputs).ctx.policy; p.firstFailUs == 0 <==> p.retries == 0
  {
    SentinelIff(cfg, boot, inputs);
  }

  lemma OpenerPersists(cfg: Config, boot: StateId, before: seq<Input<Env>>, last: Input<Env>, j: nat)
    requires j < |before| && OpensWindow(cfg, boot, before, j)
    requires !ClearsLadders(cfg, boot, before + [last], |before|)
    ensures OpensWindow(cfg, boot, before + [last], j)
  {
    var inputs := before + [last];
    assert before[..j] == inputs[..j];
    forall i | j < i < |inputs| ensures !ClearsLadders(cfg, boot, inputs, i) {
      if i < |before| {
        assert !ClearsLadders(cfg, boot, before, i);
        assert before[..i] == inputs[..i] && before[i] == inputs[i];
      }
    }
  }

  function Reboots(calls: seq<Call>): nat {
    if calls == [] then 0 else Reboots(DropLast(calls)) + if Last(calls) == RebootCall then 1 else 0
  }

  lemma {:induction false} RebootsAppend(a: seq<Call>, b: seq<Call>)
    ensures Reboots(a + b) == Reboots(a) + Reboots(b)
  {
    if b == [] {
      assert a + b == a;
    } else {
      RebootsAppend(a, DropLast(b));
      assert DropLast(a + b) == a + DropLast(b);
    }
  }

  lemma EmitsReboot(k: nat, d: Env)
    ensures Reboots(Emits(k, d)) == if k == 3 || k == 7 then 1 else 0
  {
    var e := Emits(k, d);
    if e != [] { assert DropLast(e) == if k == 9 then [Disconnect] else []; }
    assert DropLast([Disconnect]) == [];
  }

  /// A step reboots exactly when it enters the escalation state; it then had permission
  /// and an overrun window.
  lemma StepReboots(cfg: Config, m: Machine<Ctx>, event: EventId, d: Env)
    requires Good(cfg, m)
    ensures var n := Advance(m, event, d);
            Reboots(n.ctx.calls) == Reboots(m.ctx.calls) +
              if n.current == WR_ESCALATE_REBOOT && m.current != WR_ESCALATE_REBOOT then 1 else 0
    ensures m.current == WR_ESCALATE_REBOOT ==> Advance(m, event, d) == m
    ensures var n := Advance(m, event, d);
            n.current == WR_ESCALATE_REBOOT && m.current != WR_ESCALATE_REBOOT ==>
              && m.current == WR_CONNECTING
              && (event == EV_STA_DISCONNECTED || event == EV_CONNECTING_TIMEOUT)
              && d.rebootAllowed && m.ctx.policy.firstFailUs != 0
              && d.nowUs - m.ctx.policy.firstFailUs > cfg.windowUs
              && n.ctx.calls == m.ctx.calls + [RebootCall]
  {
    var k := Choose(m, event, d);
    if k.Some? {
      ChoiceFacts(m, event, d, k.value);
      RebootsAppend(m.ctx.calls, Emits(k.value, d));
      EmitsReboot(k.value, d);
    }
  }

  /// Step `k` of the run calls the reboot function.
  predicate RebootsAt(cfg: Config, boot: StateId, inputs: seq<Input<Env>>, k: nat)
    requires k < |inputs|
  {
    Reboots(Prefix(cfg, boot, inputs, k + 1).ctx.calls) > Reboots(Prefix(cfg, boot, inputs, k).ctx.calls)
  }

  /// Step `k` enters the escalation state and calls the reboot function as its last call,
  /// with permission, on a counted failure, strictly more than the window after the
  /// counted failure that opened it.
  ghost predicate JustifiedReboot(cfg: Config, boot: StateId, inputs: seq<Input<Env>>, k: nat)
    requires k < |inputs|
  {
    var m, n := Prefix(cfg, boot, inputs, k), Prefix(cfg, boot, inputs, k + 1);
    && m.current != WR_ESCALATE_REBOOT && n.current == WR_ESCALATE_REBOOT
    && n.ctx.calls == m.ctx.calls + [RebootCall]
    && inputs[k].data.rebootAllowed
    && CountsFailure(cfg, boot, inputs, k)
    && exists j :: 0 <= j < k
         && OpensWindow(cfg, boot, inputs[..k], j)
         && inputs[k].data.nowUs - inputs[j].data.nowUs > cfg.windowUs
  }

  /// Every step that calls the reboot function was justified.
  lemma RebootIsJustified(cfg: Config, boot: StateId, inputs: seq<Input<Env>>, k: nat)
    requires BootState(boot) && k < |inputs|
    ensures RebootsAt(cfg, boot, inputs, k) <==> JustifiedReboot(cfg, boot, inputs, k)
  {
    PrefixAdvances(cfg, boot, inputs, k);
    var m := Prefix(cfg, boot, inputs, k);
    StepReboots(cfg, m, inputs[k].event, inputs[k].data);
    if RebootsAt(cfg, boot, inputs, k) {
      var j := WindowHasOpener(cfg, boot, inputs[..k]);
      assert inputs[..k][j] == inputs[j];
    }
  }

  lemma {:induction false} RebootsCount(cfg: Config, boot: StateId, inputs: seq<Input<Env>>)
    requires BootState(boot)
    ensures var m := Walk(cfg, boot, inputs);
            Reboots(m.ctx.calls) == if m.current == WR_ESCALATE_REBOOT then 1 else 0
  {
    if inputs != [] {
      Snoc(inputs);
      RebootsCount(cfg, boot, DropLast(inputs));
      LastStepReboots(cfg, boot, DropLast(inputs), Last(inputs));
    }
  }

  lemma {:induction false} EscalationHasStep(cfg: Config, boot: StateId, inputs: seq<Input<Env>>) returns (k: nat)
    requires BootState(boot) && Walk(cfg, boot, inputs).current == WR_ESCALATE_REBOOT
    ensures k < |inputs| && RebootsAt(cfg, boot, inputs, k)
  {
    assert inputs != [];
    var before := DropLast(inputs);
    Snoc(inputs);
    LastStepReboots(cfg, boot, before, Last(inputs));
    if Walk(cfg, boot, before).current == WR_ESCALATE_REBOOT {
      k := EscalationHasStep(cfg, boot, before);
      assert before[..k] == inputs[..k] && before[..k + 1] == inputs[..k + 1];
    } else {
      k := |inputs| - 1;
    }
  }

  /// After a step that calls the reboot function the run stays in the escalation state.
  lemma RebootedStays(cfg: Config, boot: StateId, inputs: seq<Input<Env>>, j: nat, k: nat)
    requires BootState(boot) && j < k <= |inputs| && RebootsAt(cfg, boot, inputs, j)
    ensures Prefix(cfg, boot, inputs, k).current == WR_ESCALATE_REBOOT
  {
    RebootIsJustified(cfg, boot, inputs, j);
    EscalationIsAbsorbing(cfg, boot, inputs[..j + 1], inputs[j + 1..k]);
    assert inputs[..j + 1] + inputs[j + 1..k] == inputs[..k];
  }

  /// Over any run the reboot function is called at most once.  It has been called exactly
  /// when the run is in the escalation state, by exactly one step, and only by a step that
  /// was justified.
  lemma RebootSafety(cfg: Config, boot: StateId, inputs: seq<Input<Env>>)
    requires BootState(boot)
    ensures var m := Walk(cfg, boot, inputs);
            && Reboots(m.ctx.calls) <= 1
            && (Reboots(m.ctx.calls) == 1 <==> m.current == WR_ESCALATE_REBOOT)
            && (m.current == WR_ESCALATE_REBOOT <==> exists k: nat :: k < |inputs| && RebootsAt(cfg, boot, inputs, k))
    ensures forall k: nat :: k < |inputs| && RebootsAt(cfg, boot, inputs, k) ==> JustifiedReboot(cfg, boot, inputs, k)
    ensures forall j: nat, k: nat :: j < k < |inputs| && RebootsAt(cfg, boot, inputs, j) ==> !RebootsAt(cfg, boot, inputs, k)
  {
    RebootsCount(cfg, boot, inputs);
    if Walk(cfg, boot, inputs).current == WR_ESCALATE_REBOOT {
      var k := EscalationHasStep(cfg, boot, inputs);
    }
    assert inputs[..|inputs|] == inputs;
    forall k: nat | k < |inputs| && RebootsAt(cfg, boot, inputs, k)
      ensures JustifiedReboot(cfg, boot, inputs, k)
      ensures Walk(cfg, boot, inputs).current == WR_ESCALATE_REBOOT
    {
      RebootIsJustified(cfg, boot, inputs, k);
      RebootedStays(cfg, boot, inputs, k, |inputs|);
    }
    forall j: nat, k: nat | j < k < |inputs| && RebootsAt(cfg, boot, inputs, j)
      ensures !RebootsAt(cfg, boot, inputs, k)
    {
      RebootedStays(cfg, boot, inputs, j, k);
      RebootIsJustified(cfg, boot, inputs, k);
    }
  }

  lemma LastStepReboots(cfg: Config, boot: StateId, before: seq<Input<Env>>, last: Input<Env>)
    requires BootState(boot)
    ensures var m, n := Walk(cfg, boot, before), Walk(cfg, boot, before + [last]);
            && (RebootsAt(cfg, boot, before + [last], |before|) <==>
                  n.current == WR_ESCALATE_REBOOT && m.current != WR_ESCALATE_REBOOT)
            && (m.current == WR_ESCALATE_REBOOT ==> n == m)
            && Reboots(n.ctx.calls) == Reboots(m.ctx.calls) +
                 if n.current == WR_ESCALATE_REBOOT && m.current != WR_ESCALATE_REBOOT then 1 else 0
  {
    WalkAdvances(cfg, boot, before, last);
    StepReboots(cfg, Walk(cfg, boot, before), last.event, last.data);
    assert (before + [last])[..|before|] == before && (before + [last])[..|before| + 1] == before + [last];
  }

  /// The escalation state is absorbing: no later event changes anything.
  lemma {:induction false} EscalationIsAbsorbing(cfg: Config, boot: StateId, inputs: seq<Input<Env>>, more: seq<Input<Env>>)
    requires BootState(boot)
    requires Walk(cfg, boot, inputs).current == WR_ESCALATE_REBOOT
    ensures Walk(cfg, boot, inputs + more) == Walk(cfg, boot, inputs)
  {
    if more == [] {
      assert inputs + more == inputs;
    } else {
      EscalationIsAbsorbing(cfg, boot, inputs, DropLast(more));
      Snoc(more);
      assert inputs + more == (inputs + DropLast(more)) + [Last(more)];
      WalkAdvances(cfg, boot, inputs + DropLast(more), Last(more));
    }
  }

  // ------------------------------------------------------------------------
  // Denied reboots are spaced by a backoff
  // ------------------------------------------------------------------------

  /// Input `k` makes the machine announce a denied reboot.
  predicate Denies(cfg: Config, boot: StateId, inputs: seq<Input<Env>>, k: nat)
    requires k < |inputs|
  {
    var a, b := Prefix(cfg, boot, inputs, k).ctx.calls, Prefix(cfg, boot, inputs, k + 1).ctx.calls;
    b != [] && Last(b).RebootDenied? && b == a + [Last(b)]
  }

  lemma PrefixAdvances(cfg: Config, boot: StateId, inputs: seq<Input<Env>>, k: nat)
    requires BootState(boot) && k < |inputs|
    ensures var m := Prefix(cfg, boot, inputs, k);
            && Good(cfg, m)
            && Prefix(cfg, boot, inputs, k + 1) == Advance(m, inputs[k].event, inputs[k].data)
  {
    WalkAdvances(cfg, boot, inputs[..k], inputs[k]);
    assert inputs[..k] + [inputs[k]] == inputs[..k + 1];
  }

  lemma DenialGoesToBackoff(cfg: Config, boot: StateId, inputs: seq<Input<Env>>, k: nat)
    requires BootState(boot) && k < |inputs| && Denies(cfg, boot, inputs, k)
    ensures Prefix(cfg, boot, inputs, k).current == WR_CONNECTING
    ensures Prefix(cfg, boot, inputs, k + 1).current == WR_BACKOFF
  {
    PrefixAdvances(cfg, boot, inputs, k);
    var m := Prefix(cfg, boot, inputs, k);
    var n := Advance(m, inputs[k].event, inputs[k].data);
    var row := Choose(m, inputs[k].event, inputs[k].data);
    if row.Some? { ChoiceFacts(m, inputs[k].event, inputs[k].data, row.value); }
  }

  /// A backing-off machine stays there until its timer event arrives.
  lemma {:induction false} BackoffEndsByTimeout(cfg: Config, boot: StateId, inputs: seq<Input<Env>>, i: nat, j: nat)
    requires BootState(boot) && i <= j <= |inputs|
    requires Prefix(cfg, boot, inputs, i).current == WR_BACKOFF
    requires forall k :: i <= k < j ==> inputs[k].event != EV_BACKOFF_TIMEOUT
    ensures Prefix(cfg, boot, inputs, j).current == WR_BACKOFF
    decreases j - i
  {
    if i < j {
      BackoffEndsByTimeout(cfg, boot, inputs, i, j - 1);
      PrefixAdvances(cfg, boot, inputs, j - 1);
    }
  }

  /// Between two denied reboots the backoff timer always runs out.
  lemma DenialsAreSpaced(cfg: Config, boot: StateId, inputs: seq<Input<Env>>, i: nat, j: nat)
    requires BootState(boot) && i < j < |inputs|
    requires Denies(cfg, boot, inputs, i) && Denies(cfg, boot, inputs, j)
    ensures exists k :: i < k < j && inputs[k].event == EV_BACKOFF_TIMEOUT
                     && Prefix(cfg, boot, inputs, k).current == WR_BACKOFF
  {
    DenialGoesToBackoff(cfg, boot, inputs, i);
    DenialGoesToBackoff(cfg, boot, inputs, j);
    if forall k :: i + 1 <= k < j ==> inputs[k].event != EV_BACKOFF_TIMEOUT {
      BackoffEndsByTimeout(cfg, boot, inputs, i + 1, j);
      assert false;
    }
    var k := i + 1;
    while inputs[k].event != EV_BACKOFF_TIMEOUT
      invariant i < k < j
      invariant exists l :: k <= l < j && inputs[l].event == EV_BACKOFF_TIMEOUT
      invariant forall l :: i < l < k ==> inputs[l].event != EV_BACKOFF_TIMEOUT
      decreases j - k
    {
      k := k + 1;
    }
    BackoffEndsByTimeout(cfg, boot, inputs, i + 1, k);
  }

  // ------------------------------------------------------------------------
  // Hot retries
  // ------------------------------------------------------------------------

  /// Input `k` is a disconnect answered by an immediate reconnect.
  predicate HotRetry(cfg: Config, boot: StateId, inputs: seq<Input<Env>>, k: nat)
    requires k < |inputs|
  {
    && inputs[k].event == EV_STA_DISCONNECTED
    && Prefix(cfg, boot, inputs, k + 1).ctx.calls == Prefix(cfg, boot, inputs, k).ctx.calls + [Connect]
  }

  /// Hot retries among the last inputs of the run, since the ladders were last cleared.
  function HotRetries(cfg: Config, boot: StateId, inputs: seq<Input<Env>>): nat {
    if inputs == [] then 0
    else
      var n := |inputs| - 1;
      if ClearsLadders(cfg, boot, inputs, n) then 0
      else HotRetries(cfg, boot, DropLast(inputs)) + if HotRetry(cfg, boot, inputs, n) then 1 else 0
  }

  /// The slow tiers that some count selects are positive.
  predicate SlowTiersPositive(cfg: Config) {
    (cfg.slowTier1Limit >= 1 ==> cfg.slowTier1Ms > 0) && cfg.slowTier2Ms > 0
  }

  /// All tiers that some count selects are positive.
  predicate UsedTiersPositive(cfg: Config) {
    && (cfg.handshakeFastLimit < cfg.handshakeTier2Limit ==> cfg.handshakeTier2Ms > 0)
    && cfg.handshakeTier3Ms > 0
    && SlowTiersPositive(cfg)
    && cfg.genericPauseMs > 0
  }

  function Min(a: nat, b: nat): nat { if a <= b then a else b }

  /// Which disconnects are answered at once, and what that costs on the ladders.
  lemma StepRetries(cfg: Config, m: Machine<Ctx>, event: EventId, d: Env)
    requires Good(cfg, m) && UsedTiersPositive(cfg)
    ensures var n := Advance(m, event, d); var p, q := m.ctx.policy, n.ctx.policy;
            (event == EV_STA_DISCONNECTED && n.ctx.calls == m.ctx.calls + [Connect] ==>
                  && !IsSlow(d.reason)
                  && (if d.reason == HandshakeTimeout
                      then q.handshakeFails == p.handshakeFails + 1 <= cfg.handshakeFastLimit && q.genericFails == p.genericFails
                      else q.genericFails == p.genericFails + 1 <= cfg.genericFastLimit && q.handshakeFails == p.handshakeFails))
    ensures var n := Advance(m, event, d);
            if Clears(m, event)
            then Cleared(n.ctx.policy) else
              && n.ctx.policy.handshakeFails >= m.ctx.policy.handshakeFails
              && n.ctx.policy.genericFails >= m.ctx.policy.genericFails
  {
    PeeksPredictDecision(cfg, m.ctx.policy, d.nowUs, d.reason);
    var n := Advance(m, event, d);
    if event == EV_STA_DISCONNECTED && n.ctx.calls == m.ctx.calls + [Connect] {
      assert Last(n.ctx.calls) == Connect;
    }
  }

  /// Between two clearings of the ladders, at most the two fast limits' worth of
  /// disconnects are answered by an immediate reconnect.
  lemma {:induction false} HotRetriesAreBounded(cfg: Config, boot: StateId, inputs: seq<Input<Env>>)
    requires BootState(boot) && UsedTiersPositive(cfg)
    ensures var p := Walk(cfg, boot, inputs).ctx.policy;
            HotRetries(cfg, boot, inputs)
              <= Min(p.handshakeFails, cfg.handshakeFastLimit) + Min(p.genericFails, cfg.genericFastLimit)
              <= cfg.handshakeFastLimit + cfg.genericFastLimit
  {
    if inputs != [] {
      var before, last := DropLast(inputs), Last(inputs);
      Snoc(inputs);
      HotRetriesAreBounded(cfg, boot, before);
      WalkAdvances(cfg, boot, before, last);
      StepRetries(cfg, Walk(cfg, boot, before), last.event, last.data);
      assert inputs[..|inputs| - 1] == before && inputs[..|inputs|] == inputs;
    }
  }

  lemma HotRows(m: Machine<Ctx>, event: EventId, d: Env)
    ensures event == EV_STA_DISCONNECTED && Advance(m, event, d).ctx.calls == m.ctx.calls + [Connect] <==>
            Choose(m, event, d) in {Some(5), Some(11)}
  {
    var k := Choose(m, event, d);
    if k.Some? {
      ChoiceFacts(m, event, d, k.value);
      SameCalls(m.ctx.calls, Emits(k.value, d), [Connect]);
      hide Choose;
    }
  }

  lemma SameCalls(calls: seq<Call>, a: seq<Call>, b: seq<Call>)
    ensures calls + a == calls + b <==> a == b
  {
    assert (calls + a)[|calls|..] == a && (calls + b)[|calls|..] == b;
  }

  /// A disconnect is answered at once exactly when the machine is connecting or connected,
  /// does not escalate or park, and the peek foresees a zero backoff.
  lemma HotRetryIff(cfg: Config, boot: StateId, inputs: seq<Input<Env>>, k: nat)
    requires BootState(boot) && k < |inputs|
    ensures var m, d := Prefix(cfg, boot, inputs, k), inputs[k].data;
            HotRetry(cfg, boot, inputs, k) <==>
              && inputs[k].event == EV_STA_DISCONNECTED
              && (m.current == WR_CONNECTING || m.current == WR_CONNECTED)
              && d.reason != AssocLeave
              && !WouldEscalate(cfg, m.ctx.policy, d.nowUs)
              && WouldReconnectNow(cfg, m.ctx.policy, d.reason)
  {
    hide Advance, Walk, Choose, Prefix, WouldEscalate, WouldReconnectNow;
    PrefixAdvances(cfg, boot, inputs, k);
    HotRows(Prefix(cfg, boot, inputs, k), inputs[k].event, inputs[k].data);
    HotChoice(cfg, Prefix(cfg, boot, inputs, k), inputs[k].event, inputs[k].data);
  }

  lemma HotChoice(cfg: Config, m: Machine<Ctx>, event: EventId, d: Env)
    requires Good(cfg, m)
    ensures Choose(m, event, d) in {Some(5), Some(11)} <==>
              && event == EV_STA_DISCONNECTED
              && (m.current == WR_CONNECTING || m.current == WR_CONNECTED)
              && d.reason != AssocLeave
              && !WouldEscalate(cfg, m.ctx.policy, d.nowUs)
              && WouldReconnectNow(cfg, m.ctx.policy, d.reason)
  {}

  /// Bad credentials and an absent access point are never retried at once.
  lemma SlowReasonsNeverRetryHot(cfg: Config, boot: StateId, inputs: seq<Input<Env>>, k: nat)
    requires BootState(boot) && SlowTiersPositive(cfg) && k < |inputs|
    requires HotRetry(cfg, boot, inputs, k)
    ensures !IsSlow(inputs[k].data.reason)
  {
    HotRetryIff(cfg, boot, inputs, k);
  }

  /// In every reachable state the retry count is the sum of the three ladders, and a
  /// connected machine carries no failure history.
  lemma RetriesAreConserved(cfg: Config, boot: StateId, inputs: seq<Input<Env>>)
    requires BootState(boot)
    ensures var m := Walk(cfg, boot, inputs);
            && Conserved(m.ctx.policy)
            && (m.current == WR_CONNECTED ==>
                  Cleared(m.ctx.policy) && forall now :: !WouldEscalate(cfg, m.ctx.policy, now))
  {
    WalkIsGood(cfg, boot, inputs);
  }
}
