/// Exactly which configurations bound the immediate reconnects: runs that climb the
/// ladders at will show that every tier in use has to be positive.
module ReconnRetries {
  import opened Wrappers
  import opened Fsm
  import opened ReconnPolicy
  import opened ReconnMachine
  import opened ReconnRuns

  // ------------------------------------------------------------------------
  // Climbing the ladders
  // ------------------------------------------------------------------------

  function Fail(r: Reason): Input<Env> {
    Input(EV_STA_DISCONNECTED, Env(r, 1, true))
  }

  function Resume(): Input<Env> {
    Input(EV_BACKOFF_TIMEOUT, Env(Unknown, 1, true))
  }

  /// One disconnect after the other, each followed by a backoff timeout.
  function Climb(rs: seq<Reason>): seq<Input<Env>> {
    if rs == [] then [] else Climb(DropLast(rs)) + [Fail(Last(rs))] + [Resume()]
  }

  function PolicyAfterAll(rs: seq<Reason>): Policy {
    if rs == [] then FRESH else NoteDisconnect(PolicyAfterAll(DropLast(rs)), 1, Last(rs))
  }

  /// How many of the disconnects are answered at once.
  function Hot(cfg: Config, rs: seq<Reason>): nat {
    if rs == [] then 0
    else
      Hot(cfg, DropLast(rs))
      + if WouldReconnectNow(cfg, PolicyAfterAll(DropLast(rs)), Last(rs)) then 1 else 0
  }

  lemma ClimbSnoc(rs: seq<Reason>, r: Reason)
    ensures Climb(rs + [r]) == Climb(rs) + [Fail(r)] + [Resume()]
    ensures PolicyAfterAll(rs + [r]) == NoteDisconnect(PolicyAfterAll(rs), 1, r)
  {
    assert DropLast(rs + [r]) == rs;
  }

  lemma HotSnoc(cfg: Config, rs: seq<Reason>, r: Reason)
    ensures Hot(cfg, rs + [r]) == Hot(cfg, rs) + if WouldReconnectNow(cfg, PolicyAfterAll(rs), r) then 1 else 0
  {
    assert DropLast(rs + [r]) == rs;
  }

  ghost predicate Climbed(cfg: Config, inputs: seq<Input<Env>>, p: Policy, hot: nat) {
    var m := Walk(cfg, WR_CONNECTING, inputs);
    && m.current == WR_CONNECTING && m.ctx.policy == p && (p.firstFailUs == 0 || p.firstFailUs == 1)
    && HotRetries(cfg, WR_CONNECTING, inputs) == hot
  }

  lemma FailAdvances(cfg: Config, m: Machine<Ctx>, r: Reason)
    requires Good(cfg, m) && m.current == WR_CONNECTING && r != AssocLeave
    requires m.ctx.policy.firstFailUs == 0 || m.ctx.policy.firstFailUs == 1
    ensures var n := Advance(m, EV_STA_DISCONNECTED, Fail(r).data);
            && (n.current == WR_CONNECTING || n.current == WR_BACKOFF)
            && n.ctx.policy == NoteDisconnect(m.ctx.policy, 1, r)
    ensures !WouldEscalate(cfg, m.ctx.policy, 1)
  {
    var k := Choose(m, EV_STA_DISCONNECTED, Fail(r).data);
    assert k == Some(5) || k == Some(6);
  }

  lemma PrefixIsWalk(cfg: Config, inputs: seq<Input<Env>>, last: Input<Env>)
    ensures Prefix(cfg, WR_CONNECTING, inputs + [last], |inputs|) == Walk(cfg, WR_CONNECTING, inputs)
    ensures DropLast(inputs + [last]) == inputs
  {
    assert (inputs + [last])[..|inputs|] == inputs;
  }

  /// Without a clearing event the count grows by the last input alone.
  lemma HotRetriesSnoc(cfg: Config, inputs: seq<Input<Env>>, last: Input<Env>)
    requires last.event == EV_STA_DISCONNECTED || last.event == EV_BACKOFF_TIMEOUT
    ensures HotRetries(cfg, WR_CONNECTING, inputs + [last]) ==
            HotRetries(cfg, WR_CONNECTING, inputs) + if HotRetry(cfg, WR_CONNECTING, inputs + [last], |inputs|) then 1 else 0
  {
    PrefixIsWalk(cfg, inputs, last);
    assert !ClearsLadders(cfg, WR_CONNECTING, inputs + [last], |inputs|);
  }

  /// The disconnect is counted at once; it is a hot retry exactly if the peek says so.
  lemma FailStep(cfg: Config, inputs: seq<Input<Env>>, p: Policy, hot: nat, r: Reason)
    requires Climbed(cfg, inputs, p, hot) && r != AssocLeave
    ensures var next := inputs + [Fail(r)]; var n := Walk(cfg, WR_CONNECTING, next);
            && (n.current == WR_CONNECTING || n.current == WR_BACKOFF) && n.ctx.policy == NoteDisconnect(p, 1, r)
            && (HotRetry(cfg, WR_CONNECTING, next, |inputs|) <==> WouldReconnectNow(cfg, p, r))
            && HotRetries(cfg, WR_CONNECTING, next) == hot + if WouldReconnectNow(cfg, p, r) then 1 else 0
  {
    WalkAdvances(cfg, WR_CONNECTING, inputs, Fail(r));
    FailAdvances(cfg, Walk(cfg, WR_CONNECTING, inputs), r);
    PrefixIsWalk(cfg, inputs, Fail(r));
    HotRetryIff(cfg, WR_CONNECTING, inputs + [Fail(r)], |inputs|);
    HotRetriesSnoc(cfg, inputs, Fail(r));
  }

  /// The backoff timeout leads back to connecting, or is ignored there.
  lemma ResumeStep(cfg: Config, inputs: seq<Input<Env>>)
    requires var m := Walk(cfg, WR_CONNECTING, inputs); m.current == WR_CONNECTING || m.current == WR_BACKOFF
    ensures var m, n := Walk(cfg, WR_CONNECTING, inputs), Walk(cfg, WR_CONNECTING, inputs + [Resume()]);
            && n.current == WR_CONNECTING && n.ctx.policy == m.ctx.policy
            && HotRetries(cfg, WR_CONNECTING, inputs + [Resume()]) == HotRetries(cfg, WR_CONNECTING, inputs)
  {
    WalkAdvances(cfg, WR_CONNECTING, inputs, Resume());
    HotRetriesSnoc(cfg, inputs, Resume());
    var m := Walk(cfg, WR_CONNECTING, inputs);
    var k := Choose(m, EV_BACKOFF_TIMEOUT, Resume().data);
    assert k == None || k == Some(13);
  }

  lemma ClimbOneMore(cfg: Config, inputs: seq<Input<Env>>, p: Policy, hot: nat, r: Reason)
    requires Climbed(cfg, inputs, p, hot) && r != AssocLeave
    ensures Climbed(cfg, inputs + [Fail(r)] + [Resume()], NoteDisconnect(p, 1, r),
                    hot + if WouldReconnectNow(cfg, p, r) then 1 else 0)
  {
    FailStep(cfg, inputs, p, hot, r);
    ResumeStep(cfg, inputs + [Fail(r)]);
  }

  lemma ClimbStarts(cfg: Config)
    ensures Climbed(cfg, [], FRESH, 0)
  {}

  lemma {:induction false} ClimbReaches(cfg: Config, rs: seq<Reason>)
    requires AssocLeave !in rs
    ensures Climbed(cfg, Climb(rs), PolicyAfterAll(rs), Hot(cfg, rs))
  {
    if rs == [] {
      ClimbStarts(cfg);
    } else {
      var before, r := DropLast(rs), Last(rs);
      assert r in rs && forall x :: x in before ==> x in rs;
      ClimbReaches(cfg, before);
      ClimbOneMore(cfg, Climb(before), PolicyAfterAll(before), Hot(cfg, before), r);
    }
  }

  // ------------------------------------------------------------------------
  // How many immediate reconnects a climb collects
  // ------------------------------------------------------------------------

  function Times(r: Reason, n: nat): (rs: seq<Reason>)
    ensures |rs| == n && forall x :: x in rs ==> x == r
  {
    if n == 0 then [] else Times(r, n - 1) + [r]
  }

  lemma {:induction false} ClimbGeneric(cfg: Config, n: nat)
    ensures var p := PolicyAfterAll(Times(Unknown, n));
            p.genericFails == n && p.handshakeFails == 0 && p.slowFails == 0
    ensures n <= cfg.genericFastLimit ==> Hot(cfg, Times(Unknown, n)) == n
  {
    if n > 0 {
      ClimbGeneric(cfg, n - 1);
      ClimbSnoc(Times(Unknown, n - 1), Unknown);
      HotSnoc(cfg, Times(Unknown, n - 1), Unknown);
    }
  }

  lemma {:induction false} ClimbHandshake(cfg: Config, rs: seq<Reason>, n: nat)
    requires PolicyAfterAll(rs).handshakeFails == 0
    ensures var p, q := PolicyAfterAll(rs), PolicyAfterAll(rs + Times(HandshakeTimeout, n));
            q.handshakeFails == n && q.genericFails == p.genericFails && q.slowFails == p.slowFails
    ensures Hot(cfg, rs + Times(HandshakeTimeout, n)) >= Hot(cfg, rs) + Min(n, cfg.handshakeFastLimit)
  {
    if n == 0 {
      assert rs + [] == rs;
    } else {
      ClimbHandshake(cfg, rs, n - 1);
      var shorter := rs + Times(HandshakeTimeout, n - 1);
      assert rs + Times(HandshakeTimeout, n) == shorter + [HandshakeTimeout];
      ClimbSnoc(shorter, HandshakeTimeout);
      HotSnoc(cfg, shorter, HandshakeTimeout);
    }
  }

  lemma {:induction false} ClimbSlow(cfg: Config, rs: seq<Reason>, n: nat)
    requires PolicyAfterAll(rs).slowFails == 0
    ensures var p, q := PolicyAfterAll(rs), PolicyAfterAll(rs + Times(AuthFail, n));
            q.slowFails == n && q.genericFails == p.genericFails && q.handshakeFails == p.handshakeFails
    ensures Hot(cfg, rs + Times(AuthFail, n)) >= Hot(cfg, rs)
  {
    if n == 0 {
      assert rs + [] == rs;
    } else {
      ClimbSlow(cfg, rs, n - 1);
      var shorter := rs + Times(AuthFail, n - 1);
      assert rs + Times(AuthFail, n) == shorter + [AuthFail];
      ClimbSnoc(shorter, AuthFail);
      HotSnoc(cfg, shorter, AuthFail);
    }
  }

  /// Both fast limits used up, then `handshakes` and `slows` climbed.
  function Exhausted(cfg: Config, handshakes: nat, slows: nat): seq<Reason> {
    Times(Unknown, cfg.genericFastLimit) + Times(HandshakeTimeout, handshakes) + Times(AuthFail, slows)
  }

  lemma ExhaustedFacts(cfg: Config, handshakes: nat, slows: nat)
    requires handshakes >= cfg.handshakeFastLimit
    ensures var rs := Exhausted(cfg, handshakes, slows); var p := PolicyAfterAll(rs);
            && AssocLeave !in rs
            && p.genericFails == cfg.genericFastLimit && p.handshakeFails == handshakes && p.slowFails == slows
            && Hot(cfg, rs) >= cfg.genericFastLimit + cfg.handshakeFastLimit
  {
    ClimbGeneric(cfg, cfg.genericFastLimit);
    ClimbHandshake(cfg, Times(Unknown, cfg.genericFastLimit), handshakes);
    ClimbSlow(cfg, Times(Unknown, cfg.genericFastLimit) + Times(HandshakeTimeout, handshakes), slows);
  }

  /// How far to climb the handshake and slow ladders, and the reason that then meets a tier
  /// of 0.
  function Weakest(cfg: Config): (nat, nat, Reason) {
    var h := cfg.handshakeFastLimit;
    if h < cfg.handshakeTier2Limit && cfg.handshakeTier2Ms == 0 then (h, 0, HandshakeTimeout)
    else if cfg.handshakeTier3Ms == 0 then
      (if cfg.handshakeTier2Limit > h then cfg.handshakeTier2Limit else h, 0, HandshakeTimeout)
    else if cfg.slowTier1Limit >= 1 && cfg.slowTier1Ms == 0 then (h, 0, AuthFail)
    else if cfg.slowTier2Ms == 0 then (h, cfg.slowTier1Limit, AuthFail)
    else (h, 0, Unknown)
  }

  lemma WeakestIsHot(cfg: Config, p: Policy)
    requires !UsedTiersPositive(cfg)
    requires var (h, s, r) := Weakest(cfg);
             p.genericFails == cfg.genericFastLimit && p.handshakeFails == h && p.slowFails == s
    ensures WouldReconnectNow(cfg, p, Weakest(cfg).2)
    ensures Weakest(cfg).0 >= cfg.handshakeFastLimit && Weakest(cfg).2 != AssocLeave
  {}

  /// The climb that makes a configuration with a zero tier in use answer one more disconnect
  /// at once than the two fast limits allow.
  lemma OneTooMany(cfg: Config) returns (rs: seq<Reason>)
    requires !UsedTiersPositive(cfg)
    ensures AssocLeave !in rs && Hot(cfg, rs) > cfg.handshakeFastLimit + cfg.genericFastLimit
  {
    var (h, s, r) := Weakest(cfg);
    var base := Exhausted(cfg, h, s);
    assert h >= cfg.handshakeFastLimit;
    ExhaustedFacts(cfg, h, s);
    WeakestIsHot(cfg, PolicyAfterAll(base));
    HotSnoc(cfg, base, r);
    rs := base + [r];
  }

  // ------------------------------------------------------------------------
  // The exact conditions
  // ------------------------------------------------------------------------

  ghost predicate HotRetriesBounded(cfg: Config) {
    forall boot, inputs: seq<Input<Env>> :: BootState(boot) ==>
      HotRetries(cfg, boot, inputs) <= cfg.handshakeFastLimit + cfg.genericFastLimit
  }

  /// Between two clearings at most the two fast limits' worth of disconnects are answered at
  /// once, over all runs, exactly when every tier in use is positive.
  lemma HotRetriesBoundedIff(cfg: Config)
    ensures HotRetriesBounded(cfg) <==> UsedTiersPositive(cfg)
  {
    if UsedTiersPositive(cfg) {
      forall boot, inputs: seq<Input<Env>> | BootState(boot)
        ensures HotRetries(cfg, boot, inputs) <= cfg.handshakeFastLimit + cfg.genericFastLimit
      {
        HotRetriesAreBounded(cfg, boot, inputs);
      }
    } else {
      var rs := OneTooMany(cfg);
      ClimbReaches(cfg, rs);
      assert HotRetries(cfg, WR_CONNECTING, Climb(rs)) > cfg.handshakeFastLimit + cfg.genericFastLimit;
    }
  }

  ghost predicate SlowNeverHot(cfg: Config) {
    forall boot, inputs: seq<Input<Env>>, k: nat ::
      BootState(boot) && k < |inputs| && HotRetry(cfg, boot, inputs, k) ==> !IsSlow(inputs[k].data.reason)
  }

  /// Bad credentials and an absent access point are never retried at once, over all runs,
  /// exactly when the slow tiers in use are positive.
  lemma SlowNeverHotIff(cfg: Config)
    ensures SlowNeverHot(cfg) <==> SlowTiersPositive(cfg)
  {
    hide Walk, HotRetry, Climbed;
    if SlowTiersPositive(cfg) {
      forall boot, inputs: seq<Input<Env>>, k: nat | BootState(boot) && k < |inputs| && HotRetry(cfg, boot, inputs, k)
        ensures !IsSlow(inputs[k].data.reason)
      {
        SlowReasonsNeverRetryHot(cfg, boot, inputs, k);
      }
    } else {
      var s := if cfg.slowTier1Limit >= 1 && cfg.slowTier1Ms == 0 then 0 else cfg.slowTier1Limit;
      ExhaustedFacts(cfg, cfg.handshakeFastLimit, s);
      var rs := Exhausted(cfg, cfg.handshakeFastLimit, s);
      ClimbReaches(cfg, rs);
      FailStep(cfg, Climb(rs), PolicyAfterAll(rs), Hot(cfg, rs), AuthFail);
      var inputs, k := Climb(rs) + [Fail(AuthFail)], |Climb(rs)|;
      assert HotRetry(cfg, WR_CONNECTING, inputs, k) && IsSlow(inputs[k].data.reason);
    }
  }
}
