/// The escalation deadline is attained: a punctual run that climbs to the longest backoff
/// within the window ends its last wait exactly on the bound.
module ReconnTight {
  import opened Wrappers
  import opened Fsm
  import opened ReconnPolicy
  import opened ReconnMachine
  import opened ReconnRuns
  import opened ReconnTimed

  // ------------------------------------------------------------------------
  // Runs built one event at a time
  // ------------------------------------------------------------------------

  /// Timeouts arrive exactly when they are due, and reboots are permitted.
  predicate Punctual(t: Clocked, input: Input<Env>) {
    && input.data.rebootAllowed
    && (input.event == EV_CONNECTING_TIMEOUT || input.event == EV_BACKOFF_TIMEOUT ==>
          DueUs(FixedDeadline, t) == Some(input.data.nowUs))
  }

  ghost predicate PunctualRun(cfg: Config, r: Trace) {
    && Legal(FixedDeadline, cfg, r)
    && forall i :: 0 <= i < |r.inputs| ==> Punctual(After(cfg, r, i), r.inputs[i])
  }

  ghost predicate Reaches(cfg: Config, t: Clocked) {
    exists r :: PunctualRun(cfg, r) && End(cfg, r) == t
  }

  lemma {:induction false} AfterOfLonger(cfg: Config, r: Trace, input: Input<Env>, k: nat)
    requires k <= |r.inputs|
    ensures After(cfg, r.(inputs := r.inputs + [input]), k) == After(cfg, r, k)
  {
    hide Tick;
    if k > 0 {
      AfterOfLonger(cfg, r, input, k - 1);
    }
  }

  lemma ReachesNext(cfg: Config, t: Clocked, input: Input<Env>)
    requires Reaches(cfg, t) && InTime(FixedDeadline, t, input) && Punctual(t, input)
    ensures Reaches(cfg, Tick(t, input))
  {
    hide Tick, InTime, Punctual;
    var r :| PunctualRun(cfg, r) && End(cfg, r) == t;
    var longer := r.(inputs := r.inputs + [input]);
    forall k | 0 <= k < |longer.inputs|
      ensures InTime(FixedDeadline, After(cfg, longer, k), longer.inputs[k]) && Punctual(After(cfg, longer, k), longer.inputs[k])
    {
      AfterOfLonger(cfg, r, input, k);
    }
    AfterOfLonger(cfg, r, input, |r.inputs|);
    assert PunctualRun(cfg, longer) && End(cfg, longer) == Tick(t, input);
  }

  // ------------------------------------------------------------------------
  // Climbing within the window
  // ------------------------------------------------------------------------

  /// Connecting since `nowUs`, in a window open since `openUs`, no reboot refused.
  ghost predicate Trying(cfg: Config, t: Clocked, openUs: int, nowUs: int) {
    && Good(cfg, t.m) && t.m.current == WR_CONNECTING
    && t.m.ctx.policy.firstFailUs == openUs != 0
    && t.nowUs == t.armedUs == nowUs && t.deniedUs <= openUs <= nowUs
  }

  function TierUs(cfg: Config, p: Policy, r: Reason): nat {
    1000 * BackoffMs(cfg, Bump(p, r), r)
  }

  /// The counters after `rs`, and how long the backoffs they cause take.
  function BumpAll(p: Policy, rs: seq<Reason>): Policy
    decreases |rs|
  {
    if rs == [] then p else BumpAll(Bump(p, rs[0]), rs[1..])
  }

  function ClimbUs(cfg: Config, p: Policy, rs: seq<Reason>): nat
    decreases |rs|
  {
    if rs == [] then 0 else TierUs(cfg, p, rs[0]) + ClimbUs(cfg, Bump(p, rs[0]), rs[1..])
  }

  predicate SameLadders(p: Policy, q: Policy) {
    p.handshakeFails == q.handshakeFails && p.genericFails == q.genericFails && p.slowFails == q.slowFails
  }

  function Drop(r: Reason, nowUs: int): Input<Env> { Input(EV_STA_DISCONNECTED, Env(r, nowUs, true)) }

  function Timeout(event: EventId, nowUs: int): Input<Env> { Input(event, Env(Unknown, nowUs, true)) }

  lemma DropStep(cfg: Config, t: Clocked, openUs: int, nowUs: int, r: Reason, thenUs: int)
    requires Trying(cfg, t, openUs, nowUs) && r != AssocLeave
    requires nowUs <= thenUs <= openUs + cfg.windowUs
    ensures var u := Tick(t, Drop(r, thenUs)); var ms := BackoffMs(cfg, Bump(t.m.ctx.policy, r), r);
            && Good(cfg, u.m) && SameLadders(u.m.ctx.policy, Bump(t.m.ctx.policy, r))
            && u.m.ctx.policy.firstFailUs == openUs
            && u.nowUs == u.armedUs == thenUs && u.deniedUs == t.deniedUs
            && (ms == 0 ==> u.m.current == WR_CONNECTING)
            && (ms > 0 ==> u.m.current == WR_BACKOFF && u.m.ctx.pendingBackoffMs == ms)
  {
    var d := Drop(r, thenUs).data;
    GoodStep(cfg, t.m, EV_STA_DISCONNECTED, d);
    RearmingRows(t.m, EV_STA_DISCONNECTED, d);
    assert Choose(t.m, EV_STA_DISCONNECTED, d) == Some(if WouldReconnectNow(cfg, t.m.ctx.policy, r) then 5 else 6);
  }

  lemma BackoffStep(cfg: Config, t: Clocked, nowUs: int)
    requires Good(cfg, t.m) && t.m.current == WR_BACKOFF
    ensures var u := Tick(t, Timeout(EV_BACKOFF_TIMEOUT, nowUs));
            && Good(cfg, u.m) && u.m.current == WR_CONNECTING && u.m.ctx.policy == t.m.ctx.policy
            && u.nowUs == u.armedUs == nowUs && u.deniedUs == t.deniedUs
  {
    var d := Timeout(EV_BACKOFF_TIMEOUT, nowUs).data;
    GoodStep(cfg, t.m, EV_BACKOFF_TIMEOUT, d);
    RearmingRows(t.m, EV_BACKOFF_TIMEOUT, d);
    assert Choose(t.m, EV_BACKOFF_TIMEOUT, d) == Some(13);
  }

  lemma TimeoutStep(cfg: Config, t: Clocked, nowUs: int)
    requires Good(cfg, t.m) && t.m.current == WR_CONNECTING
    requires nowUs - FirstFail(t.m.ctx.policy, nowUs) <= cfg.windowUs
    ensures var u := Tick(t, Timeout(EV_CONNECTING_TIMEOUT, nowUs));
            && Good(cfg, u.m) && u.m.current == WR_CONNECTING && SameLadders(u.m.ctx.policy, Bump(t.m.ctx.policy, Unknown))
            && u.m.ctx.policy.firstFailUs == FirstFail(t.m.ctx.policy, nowUs)
            && u.nowUs == u.armedUs == nowUs && u.deniedUs == t.deniedUs
  {
    var d := Timeout(EV_CONNECTING_TIMEOUT, nowUs).data;
    GoodStep(cfg, t.m, EV_CONNECTING_TIMEOUT, d);
    RearmingRows(t.m, EV_CONNECTING_TIMEOUT, d);
    assert Choose(t.m, EV_CONNECTING_TIMEOUT, d) == Some(9);
  }

  /// One disconnect at `thenUs`, and the backoff it causes waited out.
  lemma ClimbOnce(cfg: Config, t: Clocked, openUs: int, nowUs: int, r: Reason, thenUs: int) returns (u: Clocked)
    requires Ticking(cfg) && Reaches(cfg, t) && Trying(cfg, t, openUs, nowUs) && r != AssocLeave
    requires nowUs <= thenUs <= openUs + cfg.windowUs && thenUs <= nowUs + ConnectUs(cfg)
    ensures Reaches(cfg, u) && Trying(cfg, u, openUs, thenUs + TierUs(cfg, t.m.ctx.policy, r))
    ensures SameLadders(u.m.ctx.policy, Bump(t.m.ctx.policy, r))
  {
    hide Tick, Reaches, Good, BackoffMs, Bump;
    DropStep(cfg, t, openUs, nowUs, r, thenUs);
    DropInTime(cfg, t, r, thenUs);
    ReachesNext(cfg, t, Drop(r, thenUs));
    u := Tick(t, Drop(r, thenUs));
    if u.m.current == WR_BACKOFF {
      var dueUs := thenUs + TierUs(cfg, t.m.ctx.policy, r);
      TimeoutInTime(cfg, u, EV_BACKOFF_TIMEOUT, dueUs);
      BackoffStep(cfg, u, dueUs);
      ReachesNext(cfg, u, Timeout(EV_BACKOFF_TIMEOUT, dueUs));
      u := Tick(u, Timeout(EV_BACKOFF_TIMEOUT, dueUs));
    }
  }

  lemma DropInTime(cfg: Config, t: Clocked, r: Reason, thenUs: int)
    requires Ticking(cfg) && Good(cfg, t.m) && t.m.current == WR_CONNECTING
    requires t.nowUs <= thenUs <= t.armedUs + ConnectUs(cfg)
    ensures InTime(FixedDeadline, t, Drop(r, thenUs)) && Punctual(t, Drop(r, thenUs))
  {
    WaitingStates(cfg, t.m);
  }

  lemma TimeoutInTime(cfg: Config, t: Clocked, event: EventId, dueUs: int)
    requires Ticking(cfg) && Good(cfg, t.m) && (t.m.current == WR_CONNECTING || t.m.current == WR_BACKOFF)
    requires t.nowUs == t.armedUs && dueUs == t.armedUs + ArmedUs(t.m)
    ensures InTime(FixedDeadline, t, Timeout(event, dueUs)) && Punctual(t, Timeout(event, dueUs))
  {
    WaitingStates(cfg, t.m);
  }

  lemma SameTier(cfg: Config, p: Policy, q: Policy, r: Reason)
    requires SameLadders(p, q)
    ensures TierUs(cfg, p, r) == TierUs(cfg, q, r) && SameLadders(Bump(p, r), Bump(q, r))
  {}

  lemma {:induction false} ClimbAll(cfg: Config, t: Clocked, openUs: int, nowUs: int, p: Policy, rs: seq<Reason>)
    returns (u: Clocked)
    requires Ticking(cfg) && Reaches(cfg, t) && Trying(cfg, t, openUs, nowUs) && SameLadders(t.m.ctx.policy, p)
    requires AssocLeave !in rs && nowUs + ClimbUs(cfg, p, rs) <= openUs + cfg.windowUs
    ensures Reaches(cfg, u) && Trying(cfg, u, openUs, nowUs + ClimbUs(cfg, p, rs))
    ensures SameLadders(u.m.ctx.policy, BumpAll(p, rs))
    decreases |rs|
  {
    hide Reaches, Trying, Bump, TierUs;
    if rs == [] {
      u := t;
    } else {
      assert rs[0] in rs && AssocLeave !in rs[1..];
      SameTier(cfg, t.m.ctx.policy, p, rs[0]);
      var v := ClimbOnce(cfg, t, openUs, nowUs, rs[0], nowUs);
      u := ClimbAll(cfg, v, openUs, nowUs + TierUs(cfg, p, rs[0]), Bump(p, rs[0]), rs[1..]);
    }
  }

  /// A connect timeout never takes the next backoff of `r` off the longest tier.
  lemma TimeoutsKeepTier(cfg: Config, p: Policy, q: Policy, r: Reason)
    requires Ticking(cfg) && SameLadders(q, Bump(p, Unknown)) && TierUs(cfg, p, r) == LongestBackoffUs(cfg)
    ensures TierUs(cfg, q, r) == LongestBackoffUs(cfg)
  {}

  /// Connect timeouts until the next one would fall behind the window.
  lemma {:induction false} Idle(cfg: Config, t: Clocked, openUs: int, nowUs: int, r: Reason)
    returns (u: Clocked, lastUs: int)
    requires Ticking(cfg) && Reaches(cfg, t) && Trying(cfg, t, openUs, nowUs) && nowUs <= openUs + cfg.windowUs
    requires TierUs(cfg, t.m.ctx.policy, r) == LongestBackoffUs(cfg)
    ensures Reaches(cfg, u) && Trying(cfg, u, openUs, lastUs)
    ensures lastUs <= openUs + cfg.windowUs < lastUs + ConnectUs(cfg)
    ensures TierUs(cfg, u.m.ctx.policy, r) == LongestBackoffUs(cfg)
    decreases openUs + cfg.windowUs - nowUs
  {
    var dueUs := nowUs + ConnectUs(cfg);
    if openUs + cfg.windowUs < dueUs {
      u, lastUs := t, nowUs;
    } else {
      WaitingStates(cfg, t.m);
      TimeoutInTime(cfg, t, EV_CONNECTING_TIMEOUT, dueUs);
      TimeoutStep(cfg, t, dueUs);
      ReachesNext(cfg, t, Timeout(EV_CONNECTING_TIMEOUT, dueUs));
      hide Tick, Reaches, Good, Bump, TierUs;
      var v := Tick(t, Timeout(EV_CONNECTING_TIMEOUT, dueUs));
      TimeoutsKeepTier(cfg, t.m.ctx.policy, v.m.ctx.policy, r);
      u, lastUs := Idle(cfg, v, openUs, dueUs, r);
    }
  }

  // ------------------------------------------------------------------------
  // The bound is attained
  // ------------------------------------------------------------------------

  /// The counters after the connect timeout that opens the window.
  const OPENED: Policy := Bump(FRESH, Unknown)

  /// Some reasons climb, within the window, to where the next backoff is the longest one.
  ghost predicate LongestInReach(cfg: Config, rs: seq<Reason>, r: Reason) {
    && AssocLeave !in rs && r != AssocLeave
    && ClimbUs(cfg, OPENED, rs) <= cfg.windowUs
    && TierUs(cfg, BumpAll(OPENED, rs), r) == LongestBackoffUs(cfg)
  }

  lemma StartReached(cfg: Config) returns (t: Clocked)
    ensures t == Clocked(Standing(WR_CONNECTING, Boot(cfg)), 0, 0, 0) && Reaches(cfg, t)
  {
    hide Standing, Boot, Tick;
    var empty := Trace(WR_CONNECTING, 0, []);
    t := End(cfg, empty);
    assert PunctualRun(cfg, empty);
  }

  lemma OpenWindow(cfg: Config) returns (t: Clocked)
    requires Ticking(cfg)
    ensures Reaches(cfg, t) && Trying(cfg, t, ConnectUs(cfg), ConnectUs(cfg)) && SameLadders(t.m.ctx.policy, OPENED)
  {
    hide Tick, Reaches, Good;
    var start := StartReached(cfg);
    BootIsGood(cfg, WR_CONNECTING);
    var input := Timeout(EV_CONNECTING_TIMEOUT, ConnectUs(cfg));
    WaitingStates(cfg, start.m);
    TimeoutInTime(cfg, start, EV_CONNECTING_TIMEOUT, ConnectUs(cfg));
    TimeoutStep(cfg, start, ConnectUs(cfg));
    ReachesNext(cfg, start, input);
    t := Tick(start, input);
  }

  /// The last wait of `t` ends exactly on the bound.
  predicate OnTheBound(cfg: Config, t: Clocked) {
    && t.m.current == WR_CONNECTING && Open(t) && t.deniedUs <= t.m.ctx.policy.firstFailUs
    && DueUs(FixedDeadline, t) == Some(t.m.ctx.policy.firstFailUs + cfg.windowUs + BoundUs(cfg))
  }

  lemma BoundIsAttained(cfg: Config, rs: seq<Reason>, r: Reason) returns (run: Trace)
    requires Ticking(cfg) && LongestInReach(cfg, rs, r)
    ensures PunctualRun(cfg, run) && OnTheBound(cfg, End(cfg, run))
  {
    hide BumpAll, ClimbUs, TierUs, Trying, Reaches, PunctualRun, End;
    var openUs := ConnectUs(cfg);
    var t := OpenWindow(cfg);
    t := ClimbAll(cfg, t, openUs, openUs, OPENED, rs);
    TierOfSame(cfg, t.m.ctx.policy, BumpAll(OPENED, rs), r);
    var lastUs: int;
    t, lastUs := Idle(cfg, t, openUs, openUs + ClimbUs(cfg, OPENED, rs), r);
    t := ClimbOnce(cfg, t, openUs, lastUs, r, openUs + cfg.windowUs);
    TryingOnTheBound(cfg, t, openUs);
    run := RunTo(cfg, t);
  }

  lemma RunTo(cfg: Config, t: Clocked) returns (run: Trace)
    requires Reaches(cfg, t)
    ensures PunctualRun(cfg, run) && End(cfg, run) == t
  {
    hide PunctualRun, End;
    run :| PunctualRun(cfg, run) && End(cfg, run) == t;
  }

  lemma TryingOnTheBound(cfg: Config, t: Clocked, openUs: int)
    requires Ticking(cfg) && Trying(cfg, t, openUs, openUs + cfg.windowUs + LongestBackoffUs(cfg))
    ensures OnTheBound(cfg, t)
  {
    WaitingStates(cfg, t.m);
  }

  lemma TierOfSame(cfg: Config, p: Policy, q: Policy, r: Reason)
    requires SameLadders(p, q)
    ensures TierUs(cfg, p, r) == TierUs(cfg, q, r)
  {}

  ghost predicate EveryRunMeets(cfg: Config, boundUs: int) {
    forall r :: PunctualRun(cfg, r) ==> MeetsDeadline(FixedDeadline, cfg, r, boundUs)
  }

  /// The escalation bound is the least one: when the longest tier can be reached within the
  /// window, the punctual runs with reboots permitted meet exactly the bounds from it on.
  lemma BoundIsLeast(cfg: Config, rs: seq<Reason>, r: Reason, boundUs: int)
    requires Ticking(cfg) && LongestInReach(cfg, rs, r)
    ensures EveryRunMeets(cfg, boundUs) <==> boundUs >= BoundUs(cfg)
  {
    if boundUs >= BoundUs(cfg) {
      forall run | PunctualRun(cfg, run) ensures MeetsDeadline(FixedDeadline, cfg, run, boundUs) {
        EscalationDeadline(cfg, run);
        LaterDeadline(cfg, run, boundUs);
      }
    } else {
      var run := BoundIsAttained(cfg, rs, r);
      OnTheBoundMisses(cfg, run, boundUs);
      assert !MeetsDeadline(FixedDeadline, cfg, run, boundUs);
    }
  }

  lemma LaterDeadline(cfg: Config, r: Trace, boundUs: int)
    requires MeetsDeadline(FixedDeadline, cfg, r, BoundUs(cfg)) && boundUs >= BoundUs(cfg)
    ensures MeetsDeadline(FixedDeadline, cfg, r, boundUs)
  {
    hide BeforeDue, After;
    forall k, now | 0 <= k <= |r.inputs| && BeforeDue(FixedDeadline, After(cfg, r, k), now)
      ensures EscalatedBy(cfg, After(cfg, r, k), now, boundUs)
    {
      assert EscalatedBy(cfg, After(cfg, r, k), now, BoundUs(cfg));
    }
  }

  lemma OnTheBoundMisses(cfg: Config, r: Trace, boundUs: int)
    requires OnTheBound(cfg, End(cfg, r)) && boundUs < BoundUs(cfg)
    ensures !MeetsDeadline(FixedDeadline, cfg, r, boundUs)
  {
    hide Tick;
    var t := End(cfg, r);
    assert BeforeDue(FixedDeadline, After(cfg, r, |r.inputs|), DueUs(FixedDeadline, t).value);
    assert !EscalatedBy(cfg, After(cfg, r, |r.inputs|), DueUs(FixedDeadline, t).value, boundUs);
  }

  // --- the tiers that are in reach ---------------------------------------------------

  function Rejections(n: nat): seq<Reason> { seq(n, _ => AuthFail) }

  lemma {:induction false} SlowClimb(cfg: Config, p: Policy, n: nat)
    requires p.slowFails + n <= cfg.slowTier1Limit
    ensures ClimbUs(cfg, p, Rejections(n)) == n * (1000 * cfg.slowTier1Ms)
    ensures BumpAll(p, Rejections(n)).slowFails == p.slowFails + n
    decreases n
  {
    if n > 0 {
      var rs := Rejections(n);
      assert rs[1..] == Rejections(n - 1) && rs[0] == AuthFail;
      SlowClimb(cfg, Bump(p, AuthFail), n - 1);
      assert n * (1000 * cfg.slowTier1Ms) == 1000 * cfg.slowTier1Ms + (n - 1) * (1000 * cfg.slowTier1Ms);
    }
  }

  /// As the shipped constants have it: the second slow tier is the longest backoff, and the
  /// first slow tier can be climbed within the window.
  lemma SlowTierInReach(cfg: Config)
    requires 1000 * cfg.slowTier2Ms == LongestBackoffUs(cfg)
    requires cfg.slowTier1Limit * (1000 * cfg.slowTier1Ms) <= cfg.windowUs
    ensures LongestInReach(cfg, Rejections(cfg.slowTier1Limit), AuthFail)
  {
    SlowClimb(cfg, OPENED, cfg.slowTier1Limit);
  }
}
