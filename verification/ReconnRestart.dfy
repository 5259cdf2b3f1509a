/// The device's task loop counts each wait again from every received event.  What that does
/// to the escalation deadline, and exactly when it does no harm.
module ReconnRestart {
  import opened Wrappers
  import opened Fsm
  import opened ReconnPolicy
  import opened ReconnMachine
  import opened ReconnRuns
  import opened ReconnTimed

  // ------------------------------------------------------------------------
  // When the two disciplines agree
  // ------------------------------------------------------------------------

  /// Event `i` arrives while a timer is armed and arms none.
  predicate Absorbed(cfg: Config, r: Trace, i: nat)
    requires i < |r.inputs|
  {
    Waiting(After(cfg, r, i).m) && !Rearms(After(cfg, r, i).m, r.inputs[i].event, r.inputs[i].data)
  }

  predicate SameDue(cfg: Config, r: Trace, k: nat)
    requires k <= |r.inputs|
  {
    DueUs(FixedDeadline, After(cfg, r, k)) == DueUs(RestartOnEvent, After(cfg, r, k))
  }

  predicate AtArming(cfg: Config, r: Trace, i: nat)
    requires i < |r.inputs|
  {
    r.inputs[i].data.nowUs == After(cfg, r, i).armedUs
  }

  lemma SameDueAfter(cfg: Config, r: Trace, i: nat)
    requires BootState(r.boot) && i < |r.inputs|
    ensures SameDue(cfg, r, i + 1) <==> (Absorbed(cfg, r, i) ==> AtArming(cfg, r, i))
  {
    hide Advance, Rearms, Walk;
    AfterIsWalk(cfg, r, i);
    var m := After(cfg, r, i).m;
    if !Rearms(m, r.inputs[i].event, r.inputs[i].data) {
      AbsorbedChangesNothing(cfg, m, r.inputs[i].event, r.inputs[i].data);
    }
  }

  ghost predicate SameDues(cfg: Config, r: Trace) {
    forall k :: 0 <= k <= |r.inputs| ==> SameDue(cfg, r, k)
  }

  /// The two ways of waiting give the same due times throughout a run exactly when every
  /// absorbed event arrives at the instant of the last arming; they then accept the same runs.
  lemma DisciplinesAgreeIff(cfg: Config, r: Trace)
    requires BootState(r.boot)
    ensures SameDues(cfg, r) <==> forall i :: 0 <= i < |r.inputs| && Absorbed(cfg, r, i) ==> AtArming(cfg, r, i)
    ensures SameDues(cfg, r) ==> (Legal(RestartOnEvent, cfg, r) <==> Legal(FixedDeadline, cfg, r))
  {
    assert SameDue(cfg, r, 0);
    forall i | 0 <= i < |r.inputs|
      ensures SameDue(cfg, r, i + 1) <==> (Absorbed(cfg, r, i) ==> AtArming(cfg, r, i))
    {
      SameDueAfter(cfg, r, i);
    }
    if forall i :: 0 <= i < |r.inputs| && Absorbed(cfg, r, i) ==> AtArming(cfg, r, i) {
      forall k | 0 <= k <= |r.inputs| ensures SameDue(cfg, r, k) {
        if k > 0 {
          SameDueAfter(cfg, r, k - 1);
        }
      }
    }
    if SameDues(cfg, r) {
      forall k | 0 <= k < |r.inputs|
        ensures InTime(RestartOnEvent, After(cfg, r, k), r.inputs[k]) <==> InTime(FixedDeadline, After(cfg, r, k), r.inputs[k])
      {
        assert SameDue(cfg, r, k);
      }
    }
  }

  // ------------------------------------------------------------------------
  // What absorbed events cost
  // ------------------------------------------------------------------------

  /// Events absorbed in the wait the first `k` events have led to.
  function AbsorbedSince(cfg: Config, r: Trace, k: nat): nat
    requires k <= |r.inputs|
  {
    if k == 0 || Rearms(After(cfg, r, k - 1).m, r.inputs[k - 1].event, r.inputs[k - 1].data) then 0
    else 1 + AbsorbedSince(cfg, r, k - 1)
  }

  /// The wait is put off by at most `n` times its own length.
  predicate PutOffBy(t: Clocked, n: nat) {
    Waiting(t.m) ==> Lag(RestartOnEvent, t) <= n * ArmedUs(t.m)
  }

  lemma TickPutsOff(cfg: Config, t: Clocked, input: Input<Env>, n: nat)
    requires Good(cfg, t.m) && InTime(RestartOnEvent, t, input) && PutOffBy(t, n)
    ensures PutOffBy(Tick(t, input), if Rearms(t.m, input.event, input.data) then 0 else n + 1)
  {
    if !Rearms(t.m, input.event, input.data) {
      AbsorbedChangesNothing(cfg, t.m, input.event, input.data);
      assert (n + 1) * ArmedUs(t.m) == n * ArmedUs(t.m) + ArmedUs(t.m);
    }
  }

  lemma {:induction false} LagByCount(cfg: Config, r: Trace, k: nat)
    requires Legal(RestartOnEvent, cfg, r) && k <= |r.inputs|
    ensures PutOffBy(After(cfg, r, k), AbsorbedSince(cfg, r, k))
  {
    hide Tick, Rearms;
    if k > 0 {
      LagByCount(cfg, r, k - 1);
      LegalStep(RestartOnEvent, cfg, r, k - 1);
      TickPutsOff(cfg, After(cfg, r, k - 1), r.inputs[k - 1], AbsorbedSince(cfg, r, k - 1));
    }
  }

  /// While the window is open, no wait absorbs more than `most` events.
  ghost predicate AbsorbsAtMost(cfg: Config, r: Trace, most: nat) {
    forall k :: 0 <= k <= |r.inputs| && Open(After(cfg, r, k)) && Waiting(After(cfg, r, k).m) ==> AbsorbedSince(cfg, r, k) <= most
  }

  lemma MulMonotone(a: nat, b: nat, x: nat, y: nat)
    requires a <= b && x <= y
    ensures a * x <= b * y
  {}

  lemma CountedLagWithin(cfg: Config, r: Trace, most: nat, k: nat)
    requires Ticking(cfg) && Legal(RestartOnEvent, cfg, r) && AbsorbsAtMost(cfg, r, most) && k <= |r.inputs|
    ensures LagWithin(RestartOnEvent, After(cfg, r, k), most * LongestBackoffUs(cfg), most * ConnectUs(cfg))
  {
    var t := After(cfg, r, k);
    AfterIsWalk(cfg, r, k);
    WaitingStates(cfg, t.m);
    if Open(t) && Waiting(t.m) {
      LagByCount(cfg, r, k);
      MulMonotone(AbsorbedSince(cfg, r, k), most, ArmedUs(t.m),
                  if t.m.current == WR_BACKOFF then LongestBackoffUs(cfg) else ConnectUs(cfg));
    }
  }

  /// With at most `most` events absorbed per wait, the device's loop meets the deadline with
  /// `most` more longest backoffs and connect timeouts; with none absorbed, the same deadline.
  lemma RestartDeadline(cfg: Config, r: Trace, most: nat)
    requires Ticking(cfg) && Legal(RestartOnEvent, cfg, r) && AbsorbsAtMost(cfg, r, most)
    ensures MeetsDeadline(RestartOnEvent, cfg, r, BoundUs(cfg) + most * BoundUs(cfg))
  {
    forall k | 0 <= k <= |r.inputs|
      ensures LagWithin(RestartOnEvent, After(cfg, r, k), most * LongestBackoffUs(cfg), most * ConnectUs(cfg))
    {
      CountedLagWithin(cfg, r, most, k);
    }
    DeadlineWithLags(RestartOnEvent, cfg, r, most * LongestBackoffUs(cfg), most * ConnectUs(cfg));
    assert most * BoundUs(cfg) == most * LongestBackoffUs(cfg) + most * ConnectUs(cfg);
  }

  // ------------------------------------------------------------------------
  // Exactly which runs meet a deadline
  // ------------------------------------------------------------------------

  /// While the window is open, the wait ends no more than `boundUs` after `Ripe`.
  predicate DueWithin(cfg: Config, t: Clocked, boundUs: int) {
    Open(t) && Waiting(t.m) ==> DueUs(RestartOnEvent, t).value <= Ripe(cfg, t) + boundUs
  }

  lemma DueWithinSuffices(cfg: Config, t: Clocked, boundUs: int, now: int)
    requires Ticking(cfg) && Good(cfg, t.m) && DueWithin(cfg, t, boundUs) && BeforeDue(RestartOnEvent, t, now)
    ensures EscalatedBy(cfg, t, now, boundUs)
  {
    WaitingStates(cfg, t.m);
  }

  lemma DueWithinNeeded(cfg: Config, t: Clocked, boundUs: int)
    requires Ticking(cfg) && Good(cfg, t.m)
    requires Waiting(t.m) ==> EscalatedBy(cfg, t, DueUs(RestartOnEvent, t).value, boundUs)
    ensures DueWithin(cfg, t, boundUs)
  {
    WaitingStates(cfg, t.m);
  }

  /// The event is received in a wait and counts no failure: it is absorbed, or it is the
  /// backoff timeout.
  predicate Uncounted(t: Clocked, input: Input<Env>) {
    Waiting(t.m) && Choose(t.m, input.event, input.data) in {None, Some(13), Some(14)}
  }

  /// An uncounted event in an open window leaves a wait that ends by `boundUs` after `Ripe`.
  predicate EarlyEnough(cfg: Config, t: Clocked, input: Input<Env>, boundUs: int) {
    Open(t) && Uncounted(t, input) ==>
      input.data.nowUs + ArmedUs(Tick(t, input).m) <= Ripe(cfg, t) + boundUs
  }

  lemma AbsorbedDue(cfg: Config, t: Clocked, input: Input<Env>, boundUs: int)
    requires Good(cfg, t.m) && !Rearms(t.m, input.event, input.data)
    ensures DueWithin(cfg, Tick(t, input), boundUs) <==> EarlyEnough(cfg, t, input, boundUs)
  {
    AbsorbedChangesNothing(cfg, t.m, input.event, input.data);
    RearmingRows(t.m, input.event, input.data);
    hide Advance, Choose, Rearms;
  }

  lemma ResumedDue(cfg: Config, t: Clocked, input: Input<Env>, boundUs: int)
    requires Ticking(cfg) && Good(cfg, t.m) && Choose(t.m, input.event, input.data) == Some(13)
    ensures DueWithin(cfg, Tick(t, input), boundUs) <==> EarlyEnough(cfg, t, input, boundUs)
  {
    var d := input.data;
    GoodStep(cfg, t.m, input.event, d);
    WaitingStates(cfg, t.m);
    WaitingStates(cfg, Tick(t, input).m);
    RearmingRows(t.m, input.event, d);
    StepTiming(cfg, t.m, input.event, d, 13);
    hide Advance, Choose, Rearms, Good;
  }

  /// Counted failures always leave a wait that ends in time.
  lemma CountedDue(cfg: Config, t: Clocked, input: Input<Env>, boundUs: int, k: nat)
    requires Ticking(cfg) && Good(cfg, t.m) && boundUs >= BoundUs(cfg)
    requires Choose(t.m, input.event, input.data) == Some(k) && k != 13 && k != 14
    ensures DueWithin(cfg, Tick(t, input), boundUs)
  {
    var d := input.data;
    GoodStep(cfg, t.m, input.event, d);
    WaitingStates(cfg, Tick(t, input).m);
    RearmingRows(t.m, input.event, d);
    StepTiming(cfg, t.m, input.event, d, k);
    hide Advance, Choose, Rearms, Good;
  }

  lemma TickDue(cfg: Config, t: Clocked, input: Input<Env>, boundUs: int)
    requires Ticking(cfg) && Good(cfg, t.m) && boundUs >= BoundUs(cfg)
    ensures DueWithin(cfg, Tick(t, input), boundUs) <==> EarlyEnough(cfg, t, input, boundUs)
  {
    RearmingRows(t.m, input.event, input.data);
    var k := Choose(t.m, input.event, input.data);
    hide Tick, Choose, Rearms, Good, DueWithin;
    if k == None || k == Some(14) {
      AbsorbedDue(cfg, t, input, boundUs);
    } else if k == Some(13) {
      ResumedDue(cfg, t, input, boundUs);
    } else {
      CountedDue(cfg, t, input, boundUs, k.value);
    }
  }

  ghost predicate AllDueWithin(cfg: Config, r: Trace, boundUs: int) {
    forall k :: 0 <= k <= |r.inputs| ==> DueWithin(cfg, After(cfg, r, k), boundUs)
  }

  lemma MeetsIffDue(cfg: Config, r: Trace, boundUs: int)
    requires Ticking(cfg) && BootState(r.boot)
    ensures MeetsDeadline(RestartOnEvent, cfg, r, boundUs) <==> AllDueWithin(cfg, r, boundUs)
  {
    if MeetsDeadline(RestartOnEvent, cfg, r, boundUs) {
      forall k | 0 <= k <= |r.inputs| ensures DueWithin(cfg, After(cfg, r, k), boundUs) {
        AfterIsWalk(cfg, r, k);
        var t := After(cfg, r, k);
        if Waiting(t.m) {
          assert BeforeDue(RestartOnEvent, After(cfg, r, k), DueUs(RestartOnEvent, t).value);
        }
        DueWithinNeeded(cfg, t, boundUs);
      }
    }
    if AllDueWithin(cfg, r, boundUs) {
      forall k, now | 0 <= k <= |r.inputs| && BeforeDue(RestartOnEvent, After(cfg, r, k), now)
        ensures EscalatedBy(cfg, After(cfg, r, k), now, boundUs)
      {
        AfterIsWalk(cfg, r, k);
        DueWithinSuffices(cfg, After(cfg, r, k), boundUs, now);
      }
    }
  }

  ghost predicate AllEarlyEnough(cfg: Config, r: Trace, boundUs: int) {
    forall i :: 0 <= i < |r.inputs| ==> EarlyEnough(cfg, After(cfg, r, i), r.inputs[i], boundUs)
  }

  lemma DueAfter(cfg: Config, r: Trace, boundUs: int, i: nat)
    requires Ticking(cfg) && BootState(r.boot) && boundUs >= BoundUs(cfg) && i < |r.inputs|
    ensures DueWithin(cfg, After(cfg, r, 0), boundUs)
    ensures DueWithin(cfg, After(cfg, r, i + 1), boundUs) <==> EarlyEnough(cfg, After(cfg, r, i), r.inputs[i], boundUs)
  {
    AfterIsWalk(cfg, r, i);
    TickDue(cfg, After(cfg, r, i), r.inputs[i], boundUs);
  }

  /// A run of the device's loop meets a deadline, the original one or any later, exactly when
  /// each absorbed event and each backoff timeout in an open window comes early enough for the
  /// wait it leaves to end by then.  No other event can break the deadline.
  lemma RestartDeadlineIff(cfg: Config, r: Trace, boundUs: int)
    requires Ticking(cfg) && BootState(r.boot) && boundUs >= BoundUs(cfg)
    ensures MeetsDeadline(RestartOnEvent, cfg, r, boundUs) <==> AllEarlyEnough(cfg, r, boundUs)
  {
    MeetsIffDue(cfg, r, boundUs);
    if AllDueWithin(cfg, r, boundUs) {
      forall i | 0 <= i < |r.inputs| ensures EarlyEnough(cfg, After(cfg, r, i), r.inputs[i], boundUs) {
        DueAfter(cfg, r, boundUs, i);
        assert DueWithin(cfg, After(cfg, r, i + 1), boundUs);
      }
    }
    if AllEarlyEnough(cfg, r, boundUs) {
      forall k | 0 <= k <= |r.inputs| ensures DueWithin(cfg, After(cfg, r, k), boundUs) {
        if k > 0 {
          DueAfter(cfg, r, boundUs, k - 1);
        }
      }
    }
  }

  // ------------------------------------------------------------------------
  // Exactly which families of runs have a deadline
  // ------------------------------------------------------------------------

  lemma OverdueShowsLag(cfg: Config, t: Clocked, boundUs: nat)
    requires Ticking(cfg) && Good(cfg, t.m) && Ordered(t)
    requires Waiting(t.m) ==> EscalatedBy(cfg, t, DueUs(RestartOnEvent, t).value, boundUs)
    ensures LagWithin(RestartOnEvent, t, cfg.windowUs + boundUs, cfg.windowUs + boundUs)
  {
    WaitingStates(cfg, t.m);
  }

  lemma DeadlineBoundsLags(cfg: Config, r: Trace, boundUs: nat)
    requires Ticking(cfg) && Legal(RestartOnEvent, cfg, r) && MeetsDeadline(RestartOnEvent, cfg, r, boundUs)
    ensures LagsWithin(RestartOnEvent, cfg, r, cfg.windowUs + boundUs, cfg.windowUs + boundUs)
  {
    forall k | 0 <= k <= |r.inputs|
      ensures LagWithin(RestartOnEvent, After(cfg, r, k), cfg.windowUs + boundUs, cfg.windowUs + boundUs)
    {
      var t := After(cfg, r, k);
      AfterIsWalk(cfg, r, k);
      RunsAreOrdered(RestartOnEvent, cfg, r, k);
      if Waiting(t.m) {
        assert BeforeDue(RestartOnEvent, After(cfg, r, k), DueUs(RestartOnEvent, t).value);
      }
      OverdueShowsLag(cfg, t, boundUs);
    }
  }

  ghost predicate AllMeetDeadline(cfg: Config, runs: iset<Trace>, boundUs: nat) {
    forall r :: r in runs ==> MeetsDeadline(RestartOnEvent, cfg, r, boundUs)
  }

  ghost predicate AllLagsWithin(cfg: Config, runs: iset<Trace>, lagUs: nat) {
    forall r :: r in runs ==> LagsWithin(RestartOnEvent, cfg, r, lagUs, lagUs)
  }

  /// A family of runs of the device's loop has a common deadline exactly when there is a bound
  /// on how long after an arming, within an open window, the wait still absorbs events.
  lemma CommonDeadlineIff(cfg: Config, runs: iset<Trace>)
    requires Ticking(cfg) && forall r :: r in runs ==> Legal(RestartOnEvent, cfg, r)
    ensures (exists boundUs: nat :: AllMeetDeadline(cfg, runs, boundUs)) <==> (exists lagUs: nat :: AllLagsWithin(cfg, runs, lagUs))
  {
    if boundUs: nat :| AllMeetDeadline(cfg, runs, boundUs) {
      forall r | r in runs ensures LagsWithin(RestartOnEvent, cfg, r, cfg.windowUs + boundUs, cfg.windowUs + boundUs) {
        DeadlineBoundsLags(cfg, r, boundUs);
      }
      assert AllLagsWithin(cfg, runs, cfg.windowUs + boundUs);
    }
    if lagUs: nat :| AllLagsWithin(cfg, runs, lagUs) {
      forall r | r in runs ensures MeetsDeadline(RestartOnEvent, cfg, r, BoundUs(cfg) + lagUs + lagUs) {
        DeadlineWithLags(RestartOnEvent, cfg, r, lagUs, lagUs);
      }
      assert AllMeetDeadline(cfg, runs, BoundUs(cfg) + lagUs + lagUs);
    }
  }

  // ------------------------------------------------------------------------
  // Disconnects that hold the backoff
  // ------------------------------------------------------------------------

  /// An instant at or just after the start of the run, other than 0.
  function Opening(startUs: int): int {
    if startUs == 0 then 1 else startUs
  }

  function PauseUs(cfg: Config): int { 1000 * cfg.genericPauseMs }

  /// The fast limit's worth of disconnects and one more at the opening instant, the later ones
  /// `gapUs` apart.
  function LossAt(cfg: Config, startUs: int, gapUs: int, i: nat): int {
    Opening(startUs) + if i <= cfg.genericFastLimit then 0 else (i - cfg.genericFastLimit) * gapUs
  }

  function Loss(cfg: Config, startUs: int, gapUs: int, i: nat): Input<Env> {
    Input(EV_STA_DISCONNECTED, Env(Unknown, LossAt(cfg, startUs, gapUs, i), true))
  }

  function Losses(cfg: Config, startUs: int, gapUs: int, n: nat): Trace {
    Trace(WR_CONNECTING, startUs, seq(n, i requires i >= 0 => Loss(cfg, startUs, gapUs, i)))
  }

  /// After `k` disconnects: still connecting on the fast retries, then backing off.
  ghost predicate AfterLosses(cfg: Config, startUs: int, gapUs: int, k: nat, t: Clocked) {
    var s, p := Opening(startUs), t.m.ctx.policy;
    && Stands(t.m) && t.m.ctx.cfg == cfg && t.deniedUs == startUs
    && p.firstFailUs == (if k == 0 then 0 else s)
    && (k == 0 ==> t.nowUs == startUs)
    && (k > 0 ==> t.nowUs == LossAt(cfg, startUs, gapUs, k - 1) && t.armedUs == s)
    && (k <= cfg.genericFastLimit ==> t.m.current == WR_CONNECTING && p.genericFails == k)
    && (k > cfg.genericFastLimit ==> t.m.current == WR_BACKOFF && t.m.ctx.pendingBackoffMs == cfg.genericPauseMs)
  }

  lemma EarlyLoss(cfg: Config, startUs: int, gapUs: int, k: nat, t: Clocked)
    requires Ticking(cfg) && k <= cfg.genericFastLimit && AfterLosses(cfg, startUs, gapUs, k, t)
    ensures var input := Loss(cfg, startUs, gapUs, k);
            InTime(RestartOnEvent, t, input) && AfterLosses(cfg, startUs, gapUs, k + 1, Tick(t, input))
  {
    var d := Loss(cfg, startUs, gapUs, k).data;
    RearmingRows(t.m, EV_STA_DISCONNECTED, d);
    assert Choose(t.m, EV_STA_DISCONNECTED, d) == Some(if k < cfg.genericFastLimit then 5 else 6);
  }

  lemma LateLoss(cfg: Config, startUs: int, gapUs: int, k: nat, t: Clocked)
    requires Ticking(cfg) && 0 <= gapUs <= PauseUs(cfg) && k > cfg.genericFastLimit
    requires AfterLosses(cfg, startUs, gapUs, k, t)
    ensures var input := Loss(cfg, startUs, gapUs, k);
            && InTime(RestartOnEvent, t, input) && AfterLosses(cfg, startUs, gapUs, k + 1, Tick(t, input))
            && !Rearms(t.m, input.event, input.data)
  {
    var d := Loss(cfg, startUs, gapUs, k).data;
    RearmingRows(t.m, EV_STA_DISCONNECTED, d);
    assert Choose(t.m, EV_STA_DISCONNECTED, d) == Some(14);
    assert t.m.ctx.calls + [] == t.m.ctx.calls;
    var j := k - 1 - cfg.genericFastLimit;
    assert (j + 1) * gapUs == j * gapUs + gapUs;
  }

  lemma LossesStep(cfg: Config, startUs: int, gapUs: int, n: nat, k: nat)
    requires k < n
    ensures var r, input := Losses(cfg, startUs, gapUs, n), Loss(cfg, startUs, gapUs, k);
            && r.inputs[k] == input
            && After(cfg, r, k + 1) == Tick(After(cfg, r, k), input)
            && AbsorbedSince(cfg, r, k + 1) ==
                 if Rearms(After(cfg, r, k).m, input.event, input.data) then 0 else 1 + AbsorbedSince(cfg, r, k)
  {}

  lemma NextLoss(cfg: Config, startUs: int, gapUs: int, k: nat, t: Clocked)
    requires Ticking(cfg) && 0 <= gapUs <= PauseUs(cfg) && AfterLosses(cfg, startUs, gapUs, k, t)
    ensures var input := Loss(cfg, startUs, gapUs, k);
            && InTime(RestartOnEvent, t, input) && AfterLosses(cfg, startUs, gapUs, k + 1, Tick(t, input))
            && (k > cfg.genericFastLimit ==> !Rearms(t.m, input.event, input.data))
  {
    if k <= cfg.genericFastLimit {
      EarlyLoss(cfg, startUs, gapUs, k, t);
    } else {
      LateLoss(cfg, startUs, gapUs, k, t);
    }
  }

  lemma BeforeLosses(cfg: Config, startUs: int, gapUs: int, n: nat)
    ensures AfterLosses(cfg, startUs, gapUs, 0, After(cfg, Losses(cfg, startUs, gapUs, n), 0))
  {}

  lemma {:induction false} LossesReach(cfg: Config, startUs: int, gapUs: int, n: nat, k: nat)
    requires Ticking(cfg) && 0 <= gapUs <= PauseUs(cfg) && k <= n
    ensures AfterLosses(cfg, startUs, gapUs, k, After(cfg, Losses(cfg, startUs, gapUs, n), k))
    ensures AbsorbedSince(cfg, Losses(cfg, startUs, gapUs, n), k) >= k - 1 - cfg.genericFastLimit
  {
    hide Tick, Rearms, AfterLosses, Loss;
    if k == 0 {
      BeforeLosses(cfg, startUs, gapUs, n);
    } else {
      LossesReach(cfg, startUs, gapUs, n, k - 1);
      LossesStep(cfg, startUs, gapUs, n, k - 1);
      NextLoss(cfg, startUs, gapUs, k - 1, After(cfg, Losses(cfg, startUs, gapUs, n), k - 1));
    }
  }

  lemma LossesAreLegal(cfg: Config, startUs: int, gapUs: int, n: nat)
    requires Ticking(cfg) && 0 <= gapUs <= PauseUs(cfg)
    ensures Legal(RestartOnEvent, cfg, Losses(cfg, startUs, gapUs, n))
  {
    var r := Losses(cfg, startUs, gapUs, n);
    forall k | 0 <= k < n ensures InTime(RestartOnEvent, After(cfg, r, k), r.inputs[k]) {
      LossesReach(cfg, startUs, gapUs, n, k);
      LossesStep(cfg, startUs, gapUs, n, k);
      NextLoss(cfg, startUs, gapUs, k, After(cfg, r, k));
    }
  }

  /// Still backing off more than `boundUs` after the window opened.
  predicate Overdue(cfg: Config, t: Clocked, boundUs: nat) {
    && t.m.current == WR_BACKOFF && Open(t)
    && t.nowUs > t.m.ctx.policy.firstFailUs + boundUs
    && !EscalatedBy(cfg, t, t.nowUs, boundUs)
  }

  lemma LossesOverdue(cfg: Config, startUs: int, more: nat, boundUs: nat, t: Clocked)
    requires Ticking(cfg) && more == cfg.windowUs + boundUs + 1
    requires AfterLosses(cfg, startUs, PauseUs(cfg), cfg.genericFastLimit + 1 + more, t)
    ensures Overdue(cfg, t, boundUs) && BeforeDue(RestartOnEvent, t, t.nowUs)
  {
    MulMonotone(more, more, 1, PauseUs(cfg));
    assert t.nowUs == Opening(startUs) + more * PauseUs(cfg);
  }

  /// A run from `startUs` of plain disconnects, reboots permitted throughout, that honours the
  /// restarted waits and misses the deadline.
  ghost predicate OverdueBackoff(cfg: Config, startUs: int, boundUs: nat, r: Trace) {
    && Legal(RestartOnEvent, cfg, r) && r.boot == WR_CONNECTING && r.startUs == startUs
    && (forall i :: 0 <= i < |r.inputs| ==> r.inputs[i].event == EV_STA_DISCONNECTED && r.inputs[i].data.reason == Unknown)
    && RebootsPermitted(r)
    && Overdue(cfg, End(cfg, r), boundUs)
    && !MeetsDeadline(RestartOnEvent, cfg, r, boundUs)
  }

  /// Under the device's loop there is no deadline at all, whatever the configuration: for every
  /// bound some run of plain disconnects is still backing off later than the bound.
  lemma RestartingTheWaitLosesTheDeadline(cfg: Config, startUs: int, boundUs: nat)
    requires Ticking(cfg)
    ensures exists r :: OverdueBackoff(cfg, startUs, boundUs, r)
  {
    hide Tick, Legal, AfterLosses, Overdue, MeetsDeadline, BeforeDue;
    var more := cfg.windowUs + boundUs + 1;
    var n := cfg.genericFastLimit + 1 + more;
    var r := Losses(cfg, startUs, PauseUs(cfg), n);
    LossesAreLegal(cfg, startUs, PauseUs(cfg), n);
    LossesReach(cfg, startUs, PauseUs(cfg), n, n);
    LossesOverdue(cfg, startUs, more, boundUs, After(cfg, r, n));
    OverdueMisses(cfg, r, boundUs);
    assert OverdueBackoff(cfg, startUs, boundUs, r);
  }

  lemma OverdueMisses(cfg: Config, r: Trace, boundUs: nat)
    requires Overdue(cfg, End(cfg, r), boundUs) && BeforeDue(RestartOnEvent, End(cfg, r), End(cfg, r).nowUs)
    ensures !MeetsDeadline(RestartOnEvent, cfg, r, boundUs)
  {
    assert BeforeDue(RestartOnEvent, After(cfg, r, |r.inputs|), End(cfg, r).nowUs);
  }

  lemma LossesAtOnceLag(cfg: Config, startUs: int, k: nat, t: Clocked)
    requires AfterLosses(cfg, startUs, 0, k, t)
    ensures LagWithin(RestartOnEvent, t, 0, 0)
  {}

  /// Counting absorbed events is not exact: however many arrive at the instant of the arming
  /// itself, the run meets the deadline of runs that absorb none.
  lemma AbsorbingAtOnceIsFree(cfg: Config, startUs: int, most: nat)
    requires Ticking(cfg)
    ensures var r := Losses(cfg, startUs, 0, cfg.genericFastLimit + 1 + most);
            && Legal(RestartOnEvent, cfg, r)
            && AbsorbedSince(cfg, r, |r.inputs|) >= most
            && MeetsDeadline(RestartOnEvent, cfg, r, BoundUs(cfg))
  {
    var n := cfg.genericFastLimit + 1 + most;
    var r := Losses(cfg, startUs, 0, n);
    LossesAreLegal(cfg, startUs, 0, n);
    LossesReach(cfg, startUs, 0, n, n);
    forall k | 0 <= k <= n ensures LagWithin(RestartOnEvent, After(cfg, r, k), 0, 0) {
      LossesReach(cfg, startUs, 0, n, k);
      LossesAtOnceLag(cfg, startUs, k, After(cfg, r, k));
    }
    DeadlineWithLags(RestartOnEvent, cfg, r, 0, 0);
  }
}
