/// When a call to bb_lifecycle produces an event: exactly when it changes what the caller
/// can see of the service.  Repeated calls are silent.
module LifecycleEvents {
  import opened Wrappers
  import opened InhibitWords
  import opened Lifecycle
  import opened LifecycleHistory
  import T = LifecycleThreads

  // --- one call ------------------------------------------------------------------------

  /// What every call answers.
  lemma CallStatus(cfg: Config, core: Core, call: Call)
    requires WellFormed(cfg, core)
    ensures var status := Do(cfg, core, call).status;
            match call
            case Register(name) =>
              var taken := Truncated(name, cfg.nameMax) in NamesOf(core.services);
              && (status == Conflict <==> taken)
              && (status == NoSpace <==> !taken && |core.services| == cfg.maxServices)
              && status != NotFound
            case Start(svc) => status == if SvcValid(core, svc) then Ok else NotFound
            case Stop(svc) => status == if SvcValid(core, svc) then Ok else NotFound
            case PauseClear(svc, _) => status == if SvcValid(core, svc) then Ok else NotFound
            case PauseAssert(svc, _) => status == NotFound <==> !SvcValid(core, svc)
            case Observe(_) => status == if |core.observers| < cfg.maxObservers then Ok else NoSpace
  {
    if call.PauseAssert? {
      AssertStatus(cfg, core, call.svc, call.reason);
    }
  }

  /// The handle of a successful registration names the new, stopped service.
  lemma HandleNamesService(cfg: Config, core: Core, name: string)
    requires WellFormed(cfg, core) && Do(cfg, core, Register(name)).status == Ok
    ensures var o := Do(cfg, core, Register(name));
            && o.handle < |o.core.services|
            && FirstIndex(NamesOf(o.core.services), Truncated(name, cfg.nameMax)) == Some(o.handle)
            && Effective(o.core.services[o.handle]) == STOPPED && o.core.services[o.handle].version == 0
            && o.core.services[..o.handle] == core.services
  {
    DoKeepsWellFormed(cfg, core, Register(name));
    var o := Do(cfg, core, Register(name));
    assert NamesOf(o.core.services)[o.handle] == Truncated(name, cfg.nameMax);
    IndexIsExact(NamesOf(o.core.services), o.handle);
  }

  /// The service's started flag or some reason's bit differs.
  ghost predicate Changed(before: Core, after: Core, svc: nat)
    requires svc < |before.services| && svc < |after.services|
  {
    || before.services[svc].started != after.services[svc].started
    || exists kept: string :: Moved(before, after, svc, kept)
  }

  ghost predicate Moved(before: Core, after: Core, svc: nat, kept: string) {
    Inhibited(before, svc, kept) != Inhibited(after, svc, kept)
  }

  predicate EventFor(cfg: Config, core: Core, call: Call, svc: nat) {
    var e := Do(cfg, core, call).event;
    e.Some? && e.value.svc == svc
  }

  lemma ServicesStay(cfg: Config, core: Core, call: Call)
    ensures |core.services| <= |Do(cfg, core, call).core.services|
  {}

  lemma AssertEventIff(cfg: Config, core: Core, svc: nat, reason: string)
    requires WellFormed(cfg, core) && svc < |core.services|
    ensures DoAssert(cfg, core, svc, reason).event.Some? <==>
              DoAssert(cfg, core, svc, reason).status == Ok && !Inhibited(core, svc, Truncated(reason, cfg.reasonMax))
  {
    var wanted := Truncated(reason, cfg.reasonMax);
    InternFacts(cfg, core, wanted);
    if wanted !in core.reasons {
      assert ServiceOk(cfg, |core.reasons|, core.services[svc]);
      assert !WordTest(core.services[svc].inhibits, |core.reasons|);
    }
  }

  lemma AssertChanges(cfg: Config, core: Core, svc: nat, reason: string)
    requires WellFormed(cfg, core) && svc < |core.services|
    ensures |DoAssert(cfg, core, svc, reason).core.services| == |core.services|
    ensures DoAssert(cfg, core, svc, reason).event.Some? <==> Changed(core, DoAssert(cfg, core, svc, reason).core, svc)
  {
    var call, wanted := PauseAssert(svc, reason), Truncated(reason, cfg.reasonMax);
    AssertEventIff(cfg, core, svc, reason);
    var after := DoAssert(cfg, core, svc, reason).core;
    forall kept: string
      ensures Inhibited(after, svc, kept) <==> InhibitedNext(cfg, core, call, svc, kept)
    {
      AssertEffect(cfg, core, svc, reason, svc, kept);
    }
    if DoAssert(cfg, core, svc, reason).event.Some? {
      assert Moved(core, after, svc, wanted);
    }
  }

  lemma ClearChanges(cfg: Config, core: Core, svc: nat, reason: string)
    requires WellFormed(cfg, core) && svc < |core.services|
    ensures |DoClear(cfg, core, svc, reason).core.services| == |core.services|
    ensures DoClear(cfg, core, svc, reason).event.Some? <==> Changed(core, DoClear(cfg, core, svc, reason).core, svc)
  {
    var call, wanted := PauseClear(svc, reason), Truncated(reason, cfg.reasonMax);
    var after := DoClear(cfg, core, svc, reason).core;
    assert DoClear(cfg, core, svc, reason).event.Some? <==> Inhibited(core, svc, wanted);
    forall kept: string
      ensures Inhibited(after, svc, kept) <==> InhibitedNext(cfg, core, call, svc, kept)
    {
      ClearEffect(cfg, core, svc, reason, svc, kept);
    }
    if DoClear(cfg, core, svc, reason).event.Some? {
      assert Moved(core, after, svc, wanted);
    }
  }

  /// A call that is not about this service's flag or reasons leaves both alone.
  lemma OthersStay(cfg: Config, core: Core, call: Call, svc: nat)
    requires WellFormed(cfg, core) && svc < |core.services|
    requires match call
             case Start(s) => s != svc || core.services[svc].started
             case Stop(s) => s != svc || !core.services[svc].started
             case PauseAssert(s, _) => s != svc
             case PauseClear(s, _) => s != svc
             case _ => true
    ensures svc < |Do(cfg, core, call).core.services|
    ensures !Changed(core, Do(cfg, core, call).core, svc) && !EventFor(cfg, core, call, svc)
  {
    ServicesStay(cfg, core, call);
    forall kept: string
      ensures Inhibited(Do(cfg, core, call).core, svc, kept) <==> InhibitedNext(cfg, core, call, svc, kept)
    {
      CallEffect(cfg, core, call, svc, kept);
    }
  }

  /// A call produces an event for a service exactly when it changes the service's started flag
  /// or whether some reason inhibits it.
  lemma EventIffChanged(cfg: Config, core: Core, call: Call, svc: nat)
    requires WellFormed(cfg, core) && svc < |core.services|
    ensures svc < |Do(cfg, core, call).core.services|
    ensures EventFor(cfg, core, call, svc) <==> Changed(core, Do(cfg, core, call).core, svc)
  {
    ServicesStay(cfg, core, call);
    if call.PauseAssert? && call.svc == svc {
      AssertChanges(cfg, core, svc, call.reason);
    } else if call.PauseClear? && call.svc == svc {
      ClearChanges(cfg, core, svc, call.reason);
    } else if (call == Start(svc) && !core.services[svc].started) || (call == Stop(svc) && core.services[svc].started) {
    } else {
      OthersStay(cfg, core, call, svc);
    }
  }

  /// The first word carried by an event tells which of the first 32 reasons inhibit the service.
  lemma EventShowsReasons(cfg: Config, core: Core, call: Call, bit: nat)
    requires WellFormed(cfg, core) && Do(cfg, core, call).event.Some?
    requires bit < 32 && bit < |Do(cfg, core, call).core.reasons|
    ensures var o := Do(cfg, core, call); var e := o.event.value;
            e.svc < |o.core.services| && (WordTest([e.inhibits], bit) <==> Inhibited(o.core, e.svc, o.core.reasons[bit]))
  {
    DoKeepsWellFormed(cfg, core, call);
    var o := Do(cfg, core, call);
    IndexIsExact(o.core.reasons, bit);
  }

  // --- histories -----------------------------------------------------------------------

  /// Call k has an effect on the service, by the ledger: it is started or stopped by it, or some
  /// reason becomes outstanding or ceases to be.
  ghost predicate HasEffect(cfg: Config, calls: seq<Call>, k: nat, svc: nat)
    requires k < |calls|
  {
    || StartedAt(cfg, calls, k, svc) != StartedAt(cfg, calls, k + 1, svc)
    || exists kept: string :: Outstanding(cfg, calls, k, svc, kept) != Outstanding(cfg, calls, k + 1, svc, kept)
  }

  predicate Emits(cfg: Config, calls: seq<Call>, k: nat, svc: nat)
    requires k < |calls|
  {
    EventFor(cfg, CoreAt(cfg, calls, k), calls[k], svc)
  }

  lemma ChangedIsEffect(cfg: Config, calls: seq<Call>, k: nat, svc: nat)
    requires k < |calls| && svc < |CoreAt(cfg, calls, k).services|
    ensures svc < |CoreAt(cfg, calls, k + 1).services|
    ensures Changed(CoreAt(cfg, calls, k), CoreAt(cfg, calls, k + 1), svc) <==> HasEffect(cfg, calls, k, svc)
  {
    hide Do, WellFormed, Inhibited, Outstanding, StartedAt;
    var before, after := CoreAt(cfg, calls, k), CoreAt(cfg, calls, k + 1);
    ServicesStay(cfg, before, calls[k]);
    TablesFollowHistory(cfg, calls, k);
    TablesFollowHistory(cfg, calls, k + 1);
    assert before.services[svc].started <==> StartedAt(cfg, calls, k, svc);
    assert after.services[svc].started <==> StartedAt(cfg, calls, k + 1, svc);
    forall kept: string
      ensures Moved(before, after, svc, kept) <==>
                Outstanding(cfg, calls, k, svc, kept) != Outstanding(cfg, calls, k + 1, svc, kept)
    {
      HistoryDecides(cfg, calls, k, svc, kept);
      HistoryDecides(cfg, calls, k + 1, svc, kept);
    }
  }

  lemma EventsAreForKnown(cfg: Config, core: Core, call: Call, svc: nat)
    requires |core.services| <= svc
    ensures !EventFor(cfg, core, call, svc)
  {}

  lemma UnknownIsNotStarted(cfg: Config, calls: seq<Call>, k: nat, svc: nat)
    requires k < |calls| && !Known(cfg, calls, k, svc)
    ensures !StartedAt(cfg, calls, k, svc) && !StartedAt(cfg, calls, k + 1, svc)
  {
    NeverStartedBeforeKnown(cfg, calls, k, svc);
  }

  lemma UnknownIsNotOutstanding(cfg: Config, calls: seq<Call>, k: nat, svc: nat, kept: string)
    requires k < |calls| && |CoreAt(cfg, calls, k).services| <= svc && !Known(cfg, calls, k, svc)
    ensures !Outstanding(cfg, calls, k, svc, kept) && !Outstanding(cfg, calls, k + 1, svc, kept)
  {
    hide Do, CoreAt, Touches, Known;
    HistoryDecides(cfg, calls, k, svc, kept);
    UnknownIsUntouched(cfg, calls, k, svc, kept);
  }

  lemma UnknownHasNoEffect(cfg: Config, calls: seq<Call>, k: nat, svc: nat)
    requires k < |calls| && |CoreAt(cfg, calls, k).services| <= svc
    ensures !HasEffect(cfg, calls, k, svc) && !Emits(cfg, calls, k, svc)
  {
    hide Do, CoreAt, Outstanding, StartedAt, EventFor, WellFormed, Known;
    TablesFollowHistory(cfg, calls, k);
    KnownIsStored(cfg, calls, k, svc);
    UnknownIsNotStarted(cfg, calls, k, svc);
    EventsAreForKnown(cfg, CoreAt(cfg, calls, k), calls[k], svc);
    forall kept: string
      ensures !Outstanding(cfg, calls, k, svc, kept) && !Outstanding(cfg, calls, k + 1, svc, kept)
    {
      UnknownIsNotOutstanding(cfg, calls, k, svc, kept);
    }
  }

  /// A call of a history produces an event for a service exactly when it has an effect on it.
  lemma EmitsIffEffect(cfg: Config, calls: seq<Call>, k: nat, svc: nat)
    requires k < |calls|
    ensures Emits(cfg, calls, k, svc) <==> HasEffect(cfg, calls, k, svc)
  {
    TablesFollowHistory(cfg, calls, k);
    if svc < |CoreAt(cfg, calls, k).services| {
      EventIffChanged(cfg, CoreAt(cfg, calls, k), calls[k], svc);
      ChangedIsEffect(cfg, calls, k, svc);
    } else {
      UnknownHasNoEffect(cfg, calls, k, svc);
    }
  }

  ghost function EffectsOn(cfg: Config, calls: seq<Call>, n: nat, svc: nat): nat
    requires n <= |calls|
  {
    if n == 0 then 0 else EffectsOn(cfg, calls, n - 1, svc) + if HasEffect(cfg, calls, n - 1, svc) then 1 else 0
  }

  /// Repeating a call at once produces no second event, for any service.
  lemma RepeatIsSilent(cfg: Config, calls: seq<Call>, k: nat)
    requires k + 1 < |calls| && calls[k + 1] == calls[k]
    ensures Do(cfg, CoreAt(cfg, calls, k + 1), calls[k + 1]).event.None?
  {
    TablesFollowHistory(cfg, calls, k);
    RepeatedCall(cfg, CoreAt(cfg, calls, k), calls[k]);
  }

  lemma RepeatedCall(cfg: Config, core: Core, call: Call)
    requires WellFormed(cfg, core)
    ensures Do(cfg, Do(cfg, core, call).core, call).event.None?
  {
    var after := Do(cfg, core, call).core;
    DoKeepsWellFormed(cfg, core, call);
    ServicesStay(cfg, core, call);
    if call.PauseAssert? && SvcValid(after, call.svc) {
      AssertStatus(cfg, core, call.svc, call.reason);
      AssertEffect(cfg, core, call.svc, call.reason, call.svc, Truncated(call.reason, cfg.reasonMax));
      AssertEventIff(cfg, after, call.svc, call.reason);
      AssertStatus(cfg, after, call.svc, call.reason);
    } else if call.PauseClear? && SvcValid(after, call.svc) {
      ClearEffect(cfg, core, call.svc, call.reason, call.svc, Truncated(call.reason, cfg.reasonMax));
    }
  }

  // --- observers -------------------------------------------------------------------------

  /// The observers registered so far, in order, room permitting.
  function ObservedAt(cfg: Config, calls: seq<Call>, n: nat): seq<Observer>
    requires n <= |calls|
  {
    if n == 0 then []
    else
      var before := ObservedAt(cfg, calls, n - 1);
      match calls[n - 1]
      case Observe(observer) => if |before| < cfg.maxObservers then before + [observer] else before
      case _ => before
  }

  lemma {:induction false} ObserversFollowHistory(cfg: Config, calls: seq<Call>, n: nat)
    requires n <= |calls|
    ensures CoreAt(cfg, calls, n).observers == ObservedAt(cfg, calls, n)
  {
    if n > 0 {
      ObserversFollowHistory(cfg, calls, n - 1);
      KeepsObservers(cfg, CoreAt(cfg, calls, n - 1), calls[n - 1]);
    }
  }

  lemma KeepsObservers(cfg: Config, core: Core, call: Call)
    ensures Do(cfg, core, call).core.observers ==
            if call.Observe? && |core.observers| < cfg.maxObservers then core.observers + [call.observer] else core.observers
  {}

  // --- interleavings ----------------------------------------------------------------------

  /// The calls made so far, in commit order.
  function CallsOf(moves: seq<T.Move>): seq<Call> {
    if moves == [] then []
    else
      var last := moves[|moves| - 1];
      CallsOf(moves[..|moves| - 1]) + if last.Invoke? then [last.call] else []
  }

  lemma {:induction false} CoreOfLonger(cfg: Config, calls: seq<Call>, more: Call, n: nat)
    requires n <= |calls|
    ensures CoreAt(cfg, calls + [more], n) == CoreAt(cfg, calls, n)
  {
    hide Do, Init;
    if n > 0 {
      CoreOfLonger(cfg, calls, more, n - 1);
      assert (calls + [more])[n - 1] == calls[n - 1];
    }
  }

  lemma NextCore(cfg: Config, w: T.World, m: T.Move)
    requires T.Enabled(w, m)
    ensures T.Next(cfg, w, m).core == if m.Invoke? then Do(cfg, w.core, m.call).core else w.core
  {}

  /// Over every interleaving the tables are those of the calls in commit order.
  lemma {:induction false} CoreIsHistory(cfg: Config, moves: seq<T.Move>)
    requires T.Possible(cfg, moves)
    ensures T.After(cfg, moves).core == CoreAt(cfg, CallsOf(moves), |CallsOf(moves)|)
  {
    hide Do, T.Next, T.Enabled;
    if moves != [] {
      var before, m := moves[..|moves| - 1], moves[|moves| - 1];
      CoreIsHistory(cfg, before);
      NextCore(cfg, T.After(cfg, before), m);
      if m.Invoke? {
        CoreOfLonger(cfg, CallsOf(before), m.call, |CallsOf(before)|);
      } else {
        assert CallsOf(before) + [] == CallsOf(before);
      }
    }
  }

  lemma {:induction false} EffectsOfLonger(cfg: Config, calls: seq<Call>, more: Call, n: nat, svc: nat)
    requires n <= |calls|
    ensures EffectsOn(cfg, calls + [more], n, svc) == EffectsOn(cfg, calls, n, svc)
  {
    hide Do, CoreAt, HasEffect;
    if n > 0 {
      EffectsOfLonger(cfg, calls, more, n - 1, svc);
      CoreOfLonger(cfg, calls, more, n - 1);
      assert (calls + [more])[n - 1] == calls[n - 1];
      EmitsIffEffect(cfg, calls, n - 1, svc);
      EmitsIffEffect(cfg, calls + [more], n - 1, svc);
    }
  }

  lemma LogAfter(cfg: Config, w: T.World, m: T.Move, svc: nat)
    requires T.Enabled(w, m)
    ensures |T.EventsOf(T.Next(cfg, w, m).log, svc)| ==
            |T.EventsOf(w.log, svc)| + if m.Invoke? && EventFor(cfg, w.core, m.call, svc) then 1 else 0
  {
    if m.Invoke? {
      var e := Do(cfg, w.core, m.call).event;
      if e.Some? {
        T.EventsOfLonger(w.log, T.Record(e.value, |w.core.observers|), svc);
      }
    }
  }

  /// Over every interleaving a service has as many events as calls had an effect on it.
  lemma {:induction false} EventsCountEffects(cfg: Config, moves: seq<T.Move>, svc: nat)
    requires T.Possible(cfg, moves)
    ensures |T.EventsOf(T.After(cfg, moves).log, svc)| == EffectsOn(cfg, CallsOf(moves), |CallsOf(moves)|, svc)
  {
    hide Do, CoreAt, HasEffect, T.Next, T.Enabled;
    if moves != [] {
      var before, m := moves[..|moves| - 1], moves[|moves| - 1];
      EventsCountEffects(cfg, before, svc);
      var w, calls := T.After(cfg, before), CallsOf(before);
      LogAfter(cfg, w, m, svc);
      if m.Invoke? {
        CoreIsHistory(cfg, before);
        CoreOfLonger(cfg, calls, m.call, |calls|);
        EffectsOfLonger(cfg, calls, m.call, |calls|, svc);
        EmitsIffEffect(cfg, calls + [m.call], |calls|, svc);
      } else {
        assert calls + [] == calls;
      }
    }
  }
}
