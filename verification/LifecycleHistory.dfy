/// What the lifecycle tables hold, read off the history of calls alone.
///
/// The ledger functions below (RegisteredAt, InternedAt, StartedAt, LastTouch)
/// look only at the calls; HistoryDecides proves the words, bits and tables that
/// Do maintains agree with them after every call.
module LifecycleHistory {
  import opened Wrappers
  import opened InhibitWords
  import opened Lifecycle

  // --- the invariant of the tables ------------------------------------------------

  ghost predicate ServiceOk(cfg: Config, reasonCount: nat, s: Service) {
    && |s.inhibits| == cfg.WordCount()
    && Sized(s.inhibits)
    && s.version < VERSION_MODULUS
    && BitsBelow(s.inhibits, reasonCount)
  }

  ghost predicate BitsBelow(words: Words, reasonCount: nat) {
    forall bit: nat :: WordTest(words, bit) ==> bit < reasonCount
  }

  predicate Distinct(names: seq<string>) {
    forall i, j :: 0 <= i < j < |names| ==> names[i] != names[j]
  }

  ghost predicate WellFormed(cfg: Config, core: Core) {
    && |core.services| <= cfg.maxServices
    && |core.reasons| <= cfg.maxReasons
    && |core.observers| <= cfg.maxObservers
    && Distinct(NamesOf(core.services))
    && Distinct(core.reasons)
    && (forall i :: 0 <= i < |core.services| ==> ServiceOk(cfg, |core.reasons|, core.services[i]))
  }

  /// The reason's bit is set for the service.
  predicate Inhibited(core: Core, svc: nat, kept: string) {
    && svc < |core.services|
    && FirstIndex(core.reasons, kept).Some?
    && WordTest(core.services[svc].inhibits, FirstIndex(core.reasons, kept).value)
  }

  ghost predicate SomeInhibited(core: Core, svc: nat) {
    exists kept: string :: Inhibited(core, svc, kept)
  }

  lemma IndexIsExact(names: seq<string>, i: nat)
    requires Distinct(names) && i < |names|
    ensures FirstIndex(names, names[i]) == Some(i)
  {
  }

  /// Interning a new name moves no earlier one.
  lemma InternKeepsIndices(names: seq<string>, added: string, kept: string)
    requires Distinct(names) && added !in names
    ensures Distinct(names + [added])
    ensures FirstIndex(names + [added], kept) ==
            if kept == added then Some(|names|) else FirstIndex(names, kept)
  {
    var longer := names + [added];
    assert longer[|names|] == added;
    match FirstIndex(names, kept) {
      case Some(i) => assert longer[i] == kept; IndexIsExact(longer, i);
      case None => if kept == added { IndexIsExact(longer, |names|); }
    }
  }

  /// A service is PAUSED exactly when it is started and some reason is outstanding.
  lemma PausedIffInhibited(cfg: Config, core: Core, svc: nat)
    requires WellFormed(cfg, core) && svc < |core.services|
    ensures Effective(core.services[svc]) == PAUSED <==>
              core.services[svc].started && SomeInhibited(core, svc)
  {
    var s := core.services[svc];
    AnySetIffSomeBit(s.inhibits);
    if AnySet(s.inhibits) {
      var bit: nat :| WordTest(s.inhibits, bit);
      IndexIsExact(core.reasons, bit);
      assert Inhibited(core, svc, core.reasons[bit]);
    }
  }

  // --- one call ----------------------------------------------------------------------

  lemma InternFacts(cfg: Config, core: Core, kept: string)
    requires WellFormed(cfg, core)
    ensures Intern(cfg, core.reasons, kept).None? <==> kept !in core.reasons && |core.reasons| == cfg.maxReasons
    ensures Intern(cfg, core.reasons, kept).Some? ==>
              var (reasons, bit) := Intern(cfg, core.reasons, kept).value;
              && reasons == (if kept in core.reasons then core.reasons else core.reasons + [kept])
              && Distinct(reasons) && bit < |reasons| <= cfg.maxReasons && reasons[bit] == kept
              && FirstIndex(reasons, kept) == Some(bit)
              && bit / 32 < cfg.WordCount()
  {
    if kept !in core.reasons {
      InternKeepsIndices(core.reasons, kept, kept);
    }
  }

  /// After interning, the same reasons are outstanding as before.
  lemma InternChangesNoService(cfg: Config, core: Core, added: string, svc: nat, kept: string)
    requires WellFormed(cfg, core) && added !in core.reasons
    ensures Inhibited(core.(reasons := core.reasons + [added]), svc, kept) <==> Inhibited(core, svc, kept)
  {
    InternKeepsIndices(core.reasons, added, kept);
  }

  /// Rewriting one service's words, name kept, keeps the tables well formed.
  lemma CommitKeepsWellFormed(cfg: Config, core: Core, svc: nat, changed: Service, reason: nat)
    requires WellFormed(cfg, core) && svc < |core.services|
    requires ServiceOk(cfg, |core.reasons|, changed) && changed.name == core.services[svc].name
    ensures WellFormed(cfg, Commit(core, svc, changed, reason).core)
  {
    var after := Commit(core, svc, changed, reason).core;
    assert NamesOf(after.services) == NamesOf(core.services);
  }

  lemma InternKeepsWellFormed(cfg: Config, core: Core, kept: string)
    requires WellFormed(cfg, core) && Intern(cfg, core.reasons, kept).Some?
    ensures WellFormed(cfg, core.(reasons := Intern(cfg, core.reasons, kept).value.0))
  {
    InternFacts(cfg, core, kept);
  }

  lemma SetKeepsServiceOk(cfg: Config, reasonCount: nat, s: Service, bit: nat)
    requires ServiceOk(cfg, reasonCount, s) && bit < reasonCount
    ensures ServiceOk(cfg, reasonCount, s.(inhibits := WordSet(s.inhibits, bit)))
  {
    forall other: nat | WordTest(WordSet(s.inhibits, bit), other)
      ensures other < reasonCount
    {
      SetExact(s.inhibits, bit, other);
    }
  }

  lemma ClearKeepsServiceOk(cfg: Config, reasonCount: nat, s: Service, bit: nat)
    requires ServiceOk(cfg, reasonCount, s)
    ensures ServiceOk(cfg, reasonCount, s.(inhibits := WordClear(s.inhibits, bit)))
  {
    forall other: nat | WordTest(WordClear(s.inhibits, bit), other)
      ensures other < reasonCount
    {
      ClearExact(s.inhibits, bit, other);
    }
  }

  lemma ZerosAreOk(cfg: Config, reasonCount: nat, s: Service)
    requires |s.inhibits| == cfg.WordCount() && s.version < VERSION_MODULUS
    ensures ServiceOk(cfg, reasonCount, s.(inhibits := Zeros(|s.inhibits|)))
  {
    forall bit: nat
      ensures !WordTest(Zeros(|s.inhibits|), bit)
    {
      ZerosTestFalse(|s.inhibits|, bit);
    }
  }

  /// Every call keeps the tables well formed.
  lemma DoKeepsWellFormed(cfg: Config, core: Core, call: Call)
    requires WellFormed(cfg, core)
    ensures WellFormed(cfg, Do(cfg, core, call).core)
  {
    match call
    case Register(name) =>
      RegisterKeepsWellFormed(cfg, core, name);
    case Start(svc) =>
      if SvcValid(core, svc) && !core.services[svc].started {
        CommitKeepsWellFormed(cfg, core, svc, core.services[svc].(started := true), REASON_NONE);
      }
    case Stop(svc) =>
      if SvcValid(core, svc) && core.services[svc].started {
        var s := core.services[svc].(started := false);
        ZerosAreOk(cfg, |core.reasons|, s);
        CommitKeepsWellFormed(cfg, core, svc, s.(inhibits := Zeros(|s.inhibits|)), REASON_NONE);
      }
    case PauseAssert(svc, reason) => AssertKeepsWellFormed(cfg, core, svc, reason);
    case PauseClear(svc, reason) => ClearKeepsWellFormed(cfg, core, svc, reason);
    case Observe(_) =>
  }

  lemma AssertKeepsWellFormed(cfg: Config, core: Core, svc: int, reason: string)
    requires WellFormed(cfg, core)
    ensures WellFormed(cfg, DoAssert(cfg, core, svc, reason).core)
  {
    var kept := Truncated(reason, cfg.reasonMax);
    if SvcValid(core, svc) && Intern(cfg, core.reasons, kept).Some? {
      InternFacts(cfg, core, kept);
      InternKeepsWellFormed(cfg, core, kept);
      var (reasons, bit) := Intern(cfg, core.reasons, kept).value;
      var interned := core.(reasons := reasons);
      if !WordTest(core.services[svc].inhibits, bit) {
        var s := core.services[svc];
        SetKeepsServiceOk(cfg, |reasons|, s, bit);
        CommitKeepsWellFormed(cfg, interned, svc, s.(inhibits := WordSet(s.inhibits, bit)), bit);
      }
    }
  }

  lemma ClearKeepsWellFormed(cfg: Config, core: Core, svc: int, reason: string)
    requires WellFormed(cfg, core)
    ensures WellFormed(cfg, DoClear(cfg, core, svc, reason).core)
  {
    var found := FirstIndex(core.reasons, Truncated(reason, cfg.reasonMax));
    if SvcValid(core, svc) && found.Some? {
      var s := core.services[svc];
      ClearKeepsServiceOk(cfg, |core.reasons|, s, found.value);
      CommitKeepsWellFormed(cfg, core, svc, s.(inhibits := WordClear(s.inhibits, found.value)), found.value);
    }
  }

  lemma RegisterKeepsWellFormed(cfg: Config, core: Core, name: string)
    requires WellFormed(cfg, core)
    ensures WellFormed(cfg, DoRegister(cfg, core, name).core)
  {
    var kept := Truncated(name, cfg.nameMax);
    if kept !in NamesOf(core.services) && |core.services| < cfg.maxServices {
      var s := Service(kept, false, Zeros(cfg.WordCount()), 0);
      ZerosAreOk(cfg, |core.reasons|, s);
      assert NamesOf(core.services + [s]) == NamesOf(core.services) + [kept];
    }
  }

  /// What one call does to one reason of one service, and to nothing else: an
  /// accepted assert of that reason raises its bit, a clear of it or a stop of the
  /// started service lowers it, and every other call leaves it alone.
  ghost predicate InhibitedNext(cfg: Config, core: Core, call: Call, svc: nat, kept: string)
    requires svc < |core.services|
  {
    match call
    case PauseAssert(s, r) =>
      (s == svc && Truncated(r, cfg.reasonMax) == kept && Do(cfg, core, call).status == Ok) || Inhibited(core, svc, kept)
    case PauseClear(s, r) =>
      Inhibited(core, svc, kept) && !(s == svc && Truncated(r, cfg.reasonMax) == kept)
    case Stop(s) =>
      Inhibited(core, svc, kept) && !(s == svc && core.services[svc].started)
    case _ => Inhibited(core, svc, kept)
  }

  /// An assert on another service leaves this one's reasons alone.
  lemma AssertElsewhere(cfg: Config, core: Core, s: int, reason: string, svc: nat, kept: string)
    requires WellFormed(cfg, core) && svc < |core.services| && s != svc
    ensures Inhibited(DoAssert(cfg, core, s, reason).core, svc, kept) <==> Inhibited(core, svc, kept)
  {
    var wanted := Truncated(reason, cfg.reasonMax);
    InternFacts(cfg, core, wanted);
    if wanted !in core.reasons {
      InternChangesNoService(cfg, core, wanted, svc, kept);
    }
  }

  /// An accepted assert raises its own reason's bit and no other.
  lemma AssertHere(cfg: Config, core: Core, reason: string, svc: nat, kept: string)
    requires WellFormed(cfg, core) && svc < |core.services|
    requires Intern(cfg, core.reasons, Truncated(reason, cfg.reasonMax)).Some?
    ensures Inhibited(DoAssert(cfg, core, svc, reason).core, svc, kept) <==>
              Truncated(reason, cfg.reasonMax) == kept || Inhibited(core, svc, kept)
  {
    var wanted := Truncated(reason, cfg.reasonMax);
    InternFacts(cfg, core, wanted);
    var (reasons, bit) := Intern(cfg, core.reasons, wanted).value;
    if wanted !in core.reasons {
      InternChangesNoService(cfg, core, wanted, svc, kept);
    }
    assert Inhibited(core.(reasons := reasons), svc, kept) <==> Inhibited(core, svc, kept);
    if FirstIndex(reasons, kept).Some? {
      SetExact(core.services[svc].inhibits, bit, FirstIndex(reasons, kept).value);
    }
  }

  lemma AssertEffect(cfg: Config, core: Core, s: int, reason: string, svc: nat, kept: string)
    requires WellFormed(cfg, core) && svc < |core.services|
    ensures Inhibited(DoAssert(cfg, core, s, reason).core, svc, kept) <==>
              InhibitedNext(cfg, core, PauseAssert(s, reason), svc, kept)
  {
    hide Inhibited, Truncated, WordSet, WordTest;
    if s != svc {
      AssertElsewhere(cfg, core, s, reason, svc, kept);
    } else if Intern(cfg, core.reasons, Truncated(reason, cfg.reasonMax)).Some? {
      AssertHere(cfg, core, reason, svc, kept);
    }
  }

  lemma ClearEffect(cfg: Config, core: Core, s: int, reason: string, svc: nat, kept: string)
    requires WellFormed(cfg, core) && svc < |core.services|
    ensures Inhibited(DoClear(cfg, core, s, reason).core, svc, kept) <==>
              InhibitedNext(cfg, core, PauseClear(s, reason), svc, kept)
  {
    var wanted := Truncated(reason, cfg.reasonMax);
    var found := FirstIndex(core.reasons, wanted);
    assert DoClear(cfg, core, s, reason).core.reasons == core.reasons;
    if s == svc && found.Some? {
      SameBitSameName(core.reasons, wanted, kept);
      if FirstIndex(core.reasons, kept).Some? {
        ClearExact(core.services[svc].inhibits, found.value, FirstIndex(core.reasons, kept).value);
      }
    }
  }

  lemma SameBitSameName(names: seq<string>, a: string, b: string)
    requires FirstIndex(names, a).Some?
    ensures FirstIndex(names, a) == FirstIndex(names, b) <==> a == b
  {
  }

  lemma StopEffect(cfg: Config, core: Core, s: int, svc: nat, kept: string)
    requires WellFormed(cfg, core) && svc < |core.services|
    ensures Inhibited(DoStop(core, s).core, svc, kept) <==> InhibitedNext(cfg, core, Stop(s), svc, kept)
  {
    if s == svc && FirstIndex(core.reasons, kept).Some? {
      ZerosTestFalse(|core.services[svc].inhibits|, FirstIndex(core.reasons, kept).value);
    }
  }

  lemma CallEffect(cfg: Config, core: Core, call: Call, svc: nat, kept: string)
    requires WellFormed(cfg, core) && svc < |core.services|
    ensures Inhibited(Do(cfg, core, call).core, svc, kept) <==> InhibitedNext(cfg, core, call, svc, kept)
  {
    match call
    case Register(_) =>
    case Start(_) =>
    case Stop(s) => StopEffect(cfg, core, s, svc, kept);
    case PauseAssert(s, reason) => AssertEffect(cfg, core, s, reason, svc, kept);
    case PauseClear(s, reason) => ClearEffect(cfg, core, s, reason, svc, kept);
    case Observe(_) =>
  }

  /// A service just registered has no reason outstanding.
  lemma NewServiceIsClear(cfg: Config, core: Core, call: Call, svc: nat, kept: string)
    requires WellFormed(cfg, core) && |core.services| <= svc
    ensures !Inhibited(Do(cfg, core, call).core, svc, kept)
  {
    if call.Register? && FirstIndex(core.reasons, kept).Some? {
      ZerosTestFalse(cfg.WordCount(), FirstIndex(core.reasons, kept).value);
    }
  }

  // --- the ledger: history alone ------------------------------------------------------

  function CoreAt(cfg: Config, calls: seq<Call>, n: nat): Core
    requires n <= |calls|
  {
    if n == 0 then Init() else Do(cfg, CoreAt(cfg, calls, n - 1), calls[n - 1]).core
  }

  /// The distinct truncated names registered so far, in order, capacity permitting.
  function RegisteredAt(cfg: Config, calls: seq<Call>, n: nat): seq<string>
    requires n <= |calls|
  {
    if n == 0 then []
    else
      var before := RegisteredAt(cfg, calls, n - 1);
      match calls[n - 1]
      case Register(name) =>
        var kept := Truncated(name, cfg.nameMax);
        if kept in before || |before| >= cfg.maxServices then before else before + [kept]
      case _ => before
  }

  predicate Known(cfg: Config, calls: seq<Call>, n: nat, svc: int)
    requires n <= |calls|
  {
    0 <= svc < |RegisteredAt(cfg, calls, n)|
  }

  /// The distinct truncated reasons asserted on known services so far, in order.
  function InternedAt(cfg: Config, calls: seq<Call>, n: nat): seq<string>
    requires n <= |calls|
  {
    if n == 0 then []
    else
      var before := InternedAt(cfg, calls, n - 1);
      match calls[n - 1]
      case PauseAssert(svc, reason) =>
        var kept := Truncated(reason, cfg.reasonMax);
        if !Known(cfg, calls, n - 1, svc) || kept in before || |before| >= cfg.maxReasons then before
        else before + [kept]
      case _ => before
  }

  /// The last start or stop of the service was a start.
  predicate StartedAt(cfg: Config, calls: seq<Call>, n: nat, svc: int)
    requires n <= |calls|
  {
    n > 0 && StartedNext(calls[n - 1], svc, Known(cfg, calls, n - 1, svc), StartedAt(cfg, calls, n - 1, svc))
  }

  predicate StartedNext(call: Call, svc: int, known: bool, started: bool) {
    match call
    case Start(s) => if s == svc then known else started
    case Stop(s) => s != svc && started
    case _ => started
  }

  /// Call k is an accepted assert of the reason, a clear of it, or a stop while
  /// started.
  predicate Touches(cfg: Config, calls: seq<Call>, k: nat, svc: int, kept: string)
    requires k < |calls|
  {
    match calls[k]
    case PauseAssert(s, r) =>
      && s == svc && Truncated(r, cfg.reasonMax) == kept
      && Known(cfg, calls, k, svc) && kept in InternedAt(cfg, calls, k + 1)
    case PauseClear(s, r) => s == svc && Truncated(r, cfg.reasonMax) == kept && Known(cfg, calls, k, svc)
    case Stop(s) => s == svc && StartedAt(cfg, calls, k, svc)
    case _ => false
  }

  function LastTouch(cfg: Config, calls: seq<Call>, n: nat, svc: int, kept: string): (r: Option<nat>)
    requires n <= |calls|
    ensures r.Some? ==> r.value < n
  {
    if n == 0 then None
    else if Touches(cfg, calls, n - 1, svc, kept) then Some(n - 1)
    else LastTouch(cfg, calls, n - 1, svc, kept)
  }

  lemma {:induction false} LastTouchIsLast(cfg: Config, calls: seq<Call>, n: nat, svc: int, kept: string, k: nat)
    requires k < n <= |calls|
    ensures Touches(cfg, calls, k, svc, kept) ==>
              LastTouch(cfg, calls, n, svc, kept).Some? && k <= LastTouch(cfg, calls, n, svc, kept).value
    ensures LastTouch(cfg, calls, n, svc, kept) == Some(k) ==> Touches(cfg, calls, k, svc, kept)
  {
    if k < n - 1 {
      LastTouchIsLast(cfg, calls, n - 1, svc, kept, k);
    }
  }

  /// The last call that touched the reason was an assert.
  predicate Outstanding(cfg: Config, calls: seq<Call>, n: nat, svc: int, kept: string)
    requires n <= |calls|
  {
    n > 0 && if Touches(cfg, calls, n - 1, svc, kept) then calls[n - 1].PauseAssert?
             else Outstanding(cfg, calls, n - 1, svc, kept)
  }

  lemma {:induction false} OutstandingIsLastTouch(cfg: Config, calls: seq<Call>, n: nat, svc: int, kept: string)
    requires n <= |calls|
    ensures Outstanding(cfg, calls, n, svc, kept) <==>
              LastTouch(cfg, calls, n, svc, kept).Some? && calls[LastTouch(cfg, calls, n, svc, kept).value].PauseAssert?
  {
    if n > 0 {
      OutstandingIsLastTouch(cfg, calls, n - 1, svc, kept);
    }
  }

  // --- the tables agree with the ledger -----------------------------------------------

  ghost predicate TablesAgree(cfg: Config, calls: seq<Call>, n: nat)
    requires n <= |calls|
  {
    var core := CoreAt(cfg, calls, n);
    && NamesOf(core.services) == RegisteredAt(cfg, calls, n)
    && core.reasons == InternedAt(cfg, calls, n)
    && (forall svc :: 0 <= svc < |core.services| ==> (core.services[svc].started <==> StartedAt(cfg, calls, n, svc)))
  }

  lemma NamesAfterDo(cfg: Config, core: Core, call: Call)
    requires WellFormed(cfg, core)
    ensures NamesOf(Do(cfg, core, call).core.services) ==
            if call.Register? && Truncated(call.name, cfg.nameMax) !in NamesOf(core.services)
               && |core.services| < cfg.maxServices
            then NamesOf(core.services) + [Truncated(call.name, cfg.nameMax)]
            else NamesOf(core.services)
  {
    var after := Do(cfg, core, call).core;
    if call.Register? {
    } else {
      assert |after.services| == |core.services|;
      assert forall i :: 0 <= i < |core.services| ==> after.services[i].name == core.services[i].name;
    }
  }

  lemma ReasonsAfterDo(cfg: Config, core: Core, call: Call)
    requires WellFormed(cfg, core)
    ensures Do(cfg, core, call).core.reasons ==
            if call.PauseAssert? && SvcValid(core, call.svc) && |core.reasons| < cfg.maxReasons
               && Truncated(call.reason, cfg.reasonMax) !in core.reasons
            then core.reasons + [Truncated(call.reason, cfg.reasonMax)]
            else core.reasons
  {
    if call.PauseAssert? {
      InternFacts(cfg, core, Truncated(call.reason, cfg.reasonMax));
    }
  }

  lemma StartedAfterDo(cfg: Config, core: Core, call: Call, svc: nat)
    requires svc < |Do(cfg, core, call).core.services|
    ensures Do(cfg, core, call).core.services[svc].started <==>
              StartedNext(call, svc, svc < |core.services|, svc < |core.services| && core.services[svc].started)
  {
  }

  lemma {:induction false} NeverStartedBeforeKnown(cfg: Config, calls: seq<Call>, n: nat, svc: int)
    requires n <= |calls| && !Known(cfg, calls, n, svc)
    ensures !StartedAt(cfg, calls, n, svc)
  {
    if n > 0 {
      NeverStartedBeforeKnown(cfg, calls, n - 1, svc);
    }
  }

  lemma NamesStep(cfg: Config, calls: seq<Call>, n: nat)
    requires 0 < n <= |calls| && WellFormed(cfg, CoreAt(cfg, calls, n - 1)) && TablesAgree(cfg, calls, n - 1)
    ensures NamesOf(CoreAt(cfg, calls, n).services) == RegisteredAt(cfg, calls, n)
  {
    NamesAfterDo(cfg, CoreAt(cfg, calls, n - 1), calls[n - 1]);
  }

  lemma ReasonsStep(cfg: Config, calls: seq<Call>, n: nat)
    requires 0 < n <= |calls| && WellFormed(cfg, CoreAt(cfg, calls, n - 1)) && TablesAgree(cfg, calls, n - 1)
    ensures CoreAt(cfg, calls, n).reasons == InternedAt(cfg, calls, n)
  {
    ReasonsAfterDo(cfg, CoreAt(cfg, calls, n - 1), calls[n - 1]);
  }

  lemma StartedStep(cfg: Config, calls: seq<Call>, n: nat, svc: nat)
    requires 0 < n <= |calls| && TablesAgree(cfg, calls, n - 1)
    requires svc < |CoreAt(cfg, calls, n).services|
    ensures CoreAt(cfg, calls, n).services[svc].started <==> StartedAt(cfg, calls, n, svc)
  {
    var core := CoreAt(cfg, calls, n - 1);
    KnownIsStored(cfg, calls, n - 1, svc);
    StartedAfterDo(cfg, core, calls[n - 1], svc);
    StartedUnfolds(cfg, calls, n, svc, svc < |core.services|, svc < |core.services| && core.services[svc].started,
                   CoreAt(cfg, calls, n).services[svc].started);
  }

  lemma StartedUnfolds(cfg: Config, calls: seq<Call>, n: nat, svc: nat, known: bool, before: bool, after: bool)
    requires 0 < n <= |calls|
    requires (Known(cfg, calls, n - 1, svc) <==> known) && (StartedAt(cfg, calls, n - 1, svc) <==> before)
    requires after <==> StartedNext(calls[n - 1], svc, known, before)
    ensures after <==> StartedAt(cfg, calls, n, svc)
  {
  }

  lemma KnownIsStored(cfg: Config, calls: seq<Call>, n: nat, svc: nat)
    requires n <= |calls| && TablesAgree(cfg, calls, n)
    ensures Known(cfg, calls, n, svc) <==> svc < |CoreAt(cfg, calls, n).services|
    ensures StartedAt(cfg, calls, n, svc) <==>
              svc < |CoreAt(cfg, calls, n).services| && CoreAt(cfg, calls, n).services[svc].started
  {
    if !Known(cfg, calls, n, svc) {
      NeverStartedBeforeKnown(cfg, calls, n, svc);
    }
  }

  lemma {:induction false} TablesFollowHistory(cfg: Config, calls: seq<Call>, n: nat)
    requires n <= |calls|
    ensures WellFormed(cfg, CoreAt(cfg, calls, n))
    ensures TablesAgree(cfg, calls, n)
  {
    if n > 0 {
      TablesFollowHistory(cfg, calls, n - 1);
      DoKeepsWellFormed(cfg, CoreAt(cfg, calls, n - 1), calls[n - 1]);
      NamesStep(cfg, calls, n);
      ReasonsStep(cfg, calls, n);
      forall svc | 0 <= svc < |CoreAt(cfg, calls, n).services|
        ensures CoreAt(cfg, calls, n).services[svc].started <==> StartedAt(cfg, calls, n, svc)
      {
        StartedStep(cfg, calls, n, svc);
      }
    }
  }

  /// On a known service the tables' idea of what a call does is the ledger's.
  lemma NextMatchesTouch(cfg: Config, calls: seq<Call>, n: nat, svc: nat, kept: string)
    requires n < |calls| && svc < |CoreAt(cfg, calls, n).services|
    requires WellFormed(cfg, CoreAt(cfg, calls, n)) && TablesAgree(cfg, calls, n)
    requires CoreAt(cfg, calls, n + 1).reasons == InternedAt(cfg, calls, n + 1)
    ensures InhibitedNext(cfg, CoreAt(cfg, calls, n), calls[n], svc, kept) <==>
              if Touches(cfg, calls, n, svc, kept) then calls[n].PauseAssert?
              else Inhibited(CoreAt(cfg, calls, n), svc, kept)
  {
    var core, call := CoreAt(cfg, calls, n), calls[n];
    if call.PauseAssert? {
      AssertStatus(cfg, core, call.svc, call.reason);
    }
  }

  lemma UnknownIsUntouched(cfg: Config, calls: seq<Call>, n: nat, svc: int, kept: string)
    requires n < |calls| && !Known(cfg, calls, n, svc)
    ensures !Touches(cfg, calls, n, svc, kept)
  {
    NeverStartedBeforeKnown(cfg, calls, n, svc);
  }

  /// The tables after each of the calls.
  ghost function Trace(cfg: Config, calls: seq<Call>): (r: seq<Core>)
    ensures |r| == |calls| + 1
  {
    seq(|calls| + 1, n requires 0 <= n <= |calls| => CoreAt(cfg, calls, n))
  }

  /// Call k moves the reason's bit as the ledger says.
  ghost predicate StepAt(cfg: Config, calls: seq<Call>, before: Core, after: Core, k: nat, svc: nat, kept: string)
    requires k < |calls|
  {
    Inhibited(after, svc, kept) <==>
      if Touches(cfg, calls, k, svc, kept) then calls[k].PauseAssert? else Inhibited(before, svc, kept)
  }

  lemma {:induction false} Replay(cfg: Config, calls: seq<Call>, trace: seq<Core>, n: nat, svc: nat, kept: string)
    requires n <= |calls| < |trace|
    requires !Inhibited(trace[0], svc, kept)
    requires forall k: nat :: k < |calls| ==> StepAt(cfg, calls, trace[k], trace[k + 1], k, svc, kept)
    ensures Inhibited(trace[n], svc, kept) <==> Outstanding(cfg, calls, n, svc, kept)
  {
    if n > 0 {
      Replay(cfg, calls, trace, n - 1, svc, kept);
      assert StepAt(cfg, calls, trace[n - 1], trace[n], n - 1, svc, kept);
    }
  }

  /// A reason's bit is set for a service exactly when the last call that touched
  /// it was an assert, over every word of the bit set and whatever the interning
  /// order.
  lemma HistoryDecides(cfg: Config, calls: seq<Call>, n: nat, svc: nat, kept: string)
    requires n <= |calls|
    ensures Inhibited(CoreAt(cfg, calls, n), svc, kept) <==> Outstanding(cfg, calls, n, svc, kept)
  {
    var trace := Trace(cfg, calls);
    forall k: nat | k < |calls|
      ensures StepAt(cfg, calls, trace[k], trace[k + 1], k, svc, kept)
    {
      StepHolds(cfg, calls, trace, k, svc, kept);
    }
    Replay(cfg, calls, trace, n, svc, kept);
  }

  lemma StepHolds(cfg: Config, calls: seq<Call>, trace: seq<Core>, k: nat, svc: nat, kept: string)
    requires k < |calls| && trace == Trace(cfg, calls)
    ensures StepAt(cfg, calls, trace[k], trace[k + 1], k, svc, kept)
  {
    HistoryStep(cfg, calls, k, svc, kept);
    assert trace[k] == CoreAt(cfg, calls, k) && trace[k + 1] == CoreAt(cfg, calls, k + 1);
  }

  lemma HistoryStep(cfg: Config, calls: seq<Call>, n: nat, svc: nat, kept: string)
    requires n < |calls|
    ensures StepAt(cfg, calls, CoreAt(cfg, calls, n), CoreAt(cfg, calls, n + 1), n, svc, kept)
  {
    TablesFollowHistory(cfg, calls, n);
    var core := CoreAt(cfg, calls, n);
    if svc < |core.services| {
      ReasonsStep(cfg, calls, n + 1);
      CallEffect(cfg, core, calls[n], svc, kept);
      NextMatchesTouch(cfg, calls, n, svc, kept);
    } else {
      NewServiceIsClear(cfg, core, calls[n], svc, kept);
      UnknownIsUntouched(cfg, calls, n, svc, kept);
    }
  }

  /// pause_assert fails on an unknown handle, and otherwise only when a new reason
  /// finds the table full.
  lemma AssertStatus(cfg: Config, core: Core, svc: int, reason: string)
    requires WellFormed(cfg, core)
    ensures DoAssert(cfg, core, svc, reason).status ==
            if !SvcValid(core, svc) then NotFound
            else if Truncated(reason, cfg.reasonMax) in DoAssert(cfg, core, svc, reason).core.reasons then Ok
            else NoSpace
    ensures DoAssert(cfg, core, svc, reason).status == NoSpace ==> |core.reasons| == cfg.maxReasons
  {
    InternFacts(cfg, core, Truncated(reason, cfg.reasonMax));
  }

  ghost predicate SomeOutstanding(cfg: Config, calls: seq<Call>, n: nat, svc: int)
    requires n <= |calls|
  {
    exists kept: string :: Outstanding(cfg, calls, n, svc, kept)
  }

  lemma SomeMatch(cfg: Config, calls: seq<Call>, n: nat, svc: nat)
    requires n <= |calls|
    ensures SomeInhibited(CoreAt(cfg, calls, n), svc) <==> SomeOutstanding(cfg, calls, n, svc)
  {
    if kept: string :| Inhibited(CoreAt(cfg, calls, n), svc, kept) {
      HistoryDecides(cfg, calls, n, svc, kept);
    }
    if kept: string :| Outstanding(cfg, calls, n, svc, kept) {
      HistoryDecides(cfg, calls, n, svc, kept);
    }
  }

  /// The effective state, read off the history of calls.
  lemma StateFollowsHistory(cfg: Config, calls: seq<Call>, n: nat, svc: nat)
    requires n <= |calls| && Known(cfg, calls, n, svc)
    ensures svc < |CoreAt(cfg, calls, n).services|
    ensures Effective(CoreAt(cfg, calls, n).services[svc]) ==
            if !StartedAt(cfg, calls, n, svc) then STOPPED
            else if SomeOutstanding(cfg, calls, n, svc) then PAUSED
            else RUNNING
  {
    TablesFollowHistory(cfg, calls, n);
    KnownIsStored(cfg, calls, n, svc);
    PausedIffInhibited(cfg, CoreAt(cfg, calls, n), svc);
    SomeMatch(cfg, calls, n, svc);
  }

  /// The reason bit carried by an event names the reason the caller gave, and is
  /// never mistaken for the "no reason" sentinel.
  lemma EventNamesItsReason(cfg: Config, core: Core, call: Call)
    requires WellFormed(cfg, core) && Do(cfg, core, call).event.Some?
    ensures call.PauseAssert? || call.PauseClear? || call.Start? || call.Stop?
    ensures var e := Do(cfg, core, call).event.value;
            var reasons := Do(cfg, core, call).core.reasons;
            if call.PauseAssert? || call.PauseClear? then
              e.reason != REASON_NONE && e.reason < |reasons| && reasons[e.reason] == Truncated(call.reason, cfg.reasonMax)
            else e.reason == REASON_NONE
  {
    if call.PauseAssert? {
      InternFacts(cfg, core, Truncated(call.reason, cfg.reasonMax));
    }
  }
}
