/// bb_lifecycle: registered services, an interned reason table shared by all of
/// them, per-service inhibit words and a transition counter.  Do says what one
/// call does while it holds the lock; class Lifecycle performs it in place.
module Lifecycle {
  import opened Wrappers
  import opened InhibitWords

  const VERSION_MODULUS: nat := 0x1_0000_0000
  const REASON_NONE: nat := 0xFF

  /// The Kconfig knobs.
  datatype Knobs = Knobs(
    maxServices: nat,
    maxReasons: nat,
    maxObservers: nat,
    nameMax: nat,
    reasonMax: nat
  ) {
    /// The Kconfig ranges, as far as the arithmetic depends on them.
    predicate Valid() {
      1 <= maxReasons <= 255 && 1 <= nameMax && 1 <= reasonMax
    }

    function WordCount(): nat {
      (maxReasons + 31) / 32
    }
  }

  type Config = k: Knobs | k.Valid() witness Knobs(1, 1, 1, 1, 1)

  datatype State = STOPPED | PAUSED | RUNNING

  datatype Status = Ok | NotFound | Conflict | NoSpace

  datatype Service = Service(name: string, started: bool, inhibits: Words, version: nat)

  /// A registered callback, told apart by an identity.
  datatype Observer = Observer(who: nat, async: bool)

  datatype Event = Event(svc: nat, inhibits: Word, version: nat, oldState: State, newState: State, reason: nat)

  datatype Core = Core(services: seq<Service>, reasons: seq<string>, observers: seq<Observer>)

  datatype Call =
    | Register(name: string)
    | Start(svc: int)
    | Stop(svc: int)
    | PauseAssert(svc: int, reason: string)
    | PauseClear(svc: int, reason: string)
    | Observe(observer: Observer)

  /// A handle is meaningful only for a successful Register; an event is present
  /// exactly when the call is to be followed by notify_all.
  datatype Outcome = Outcome(core: Core, status: Status, handle: nat, event: Option<Event>)

  // --- pure helpers ------------------------------------------------------------

  function Effective(s: Service): State {
    if !s.started then STOPPED else if AnySet(s.inhibits) then PAUSED else RUNNING
  }

  /// strncpy into a buffer of the given size, the last byte kept for the NUL.
  function Truncated(text: string, size: nat): (r: string)
    requires 1 <= size
    ensures |r| < size && r <= text
    ensures |text| < size ==> r == text
    ensures |text| >= size ==> |r| == size - 1
  {
    if |text| < size then text else text[..size - 1]
  }

  function FirstIndex(names: seq<string>, name: string): (r: Option<nat>)
    ensures r.Some? ==> r.value < |names| && names[r.value] == name
    ensures r.Some? ==> forall j :: 0 <= j < r.value ==> names[j] != name
    ensures r.None? ==> name !in names
  {
    if names == [] then None
    else if names[0] == name then Some(0)
    else
      match FirstIndex(names[1..], name)
      case None => None
      case Some(i) => Some(i + 1)
  }

  lemma FirstMatchIs(names: seq<string>, name: string, i: nat)
    requires i < |names| && names[i] == name && forall j :: 0 <= j < i ==> names[j] != name
    ensures FirstIndex(names, name) == Some(i)
  {
  }

  function NamesOf(services: seq<Service>): (r: seq<string>)
    ensures |r| == |services| && forall i :: 0 <= i < |r| ==> r[i] == services[i].name
  {
    seq(|services|, i requires 0 <= i < |services| => services[i].name)
  }

  predicate SvcValid(core: Core, svc: int) {
    0 <= svc < |core.services|
  }

  function Init(): Core {
    Core([], [], [])
  }

  // --- one call, under the lock ------------------------------------------------

  function Quiet(core: Core, status: Status): Outcome {
    Outcome(core, status, 0, None)
  }

  /// commit_and_snapshot: bump the version of a service that has just changed.
  function Commit(core: Core, svc: nat, changed: Service, reason: nat): Outcome
    requires svc < |core.services|
  {
    var version := (core.services[svc].version + 1) % VERSION_MODULUS;
    Outcome(
      core.(services := core.services[svc := changed.(version := version)]),
      Ok,
      0,
      Some(Event(
             svc,
             if changed.inhibits == [] then [] else changed.inhibits[0],
             version,
             Effective(core.services[svc]),
             Effective(changed),
             reason)))
  }

  function DoRegister(cfg: Config, core: Core, name: string): Outcome
  {
    var kept := Truncated(name, cfg.nameMax);
    if kept in NamesOf(core.services) then Quiet(core, Conflict)
    else if |core.services| >= cfg.maxServices then Quiet(core, NoSpace)
    else
      Outcome(
        core.(services := core.services + [Service(kept, false, Zeros(cfg.WordCount()), 0)]),
        Ok,
        |core.services|,
        None)
  }

  function DoStart(core: Core, svc: int): Outcome {
    if !SvcValid(core, svc) then Quiet(core, NotFound)
    else if core.services[svc].started then Quiet(core, Ok)
    else Commit(core, svc, core.services[svc].(started := true), REASON_NONE)
  }

  function DoStop(core: Core, svc: int): Outcome {
    if !SvcValid(core, svc) then Quiet(core, NotFound)
    else if !core.services[svc].started then Quiet(core, Ok)
    else
      var s := core.services[svc];
      Commit(core, svc, s.(started := false, inhibits := Zeros(|s.inhibits|)), REASON_NONE)
  }

  /// reason_intern_locked: the bit of a truncated reason, a new one if need be.
  function Intern(cfg: Config, reasons: seq<string>, kept: string): Option<(seq<string>, nat)> {
    match FirstIndex(reasons, kept)
    case Some(bit) => Some((reasons, bit))
    case None => if |reasons| >= cfg.maxReasons then None else Some((reasons + [kept], |reasons|))
  }

  function DoAssert(cfg: Config, core: Core, svc: int, reason: string): Outcome
  {
    if !SvcValid(core, svc) then Quiet(core, NotFound)
    else
      match Intern(cfg, core.reasons, Truncated(reason, cfg.reasonMax))
      case None => Quiet(core, NoSpace)
      case Some((reasons, bit)) =>
        var interned := core.(reasons := reasons);
        var s := core.services[svc];
        if WordTest(s.inhibits, bit) then Quiet(interned, Ok)
        else Commit(interned, svc, s.(inhibits := WordSet(s.inhibits, bit)), bit)
  }

  function DoClear(cfg: Config, core: Core, svc: int, reason: string): Outcome
  {
    if !SvcValid(core, svc) then Quiet(core, NotFound)
    else
      match FirstIndex(core.reasons, Truncated(reason, cfg.reasonMax))
      case None => Quiet(core, Ok)
      case Some(bit) =>
        var s := core.services[svc];
        if !WordTest(s.inhibits, bit) then Quiet(core, Ok)
        else Commit(core, svc, s.(inhibits := WordClear(s.inhibits, bit)), bit)
  }

  function DoObserve(cfg: Config, core: Core, observer: Observer): Outcome {
    if |core.observers| >= cfg.maxObservers then Quiet(core, NoSpace)
    else Quiet(core.(observers := core.observers + [observer]), Ok)
  }

  function Do(cfg: Config, core: Core, call: Call): Outcome
  {
    match call
    case Register(name) => DoRegister(cfg, core, name)
    case Start(svc) => DoStart(core, svc)
    case Stop(svc) => DoStop(core, svc)
    case PauseAssert(svc, reason) => DoAssert(cfg, core, svc, reason)
    case PauseClear(svc, reason) => DoClear(cfg, core, svc, reason)
    case Observe(observer) => DoObserve(cfg, core, observer)
  }

  // --- the same, in place ---------------------------------------------------------

  class Lifecycle {
    const cfg: Config
    const services: array<Service>
    var serviceCount: nat
    const reasons: array<string>
    var reasonCount: nat
    const observers: array<Observer>
    var observerCount: nat

    ghost predicate Valid()
      reads this
    {
      && serviceCount <= services.Length == cfg.maxServices
      && reasonCount <= reasons.Length == cfg.maxReasons
      && observerCount <= observers.Length == cfg.maxObservers
    }

    ghost function View(): Core
      reads this, services, reasons, observers
      requires Valid()
    {
      Core(services[..serviceCount], reasons[..reasonCount], observers[..observerCount])
    }

    constructor (cfg: Config)
      ensures Valid() && this.cfg == cfg && View() == Init()
      ensures fresh(services) && fresh(reasons) && fresh(observers)
    {
      this.cfg := cfg;
      services := new Service[cfg.maxServices](_ => Service("", false, [], 0));
      serviceCount := 0;
      reasons := new string[cfg.maxReasons](_ => "");
      reasonCount := 0;
      observers := new Observer[cfg.maxObservers](_ => Observer(0, false));
      observerCount := 0;
    }

    method FindService(kept: string) returns (r: Option<nat>)
      requires Valid()
      ensures r == FirstIndex(NamesOf(View().services), kept)
    {
      ghost var names := NamesOf(View().services);
      for i := 0 to serviceCount
        invariant forall j :: 0 <= j < i ==> names[j] != kept
      {
        if services[i].name == kept {
          FirstMatchIs(names, kept, i);
          return Some(i);
        }
      }
      return None;
    }

    /// bb_lifecycle_find.
    method Find(name: string) returns (status: Status, handle: nat)
      requires Valid()
      ensures status == NotFound <==> Truncated(name, cfg.nameMax) !in NamesOf(View().services)
      ensures status == NotFound || status == Ok
      ensures status == Ok ==>
                handle < |View().services| && View().services[handle].name == Truncated(name, cfg.nameMax)
    {
      var found := FindService(Truncated(name, cfg.nameMax));
      match found
      case None => status, handle := NotFound, 0;
      case Some(i) => status, handle := Ok, i;
    }

    method LookupReason(kept: string) returns (r: Option<nat>)
      requires Valid()
      ensures r == FirstIndex(View().reasons, kept)
    {
      ghost var names := View().reasons;
      for i := 0 to reasonCount
        invariant forall j :: 0 <= j < i ==> names[j] != kept
      {
        if reasons[i] == kept {
          FirstMatchIs(names, kept, i);
          return Some(i);
        }
      }
      return None;
    }

    method Register(name: string) returns (status: Status, handle: nat)
      requires Valid()
      modifies this`serviceCount, services
      ensures Valid()
      ensures Outcome(View(), status, handle, None) == Do(cfg, old(View()), Call.Register(name))
    {
      var kept := Truncated(name, cfg.nameMax);
      var clash := FindService(kept);
      if clash.Some? {
        return Conflict, 0;
      }
      if serviceCount >= cfg.maxServices {
        return NoSpace, 0;
      }
      services[serviceCount] := Service(kept, false, Zeros(cfg.WordCount()), 0);
      handle := serviceCount;
      serviceCount := serviceCount + 1;
      status := Ok;
    }

    /// commit_and_snapshot, after the caller wrote the changed service in place.
    method CommitAndSnapshot(svc: nat, oldState: State, reason: nat) returns (event: Event)
      requires Valid() && svc < serviceCount
      modifies services
      ensures Valid()
      ensures View() == old(View()).(services := old(View()).services[svc := old(services[svc]).(
                                                   version := (old(services[svc]).version + 1) % VERSION_MODULUS)])
      ensures event == Event(
                         svc,
                         if old(services[svc]).inhibits == [] then [] else old(services[svc]).inhibits[0],
                         (old(services[svc]).version + 1) % VERSION_MODULUS,
                         oldState,
                         Effective(old(services[svc])),
                         reason)
    {
      var newState := ComputeState(svc);
      var s := services[svc];
      services[svc] := s.(version := (s.version + 1) % VERSION_MODULUS);
      event := Event(svc, if s.inhibits == [] then [] else s.inhibits[0], services[svc].version, oldState, newState, reason);
    }

    method ComputeState(svc: nat) returns (state: State)
      requires Valid() && svc < serviceCount
      ensures state == Effective(services[svc])
    {
      if !services[svc].started {
        return STOPPED;
      }
      var any := ScanAnySet(services[svc].inhibits);
      return if any then PAUSED else RUNNING;
    }

    method Start(svc: int) returns (status: Status, event: Option<Event>)
      requires Valid()
      modifies services
      ensures Valid()
      ensures Outcome(View(), status, 0, event) == Do(cfg, old(View()), Call.Start(svc))
    {
      if svc < 0 || svc >= serviceCount {
        return NotFound, None;
      }
      var oldState := ComputeState(svc);
      if services[svc].started {
        return Ok, None;
      }
      services[svc] := services[svc].(started := true);
      var e := CommitAndSnapshot(svc, oldState, REASON_NONE);
      return Ok, Some(e);
    }

    method Stop(svc: int) returns (status: Status, event: Option<Event>)
      requires Valid()
      modifies services
      ensures Valid()
      ensures Outcome(View(), status, 0, event) == Do(cfg, old(View()), Call.Stop(svc))
    {
      if svc < 0 || svc >= serviceCount {
        return NotFound, None;
      }
      var oldState := ComputeState(svc);
      if !services[svc].started {
        return Ok, None;
      }
      services[svc] := services[svc].(started := false);
      services[svc] := services[svc].(inhibits := Zeros(|services[svc].inhibits|));
      var e := CommitAndSnapshot(svc, oldState, REASON_NONE);
      return Ok, Some(e);
    }

    method InternReason(reason: string) returns (bit: Option<nat>)
      requires Valid()
      modifies this`reasonCount, reasons
      ensures Valid()
      ensures View().services == old(View()).services && View().observers == old(View()).observers
      ensures
        match Intern(cfg, old(View()).reasons, Truncated(reason, cfg.reasonMax))
        case None => bit == None && View() == old(View())
        case Some((names, b)) => bit == Some(b) && View().reasons == names
    {
      var kept := Truncated(reason, cfg.reasonMax);
      bit := LookupReason(kept);
      if bit.Some? {
        return;
      }
      if reasonCount >= cfg.maxReasons {
        return None;
      }
      bit := Some(reasonCount);
      reasons[reasonCount] := kept;
      reasonCount := reasonCount + 1;
    }

    method PauseAssert(svc: int, reason: string) returns (status: Status, event: Option<Event>)
      requires Valid()
      modifies this`reasonCount, reasons, services
      ensures Valid()
      ensures Outcome(View(), status, 0, event) == Do(cfg, old(View()), Call.PauseAssert(svc, reason))
    {
      if svc < 0 || svc >= serviceCount {
        return NotFound, None;
      }
      var oldState := ComputeState(svc);
      var bit := InternReason(reason);
      if bit.None? {
        return NoSpace, None;
      }
      if WordTest(services[svc].inhibits, bit.value) {
        return Ok, None;
      }
      services[svc] := services[svc].(inhibits := WordSet(services[svc].inhibits, bit.value));
      var e := CommitAndSnapshot(svc, oldState, bit.value);
      return Ok, Some(e);
    }

    method PauseClear(svc: int, reason: string) returns (status: Status, event: Option<Event>)
      requires Valid()
      modifies services
      ensures Valid()
      ensures Outcome(View(), status, 0, event) == Do(cfg, old(View()), Call.PauseClear(svc, reason))
    {
      if svc < 0 || svc >= serviceCount {
        return NotFound, None;
      }
      var oldState := ComputeState(svc);
      var bit := LookupReason(Truncated(reason, cfg.reasonMax));
      if bit.None? {
        return Ok, None;
      }
      if !WordTest(services[svc].inhibits, bit.value) {
        return Ok, None;
      }
      services[svc] := services[svc].(inhibits := WordClear(services[svc].inhibits, bit.value));
      var e := CommitAndSnapshot(svc, oldState, bit.value);
      return Ok, Some(e);
    }

    method Observe(observer: Observer) returns (status: Status)
      requires Valid()
      modifies this`observerCount, observers
      ensures Valid()
      ensures Outcome(View(), status, 0, None) == Do(cfg, old(View()), Call.Observe(observer))
    {
      if observerCount >= cfg.maxObservers {
        return NoSpace;
      }
      observers[observerCount] := observer;
      observerCount := observerCount + 1;
      return Ok;
    }

    /// bb_lifecycle_inhibit_words: copies as many words as fit and says how many.
    method CopyInhibitWords(svc: int, out: array<Word>, maxWords: nat) returns (n: nat)
      requires Valid() && maxWords <= out.Length
      modifies out
      ensures n == if SvcValid(old(View()), svc) then
                     (if maxWords < |old(View()).services[svc].inhibits| then maxWords
                      else |old(View()).services[svc].inhibits|)
                   else 0
      ensures n > 0 ==> out[..n] == old(View()).services[svc].inhibits[..n]
      ensures out[n..] == old(out[n..])
    {
      if maxWords == 0 || svc < 0 || svc >= serviceCount {
        return 0;
      }
      var words := services[svc].inhibits;
      n := if maxWords < |words| then maxWords else |words|;
      for i := 0 to n
        modifies out
        invariant out[..i] == words[..i]
        invariant out[n..] == old(out[n..])
      {
        out[i] := words[i];
      }
    }
  }
}
