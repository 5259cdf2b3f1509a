/// Many threads calling bb_lifecycle at once.
///
/// The lock makes a call's commit one step; notify_all runs after the unlock, on
/// the caller's thread: one step loads the observer count, then one step per
/// slot, then one step for the async queue and the emit sink.  Steps of
/// different threads interleave in any order, and observers may be added
/// meanwhile.
module LifecycleThreads {
  import opened Wrappers
  import opened InhibitWords
  import opened Lifecycle

  /// Where a thread inside notify_all stands; id is the event's place in the log.
  datatype Local =
    | Committed(id: nat)
    | Sending(id: nat, n: nat, i: nat, anyAsync: bool)

  /// A committed event and the number of observers registered at its commit.
  datatype Record = Record(event: Event, registered: nat)

  /// threads holds the threads inside notify_all.  log, calls (event, observer),
  /// queued and emitted are the trace; done maps a finished event to the observer
  /// count its notify_all loaded.
  datatype World = World(
    core: Core,
    threads: map<nat, Local>,
    log: seq<Record>,
    calls: seq<(nat, nat)>,
    queued: seq<nat>,
    emitted: seq<nat>,
    done: map<nat, nat>
  )

  datatype Move =
    | Invoke(t: nat, call: Call)
    | Load(t: nat)
    | Visit(t: nat)
    | Finish(t: nat)

  function Start(): World {
    World(Init(), map[], [], [], [], [], map[])
  }

  predicate Enabled(w: World, m: Move) {
    match m
    case Invoke(t, _) => t !in w.threads
    case Load(t) => t in w.threads && w.threads[t].Committed?
    case Visit(t) =>
      t in w.threads && w.threads[t].Sending? && w.threads[t].i < w.threads[t].n
      && w.threads[t].i < |w.core.observers|
    case Finish(t) => t in w.threads && w.threads[t].Sending? && w.threads[t].i >= w.threads[t].n
  }

  function Next(cfg: Config, w: World, m: Move): World
    requires Enabled(w, m)
  {
    match m
    case Invoke(t, call) =>
      var outcome := Do(cfg, w.core, call);
      var moved := w.(core := outcome.core);
      if outcome.event.None? then moved
      else
        moved.(threads := w.threads[t := Committed(|w.log|)],
               log := w.log + [Record(outcome.event.value, |w.core.observers|)])
    case Load(t) =>
      w.(threads := w.threads[t := Sending(w.threads[t].id, |w.core.observers|, 0, false)])
    case Visit(t) =>
      var l := w.threads[t];
      if w.core.observers[l.i].async then
        w.(threads := w.threads[t := l.(i := l.i + 1, anyAsync := true)])
      else
        w.(threads := w.threads[t := l.(i := l.i + 1)], calls := w.calls + [(l.id, l.i)])
    case Finish(t) =>
      var l := w.threads[t];
      w.(threads := w.threads - {t},
         queued := if l.anyAsync then w.queued + [l.id] else w.queued,
         emitted := w.emitted + [l.id],
         done := w.done[l.id := l.n])
  }

  predicate Possible(cfg: Config, moves: seq<Move>)
    decreases |moves|, 0
  {
    moves == [] ||
    (Possible(cfg, moves[..|moves| - 1]) && Enabled(After(cfg, moves[..|moves| - 1]), moves[|moves| - 1]))
  }

  function After(cfg: Config, moves: seq<Move>): World
    requires Possible(cfg, moves)
    decreases |moves|, 1
  {
    if moves == [] then Start()
    else Next(cfg, After(cfg, moves[..|moves| - 1]), moves[|moves| - 1])
  }

  // --- the event chain --------------------------------------------------------------

  function EventsOf(log: seq<Record>, svc: nat): seq<Event> {
    if log == [] then []
    else
      var last := log[|log| - 1].event;
      EventsOf(log[..|log| - 1], svc) + if last.svc == svc then [last] else []
  }

  /// Versions count up from 1.
  predicate Numbered(events: seq<Event>) {
    forall k: nat :: k < |events| ==> events[k].version == (k + 1) % VERSION_MODULUS
  }

  /// Every event starts in the state the previous one left, the first from STOPPED.
  predicate Linked(events: seq<Event>) {
    forall k: nat :: k < |events| ==> LinkedAt(events, k)
  }

  predicate LinkedAt(events: seq<Event>, k: nat)
    requires k < |events|
  {
    events[k].oldState == if k == 0 then STOPPED else events[k - 1].newState
  }

  function LeftBy(events: seq<Event>): State {
    if events == [] then STOPPED else events[|events| - 1].newState
  }

  predicate ServiceFollows(core: Core, svc: nat, events: seq<Event>) {
    && Numbered(events)
    && Linked(events)
    && (svc < |core.services| ==>
          && core.services[svc].version == |events| % VERSION_MODULUS
          && Effective(core.services[svc]) == LeftBy(events))
    && (svc >= |core.services| ==> events == [])
  }

  lemma DoEvent(cfg: Config, core: Core, call: Call)
    requires Do(cfg, core, call).event.Some?
    ensures var e := Do(cfg, core, call).event.value;
            var after := Do(cfg, core, call).core;
            && e.svc < |core.services| == |after.services|
            && e.version == (core.services[e.svc].version + 1) % VERSION_MODULUS == after.services[e.svc].version
            && e.oldState == Effective(core.services[e.svc])
            && e.newState == Effective(after.services[e.svc])
            && forall i :: 0 <= i < |core.services| && i != e.svc ==> after.services[i] == core.services[i]
  {
  }

  lemma DoNoEvent(cfg: Config, core: Core, call: Call)
    requires Do(cfg, core, call).event.None?
    ensures var after := Do(cfg, core, call).core;
            && core.services <= after.services
            && forall i :: |core.services| <= i < |after.services| ==>
                 after.services[i].version == 0 && Effective(after.services[i]) == STOPPED
  {
  }

  lemma ChainGrows(events: seq<Event>, e: Event)
    requires Numbered(events) && Linked(events)
    requires e.version == (|events| + 1) % VERSION_MODULUS && e.oldState == LeftBy(events)
    ensures Numbered(events + [e]) && Linked(events + [e])
  {
    var longer := events + [e];
    forall k: nat | k < |longer|
      ensures LinkedAt(longer, k)
    {
      assert k < |events| ==> LinkedAt(events, k);
    }
  }

  lemma VersionCountsUp(n: nat)
    ensures (n % VERSION_MODULUS + 1) % VERSION_MODULUS == (n + 1) % VERSION_MODULUS
  {
  }

  lemma QuietKeepsChain(cfg: Config, core: Core, call: Call, svc: nat, events: seq<Event>)
    requires Do(cfg, core, call).event.None? && ServiceFollows(core, svc, events)
    ensures ServiceFollows(Do(cfg, core, call).core, svc, events)
  {
    DoNoEvent(cfg, core, call);
  }

  lemma CommitKeepsChain(cfg: Config, core: Core, call: Call, svc: nat, events: seq<Event>)
    requires Do(cfg, core, call).event.Some? && ServiceFollows(core, svc, events)
    ensures var e := Do(cfg, core, call).event.value;
            ServiceFollows(Do(cfg, core, call).core, svc, if e.svc == svc then events + [e] else events)
  {
    DoEvent(cfg, core, call);
    var e := Do(cfg, core, call).event.value;
    if e.svc == svc {
      VersionCountsUp(|events|);
      ChainGrows(events, e);
    }
  }

  lemma EventsOfLonger(log: seq<Record>, r: Record, svc: nat)
    ensures EventsOf(log + [r], svc) == if r.event.svc == svc then EventsOf(log, svc) + [r.event] else EventsOf(log, svc)
  {
    assert (log + [r])[..|log|] == log;
  }

  lemma InvokeKeepsChain(cfg: Config, w: World, t: nat, call: Call, svc: nat)
    requires Enabled(w, Invoke(t, call))
    requires ServiceFollows(w.core, svc, EventsOf(w.log, svc))
    ensures var after := Next(cfg, w, Invoke(t, call));
            ServiceFollows(after.core, svc, EventsOf(after.log, svc))
  {
    match Do(cfg, w.core, call).event {
      case None => QuietKeepsChain(cfg, w.core, call, svc, EventsOf(w.log, svc));
      case Some(e) =>
        CommitKeepsChain(cfg, w.core, call, svc, EventsOf(w.log, svc));
        EventsOfLonger(w.log, Record(e, |w.core.observers|), svc);
    }
  }

  /// Over every interleaving, the committed events of a service form one chain,
  /// and the latest of them left the service in the state it is in now, whatever
  /// the order in which notifications went out.
  lemma {:induction false} EventChain(cfg: Config, moves: seq<Move>, svc: nat)
    requires Possible(cfg, moves)
    ensures ServiceFollows(After(cfg, moves).core, svc, EventsOf(After(cfg, moves).log, svc))
  {
    if moves != [] {
      var before := moves[..|moves| - 1];
      EventChain(cfg, before, svc);
      var w, m := After(cfg, before), moves[|moves| - 1];
      if m.Invoke? {
        InvokeKeepsChain(cfg, w, m.t, m.call, svc);
      }
    }
  }

  lemma VersionOf(events: seq<Event>, k: nat)
    requires Numbered(events) && k < |events| < VERSION_MODULUS
    ensures events[k].version == k + 1
  {
    var n := k + 1;
    assert events[k].version == n % VERSION_MODULUS;
  }

  lemma AllVersions(events: seq<Event>)
    requires Numbered(events) && |events| < VERSION_MODULUS
    ensures forall j: nat :: j < |events| ==> events[j].version == j + 1
  {
    forall j: nat | j < |events|
      ensures events[j].version == j + 1
    {
      VersionOf(events, j);
    }
  }

  predicate IsHighest(events: seq<Event>, k: nat)
    requires k < |events|
  {
    forall j: nat :: j < |events| ==> events[j].version <= events[k].version
  }

  lemma HighestIsLast(events: seq<Event>, k: nat)
    requires Numbered(events) && k < |events| < VERSION_MODULUS && IsHighest(events, k)
    ensures k == |events| - 1
  {
    AllVersions(events);
    var last := |events| - 1;
    assert events[last].version <= events[k].version;
  }

  lemma FollowsHighest(core: Core, svc: nat, events: seq<Event>, k: nat)
    requires ServiceFollows(core, svc, events) && k < |events| < VERSION_MODULUS && IsHighest(events, k)
    ensures svc < |core.services| && events[k].newState == Effective(core.services[svc])
    ensures forall j: nat :: j < |events| ==> events[j].version == j + 1
  {
    HighestIsLast(events, k);
    AllVersions(events);
  }

  /// Short of a counter wrap the versions of a service's events are 1, 2, 3, ... in
  /// commit order, and the event with the highest version tells the current state.
  lemma HighestVersionIsCurrent(cfg: Config, moves: seq<Move>, w: World, svc: nat, events: seq<Event>, k: nat)
    requires Possible(cfg, moves) && w == After(cfg, moves)
    requires events == EventsOf(w.log, svc)
    requires k < |events| < VERSION_MODULUS && IsHighest(events, k)
    ensures svc < |w.core.services| && events[k].newState == Effective(w.core.services[svc])
    ensures forall j: nat :: j < |events| ==> events[j].version == j + 1
  {
    EventChain(cfg, moves, svc);
    FollowsHighest(w.core, svc, events, k);
  }

  // --- deliveries ---------------------------------------------------------------------

  /// The observers called for one event, in the order of the calls.
  function CallsFor(calls: seq<(nat, nat)>, id: nat): seq<nat> {
    if calls == [] then []
    else
      var last := calls[|calls| - 1];
      CallsFor(calls[..|calls| - 1], id) + if last.0 == id then [last.1] else []
  }

  /// How often x occurs.
  function Times(s: seq<nat>, x: nat): nat {
    if s == [] then 0
    else Times(s[..|s| - 1], x) + if s[|s| - 1] == x then 1 else 0
  }

  lemma TimesLast(s: seq<nat>, x: nat, y: nat)
    ensures Times(s + [x], y) == Times(s, y) + if x == y then 1 else 0
  {
    assert (s + [x])[..|s|] == s;
  }

  /// The synchronous observers among the first k, in registration order.
  function SyncBelow(observers: seq<Observer>, k: nat): seq<nat>
    requires k <= |observers|
  {
    if k == 0 then []
    else SyncBelow(observers, k - 1) + if observers[k - 1].async then [] else [k - 1]
  }

  predicate AsyncBelow(observers: seq<Observer>, k: nat)
    requires k <= |observers|
  {
    exists o: nat :: o < k && observers[o].async
  }

  /// How many observer slots a thread inside notify_all has passed.
  function Passed(l: Local): nat {
    if l.Committed? then 0 else l.i
  }

  predicate LocalOk(w: World, l: Local) {
    && l.id < |w.log|
    && l.id !in w.done
    && Passed(l) <= |w.core.observers|
    && CallsFor(w.calls, l.id) == SyncBelow(w.core.observers, Passed(l))
    && (l.Sending? ==>
          && w.log[l.id].registered <= l.n <= |w.core.observers|
          && l.i <= l.n
          && (l.anyAsync <==> AsyncBelow(w.core.observers, l.i)))
  }

  predicate DoneOk(w: World, id: nat)
    requires id in w.done
  {
    && id < |w.log|
    && w.log[id].registered <= w.done[id] <= |w.core.observers|
    && CallsFor(w.calls, id) == SyncBelow(w.core.observers, w.done[id])
    && Times(w.emitted, id) == 1
    && Times(w.queued, id) == if AsyncBelow(w.core.observers, w.done[id]) then 1 else 0
  }

  predicate Holds(w: World, t: nat, id: nat) {
    t in w.threads && w.threads[t].id == id
  }

  ghost predicate Unsent(w: World, id: nat) {
    Times(w.emitted, id) == 0 && Times(w.queued, id) == 0
  }

  ghost predicate IdOk(w: World, id: nat) {
    if id in w.done then DoneOk(w, id)
    else Unsent(w, id) && if id < |w.log| then InFlight(w, id) else CallsFor(w.calls, id) == []
  }

  ghost predicate InFlight(w: World, id: nat)
    requires id < |w.log|
  {
    w.log[id].registered <= |w.core.observers| && exists t: nat :: Holds(w, t, id)
  }

  ghost predicate OneHolder(w: World) {
    forall t, u :: t in w.threads && u in w.threads && w.threads[t].id == w.threads[u].id ==> t == u
  }

  ghost predicate Coherent(w: World) {
    && (forall t :: t in w.threads ==> LocalOk(w, w.threads[t]))
    && OneHolder(w)
    && (forall id: nat :: IdOk(w, id))
  }

  lemma ObserversOnlyGrow(cfg: Config, core: Core, call: Call)
    ensures core.observers <= Do(cfg, core, call).core.observers
  {
  }

  lemma {:induction false} SyncBelowStable(observers: seq<Observer>, longer: seq<Observer>, k: nat)
    requires observers <= longer && k <= |observers|
    ensures SyncBelow(longer, k) == SyncBelow(observers, k)
    ensures AsyncBelow(longer, k) == AsyncBelow(observers, k)
  {
    if k > 0 {
      SyncBelowStable(observers, longer, k - 1);
    }
  }

  lemma CallsForLast(calls: seq<(nat, nat)>, id: nat, observer: nat, other: nat)
    ensures CallsFor(calls + [(id, observer)], other) ==
            CallsFor(calls, other) + if id == other then [observer] else []
  {
    assert (calls + [(id, observer)])[..|calls|] == calls;
  }

  // A call commits: the other threads stand where they stood.

  lemma InvokeKeepsLocal(cfg: Config, w: World, t: nat, call: Call, l: Local)
    requires Enabled(w, Invoke(t, call)) && LocalOk(w, l)
    ensures LocalOk(Next(cfg, w, Invoke(t, call)), l)
  {
    ObserversOnlyGrow(cfg, w.core, call);
    SyncBelowStable(w.core.observers, Next(cfg, w, Invoke(t, call)).core.observers, Passed(l));
  }

  lemma InvokeKeepsId(cfg: Config, w: World, t: nat, call: Call, id: nat)
    requires Enabled(w, Invoke(t, call)) && IdOk(w, id)
    ensures IdOk(Next(cfg, w, Invoke(t, call)), id)
  {
    var after := Next(cfg, w, Invoke(t, call));
    ObserversOnlyGrow(cfg, w.core, call);
    if id in w.done {
      SyncBelowStable(w.core.observers, after.core.observers, w.done[id]);
    } else if id < |w.log| {
      var u: nat :| Holds(w, u, id);
      assert Holds(after, u, id);
    } else if id < |after.log| {
      assert Holds(after, t, id);
    }
  }

  lemma InvokeKeepsCoherent(cfg: Config, w: World, t: nat, call: Call)
    requires Enabled(w, Invoke(t, call)) && Coherent(w)
    ensures Coherent(Next(cfg, w, Invoke(t, call)))
  {
    var after := Next(cfg, w, Invoke(t, call));
    forall id: nat
      ensures IdOk(after, id)
    {
      InvokeKeepsId(cfg, w, t, call, id);
    }
    forall u | u in after.threads
      ensures LocalOk(after, after.threads[u])
    {
      if u in w.threads {
        InvokeKeepsLocal(cfg, w, t, call, w.threads[u]);
      } else {
        assert IdOk(w, |w.log|);
      }
    }
  }

  // A thread moves on with its event: Load and Visit.

  lemma ProgressKeepsId(w: World, after: World, t: nat, id: nat)
    requires t in w.threads && t in after.threads && after.threads[t].id == w.threads[t].id
    requires after == w.(threads := w.threads[t := after.threads[t]], calls := after.calls)
    requires IdOk(w, id) && CallsFor(after.calls, id) == CallsFor(w.calls, id)
    ensures IdOk(after, id)
  {
    if id !in w.done && id < |w.log| {
      var u: nat :| Holds(w, u, id);
      assert Holds(after, u, id);
    }
  }

  lemma ProgressKeepsHolder(w: World, after: World, t: nat)
    requires t in w.threads && t in after.threads && after.threads[t].id == w.threads[t].id
    requires after == w.(threads := w.threads[t := after.threads[t]], calls := after.calls)
    requires LocalOk(w, w.threads[t]) && IdOk(w, w.threads[t].id)
    ensures IdOk(after, w.threads[t].id)
  {
    assert Holds(after, t, w.threads[t].id);
  }

  lemma LoadKeepsCoherent(cfg: Config, w: World, t: nat)
    requires Enabled(w, Load(t)) && Coherent(w)
    ensures Coherent(Next(cfg, w, Load(t)))
  {
    var after := Next(cfg, w, Load(t));
    forall id: nat
      ensures IdOk(after, id)
    {
      ProgressKeepsId(w, after, t, id);
    }
    forall u | u in after.threads
      ensures LocalOk(after, after.threads[u])
    {
      LoadKeepsLocal(cfg, w, t, u);
    }
  }

  lemma LoadKeepsLocal(cfg: Config, w: World, t: nat, u: nat)
    requires Enabled(w, Load(t)) && u in w.threads && LocalOk(w, w.threads[u])
    requires IdOk(w, w.threads[u].id)
    ensures var after := Next(cfg, w, Load(t)); LocalOk(after, after.threads[u])
  {
  }

  lemma VisitMovesOwn(cfg: Config, w: World, t: nat)
    requires Enabled(w, Visit(t)) && LocalOk(w, w.threads[t])
    ensures var after := Next(cfg, w, Visit(t)); LocalOk(after, after.threads[t])
  {
    var l := w.threads[t];
    TimesCalled(w, l);
  }

  /// One more slot passed, one more synchronous observer called.
  lemma TimesCalled(w: World, l: Local)
    requires l.Sending? && l.i < |w.core.observers|
    requires CallsFor(w.calls, l.id) == SyncBelow(w.core.observers, l.i)
    ensures (if w.core.observers[l.i].async then CallsFor(w.calls, l.id) else CallsFor(w.calls + [(l.id, l.i)], l.id)) ==
            SyncBelow(w.core.observers, l.i + 1)
    ensures AsyncBelow(w.core.observers, l.i + 1) <==> AsyncBelow(w.core.observers, l.i) || w.core.observers[l.i].async
  {
    CallsForLast(w.calls, l.id, l.i, l.id);
    assert SyncBelow(w.core.observers, l.i) + [] == SyncBelow(w.core.observers, l.i);
  }

  lemma VisitKeepsOther(cfg: Config, w: World, t: nat, u: nat)
    requires Enabled(w, Visit(t)) && u in w.threads && LocalOk(w, w.threads[u])
    requires u != t && w.threads[u].id != w.threads[t].id
    ensures var after := Next(cfg, w, Visit(t)); LocalOk(after, after.threads[u])
  {
    var l := w.threads[t];
    CallsForLast(w.calls, l.id, l.i, w.threads[u].id);
    assert CallsFor(w.calls, w.threads[u].id) + [] == CallsFor(w.calls, w.threads[u].id);
  }

  lemma VisitKeepsCoherent(cfg: Config, w: World, t: nat)
    requires Enabled(w, Visit(t)) && Coherent(w)
    ensures Coherent(Next(cfg, w, Visit(t)))
  {
    var after := Next(cfg, w, Visit(t));
    var l := w.threads[t];
    forall id: nat
      ensures IdOk(after, id)
    {
      CallsForLast(w.calls, l.id, l.i, id);
      if id == l.id {
        ProgressKeepsHolder(w, after, t);
      } else {
        ProgressKeepsId(w, after, t, id);
      }
    }
    forall u | u in after.threads
      ensures LocalOk(after, after.threads[u])
    {
      if u == t {
        VisitMovesOwn(cfg, w, t);
      } else {
        VisitKeepsOther(cfg, w, t, u);
      }
    }
  }

  // A thread leaves notify_all.

  lemma FinishKeepsOwnId(cfg: Config, w: World, t: nat)
    requires Enabled(w, Finish(t))
    requires LocalOk(w, w.threads[t]) && IdOk(w, w.threads[t].id)
    ensures IdOk(Next(cfg, w, Finish(t)), w.threads[t].id)
  {
    OnceSent(w, w.threads[t]);
  }

  lemma OnceSent(w: World, l: Local)
    requires l.Sending? && Unsent(w, l.id)
    ensures Times(w.emitted + [l.id], l.id) == 1
    ensures Times(if l.anyAsync then w.queued + [l.id] else w.queued, l.id) == if l.anyAsync then 1 else 0
  {
    TimesLast(w.emitted, l.id, l.id);
    TimesLast(w.queued, l.id, l.id);
  }

  lemma FinishKeepsId(cfg: Config, w: World, t: nat, id: nat)
    requires Enabled(w, Finish(t))
    requires IdOk(w, id) && id != w.threads[t].id
    ensures IdOk(Next(cfg, w, Finish(t)), id)
  {
    var after := Next(cfg, w, Finish(t));
    TimesLast(w.emitted, w.threads[t].id, id);
    TimesLast(w.queued, w.threads[t].id, id);
    if id !in w.done && id < |w.log| {
      var u: nat :| Holds(w, u, id);
      assert Holds(after, u, id);
    }
  }

  lemma FinishKeepsCoherent(cfg: Config, w: World, t: nat)
    requires Enabled(w, Finish(t)) && Coherent(w)
    ensures Coherent(Next(cfg, w, Finish(t)))
  {
    var after := Next(cfg, w, Finish(t));
    forall id: nat
      ensures IdOk(after, id)
    {
      if id == w.threads[t].id {
        FinishKeepsOwnId(cfg, w, t);
      } else {
        FinishKeepsId(cfg, w, t, id);
      }
    }
    forall u | u in after.threads
      ensures LocalOk(after, after.threads[u])
    {
    }
  }

  /// Every reachable world is coherent: each committed event is either finished or
  /// held by exactly one thread, and its callbacks so far are exactly the
  /// synchronous observers that thread has passed, in registration order.
  lemma {:induction false} AlwaysCoherent(cfg: Config, moves: seq<Move>)
    requires Possible(cfg, moves)
    ensures Coherent(After(cfg, moves))
  {
    if moves != [] {
      var before := moves[..|moves| - 1];
      AlwaysCoherent(cfg, before);
      var w, m := After(cfg, before), moves[|moves| - 1];
      match m {
        case Invoke(t, call) => InvokeKeepsCoherent(cfg, w, t, call);
        case Load(t) => LoadKeepsCoherent(cfg, w, t);
        case Visit(t) => VisitKeepsCoherent(cfg, w, t);
        case Finish(t) => FinishKeepsCoherent(cfg, w, t);
      }
    }
  }

  lemma {:induction false} SyncBelowCounts(observers: seq<Observer>, k: nat, o: nat)
    requires k <= |observers|
    ensures Times(SyncBelow(observers, k), o) == if o < k && !observers[o].async then 1 else 0
  {
    if k > 0 {
      SyncBelowCounts(observers, k - 1, o);
      TimesOneMore(SyncBelow(observers, k - 1), SyncBelow(observers, k), observers[k - 1].async, k - 1, o);
    }
  }

  lemma TimesOneMore(s: seq<nat>, longer: seq<nat>, skip: bool, x: nat, y: nat)
    requires longer == s + if skip then [] else [x]
    ensures Times(longer, y) == Times(s, y) + if !skip && x == y then 1 else 0
  {
    TimesLast(s, x, y);
    if skip {
      assert longer == s;
    }
  }

  predicate Increasing(s: seq<nat>, bound: nat) {
    && (forall i :: 0 <= i < |s| ==> s[i] < bound)
    && (forall i, j :: 0 <= i < j < |s| ==> s[i] < s[j])
  }

  lemma {:induction false} SyncBelowIncreases(observers: seq<Observer>, k: nat)
    requires k <= |observers|
    ensures Increasing(SyncBelow(observers, k), k)
  {
    if k > 0 {
      SyncBelowIncreases(observers, k - 1);
    }
  }

  /// No interleaving calls an observer twice for one event, calls an async
  /// observer inline, or departs from registration order.
  lemma AtMostOnceInOrder(cfg: Config, moves: seq<Move>, id: nat, o: nat)
    requires Possible(cfg, moves)
    ensures var w := After(cfg, moves);
            && Times(CallsFor(w.calls, id), o) <= 1
            && (Times(CallsFor(w.calls, id), o) == 1 ==> o < |w.core.observers| && !w.core.observers[o].async)
            && Increasing(CallsFor(w.calls, id), |w.core.observers|)
  {
    AlwaysCoherent(cfg, moves);
    var w := After(cfg, moves);
    assert IdOk(w, id);
    if id >= |w.log| {
    } else if id in w.done {
      SyncBelowCounts(w.core.observers, w.done[id], o);
      SyncBelowIncreases(w.core.observers, w.done[id]);
    } else {
      var t: nat :| Holds(w, t, id);
      SyncBelowCounts(w.core.observers, Passed(w.threads[t]), o);
      SyncBelowIncreases(w.core.observers, Passed(w.threads[t]));
    }
  }

  /// A synchronous observer registered before a commit has been called exactly
  /// once when that event's notify_all ends; the event went to the emit sink once,
  /// and to the async queue exactly when an async observer was registered by then.
  lemma ExactlyOnceWhenDone(cfg: Config, moves: seq<Move>, id: nat, o: nat)
    requires Possible(cfg, moves)
    requires id in After(cfg, moves).done
    requires id < |After(cfg, moves).log| ==> o < After(cfg, moves).log[id].registered
    ensures var w := After(cfg, moves);
            && id < |w.log|
            && o < |w.core.observers|
            && Times(CallsFor(w.calls, id), o) == (if w.core.observers[o].async then 0 else 1)
            && Times(w.emitted, id) == 1
            && Times(w.queued, id) <= 1
            && (w.core.observers[o].async ==> Times(w.queued, id) == 1)
  {
    AlwaysCoherent(cfg, moves);
    var w := After(cfg, moves);
    assert IdOk(w, id);
    SyncBelowCounts(w.core.observers, w.done[id], o);
  }

  /// Once no thread is inside notify_all, every committed event has been finished.
  lemma QuiescentMeansDelivered(cfg: Config, moves: seq<Move>, id: nat)
    requires Possible(cfg, moves)
    requires forall t: nat :: t !in After(cfg, moves).threads
    requires id < |After(cfg, moves).log|
    ensures id in After(cfg, moves).done
  {
    AlwaysCoherent(cfg, moves);
    var w := After(cfg, moves);
    assert IdOk(w, id);
  }

  /// A thread inside notify_all always has a next step of its own.
  lemma NotifyNeverStuck(cfg: Config, moves: seq<Move>, t: nat)
    requires Possible(cfg, moves) && t in After(cfg, moves).threads
    ensures exists m: Move :: m.t == t && !m.Invoke? && Enabled(After(cfg, moves), m)
  {
    AlwaysCoherent(cfg, moves);
    var w := After(cfg, moves);
    var l := w.threads[t];
    assert LocalOk(w, l);
    var m := if l.Committed? then Load(t) else if l.i < l.n then Visit(t) else Finish(t);
    assert m.t == t && !m.Invoke? && Enabled(w, m);
  }
}
