/// bb_fsm: a table-driven finite state machine with a fixed-size timer table.
///
/// Rows, guards, actions and entry/exit hooks are supplied by a client.  A guard
/// is a predicate over the client context; an action or hook returns the new
/// context together with the timer requests it issues, which the engine then
/// carries out one by one on its slot array.
module Fsm {
  import opened Wrappers

  type StateId = nat
  type EventId = nat

  datatype Status = Ok | NotFound | InvalidState | NoSpace

  datatype Match = Any | At(state: StateId)

  datatype Next = Same | Terminal | Goto(state: StateId)

  datatype TimerReq = Arm(event: EventId, ms: nat) | Disarm(event: EventId)

  datatype Effect<+C> = Effect(ctx: C, requests: seq<TimerReq>)

  datatype Row<!C, !D> = Row(
    state: Match,
    event: EventId,
    guard: (C, EventId, D) -> bool,
    action: (C, EventId, D) -> Effect<C>,
    next: Next)

  datatype Hooks<!C> = Hooks(state: StateId, onEntry: (C, StateId) -> Effect<C>, onExit: (C, StateId) -> Effect<C>)

  datatype Desc<!C, !D> = Desc(rows: seq<Row<C, D>>, states: seq<Hooks<C>>, initial: StateId)

  datatype Slot = Slot(event: EventId, ms: nat, armed: bool)

  /// The abstract view of an engine: the armed timers form a partial map.
  datatype Machine<+C> = Machine(current: StateId, terminal: bool, timers: map<EventId, nat>, ctx: C)

  // ------------------------------------------------------------------------
  // Specification: the timer table as a capacity-bounded map
  // ------------------------------------------------------------------------

  function ArmSpec(capacity: nat, timers: map<EventId, nat>, event: EventId, ms: nat): (Status, map<EventId, nat>) {
    if event in timers then (Ok, if ms == 0 then timers - {event} else timers[event := ms])
    else if ms == 0 then (Ok, timers)
    else if |timers| >= capacity then (NoSpace, timers)
    else (Ok, timers[event := ms])
  }

  function Apply(capacity: nat, timers: map<EventId, nat>, req: TimerReq): map<EventId, nat> {
    match req
    case Arm(event, ms) => ArmSpec(capacity, timers, event, ms).1
    case Disarm(event) => timers - {event}
  }

  function ApplyAll(capacity: nat, timers: map<EventId, nat>, reqs: seq<TimerReq>): map<EventId, nat> {
    if reqs == [] then timers
    else Apply(capacity, ApplyAll(capacity, timers, reqs[..|reqs| - 1]), reqs[|reqs| - 1])
  }

  // ------------------------------------------------------------------------
  // Specification: one step
  // ------------------------------------------------------------------------

  predicate RowMatches<C, D>(row: Row<C, D>, current: StateId, ctx: C, event: EventId, data: D) {
    && (row.state == Any || row.state == At(current))
    && row.event == event
    && row.guard(ctx, event, data)
  }

  /// Index of the first matching row at or after position `from`.
  function FirstRow<C, D>(rows: seq<Row<C, D>>, from: nat, current: StateId, ctx: C, event: EventId, data: D): (r: Option<nat>)
    requires from <= |rows|
    ensures r.Some? ==> from <= r.value < |rows| && RowMatches(rows[r.value], current, ctx, event, data)
    ensures forall i :: from <= i < (if r.Some? then r.value else |rows|) ==>
                !RowMatches(rows[i], current, ctx, event, data)
    decreases |rows| - from
  {
    if from == |rows| then None
    else if RowMatches(rows[from], current, ctx, event, data) then Some(from)
    else FirstRow(rows, from + 1, current, ctx, event, data)
  }

  function Lookup<C>(states: seq<Hooks<C>>, state: StateId): (r: Option<nat>)
    ensures r.Some? ==> r.value < |states| && states[r.value].state == state
    ensures forall i :: 0 <= i < (if r.Some? then r.value else |states|) ==> states[i].state != state
  {
    if states == [] then None
    else if states[0].state == state then Some(0)
    else
      var r := Lookup(states[1..], state);
      assert forall i :: 1 <= i < |states| ==> states[i] == states[1..][i - 1];
      if r.Some? then Some(r.value + 1) else None
  }

  function EntryEffect<C, D>(desc: Desc<C, D>, ctx: C, state: StateId): Effect<C> {
    var i := Lookup(desc.states, state);
    if i.Some? then desc.states[i.value].onEntry(ctx, state) else Effect(ctx, [])
  }

  function ExitEffect<C, D>(desc: Desc<C, D>, ctx: C, state: StateId): Effect<C> {
    var i := Lookup(desc.states, state);
    if i.Some? then desc.states[i.value].onExit(ctx, state) else Effect(ctx, [])
  }

  function Enter<C, D>(desc: Desc<C, D>, capacity: nat, ctx: C, state: StateId): Machine<C> {
    var e := EntryEffect(desc, ctx, state);
    Machine(state, false, ApplyAll(capacity, map[], e.requests), e.ctx)
  }

  /// What the selected row does to the machine.
  function Fire<C, D>(desc: Desc<C, D>, capacity: nat, m: Machine<C>, row: Row<C, D>, event: EventId, data: D): Machine<C> {
    var a := row.action(m.ctx, event, data);
    match row.next
    case Same => m.(timers := ApplyAll(capacity, m.timers, a.requests), ctx := a.ctx)
    case Terminal => m.(terminal := true, timers := map[], ctx := a.ctx)
    case Goto(state) => Enter(desc, capacity, ExitEffect(desc, a.ctx, m.current).ctx, state)
  }

  function Step<C, D>(desc: Desc<C, D>, capacity: nat, m: Machine<C>, event: EventId, data: D): (Status, Machine<C>) {
    if m.terminal then (InvalidState, m)
    else
      var r := FirstRow(desc.rows, 0, m.current, m.ctx, event, data);
      if r.None? then (NotFound, m) else (Ok, Fire(desc, capacity, m, desc.rows[r.value], event, data))
  }

  /// The row is for the machine's state or for any, for the event, and lets the event pass.
  predicate Fits<C, D>(row: Row<C, D>, m: Machine<C>, event: EventId, data: D) {
    (row.state.Any? || row.state.state == m.current) && row.event == event && row.guard(m.ctx, event, data)
  }

  /// Row `k` fits and no earlier row does.
  ghost predicate FirstMatch<C, D>(desc: Desc<C, D>, m: Machine<C>, event: EventId, data: D, k: nat) {
    && k < |desc.rows|
    && Fits(desc.rows[k], m, event, data)
    && forall i :: 0 <= i < k ==> !Fits(desc.rows[i], m, event, data)
  }

  /// A step is refused exactly on a terminal machine; otherwise it succeeds exactly when
  /// some row matches, and then it fires the first one, and else changes nothing.
  lemma StepOutcome<C, D>(desc: Desc<C, D>, capacity: nat, m: Machine<C>, event: EventId, data: D)
    ensures var r := Step(desc, capacity, m, event, data);
            && (r.0 == InvalidState <==> m.terminal)
            && (r.0 == Ok <==> !m.terminal && exists k: nat :: FirstMatch(desc, m, event, data, k))
            && (r.0 == NotFound <==>
                  !m.terminal && forall i :: 0 <= i < |desc.rows| ==> !Fits(desc.rows[i], m, event, data))
            && (r.0 != Ok ==> r.1 == m)
            && (forall k: nat :: r.0 == Ok && FirstMatch(desc, m, event, data, k) ==>
                  r.1 == Fire(desc, capacity, m, desc.rows[k], event, data))
  {
    var f := FirstRow(desc.rows, 0, m.current, m.ctx, event, data);
    forall i | 0 <= i < |desc.rows|
      ensures Fits(desc.rows[i], m, event, data) <==> RowMatches(desc.rows[i], m.current, m.ctx, event, data)
    {
    }
    if f.Some? {
      assert FirstMatch(desc, m, event, data, f.value);
    }
  }

  /// Naming the first matching row settles the outcome of a step.
  lemma StepFiresRow<C, D>(desc: Desc<C, D>, capacity: nat, m: Machine<C>, event: EventId, data: D, k: nat)
    requires !m.terminal && FirstMatch(desc, m, event, data, k)
    ensures Step(desc, capacity, m, event, data) == (Ok, Fire(desc, capacity, m, desc.rows[k], event, data))
  {
    var r := FirstRow(desc.rows, 0, m.current, m.ctx, event, data);
    assert r == Some(k);
  }

  // ------------------------------------------------------------------------
  // Which hooks a step runs, and what becomes of the timers
  // ------------------------------------------------------------------------

  datatype Mark = Acted(event: EventId) | Exited(state: StateId) | Entered(state: StateId)

  /// A client that keeps a log: every action and hook appends its mark.
  ghost predicate KeepsLog<D(!new)>(desc: Desc<seq<Mark>, D>) {
    && (forall k, log, event, data :: 0 <= k < |desc.rows| ==>
          desc.rows[k].action(log, event, data).ctx == log + [Acted(event)])
    && (forall k, log, state :: 0 <= k < |desc.states| ==> desc.states[k].onEntry(log, state).ctx == log + [Entered(state)])
    && (forall k, log, state :: 0 <= k < |desc.states| ==> desc.states[k].onExit(log, state).ctx == log + [Exited(state)])
  }

  predicate Described<C, D>(desc: Desc<C, D>, state: StateId) {
    exists k :: 0 <= k < |desc.states| && desc.states[k].state == state
  }

  /// What the log of a client shows: the action of the first fitting row, then, only if the row
  /// leads to a state (its own included), the exit hook of the old state and the entry hook of
  /// the new one.
  lemma HooksInOrder<D(!new)>(desc: Desc<seq<Mark>, D>, capacity: nat, m: Machine<seq<Mark>>,
                              event: EventId, data: D, k: nat)
    requires KeepsLog(desc) && !m.terminal && FirstMatch(desc, m, event, data, k)
    ensures var n, next := Step(desc, capacity, m, event, data).1, desc.rows[k].next;
            && n.ctx == m.ctx + [Acted(event)]
                 + (if next.Goto? && Described(desc, m.current) then [Exited(m.current)] else [])
                 + (if next.Goto? && Described(desc, next.state) then [Entered(next.state)] else [])
            && n.current == (if next.Goto? then next.state else m.current)
            && n.terminal == next.Terminal?
  {
    StepFiresRow(desc, capacity, m, event, data, k);
    var log := m.ctx + [Acted(event)];
    assert log + [] == log && log + [] + [] == log;
    if desc.rows[k].next.Goto? {
      LogOfGoto(desc, log, m.current, desc.rows[k].next.state);
    }
  }

  lemma LogOfGoto<D(!new)>(desc: Desc<seq<Mark>, D>, log: seq<Mark>, from: StateId, state: StateId)
    requires KeepsLog(desc)
    ensures EntryEffect(desc, ExitEffect(desc, log, from).ctx, state).ctx ==
            log + (if Described(desc, from) then [Exited(from)] else []) + (if Described(desc, state) then [Entered(state)] else [])
  {
    var out := ExitEffect(desc, log, from).ctx;
    assert log + [] == log && out + [] == out;
  }

  /// A start runs the entry hook of the initial state.
  lemma StartEnters<D(!new)>(desc: Desc<seq<Mark>, D>, capacity: nat, log: seq<Mark>)
    requires KeepsLog(desc)
    ensures var m := Enter(desc, capacity, log, desc.initial);
            m.current == desc.initial && !m.terminal && m.ctx == log + if Described(desc, m.current) then [Entered(m.current)] else []
  {
    assert log + [] == log;
  }

  predicate Asks(reqs: seq<TimerReq>, event: EventId) {
    exists i :: 0 <= i < |reqs| && reqs[i].event == event
  }

  lemma RequestTouchesOnly(capacity: nat, timers: map<EventId, nat>, req: TimerReq, event: EventId)
    requires req.event != event
    ensures var after := Apply(capacity, timers, req);
            (event in after <==> event in timers) && (event in timers ==> after[event] == timers[event])
  {}

  lemma {:induction false} RequestsTouchOnly(capacity: nat, timers: map<EventId, nat>, reqs: seq<TimerReq>, event: EventId)
    requires !Asks(reqs, event)
    ensures var after := ApplyAll(capacity, timers, reqs);
            (event in after <==> event in timers) && (event in timers ==> after[event] == timers[event])
  {
    hide Apply;
    if reqs != [] {
      var before := reqs[..|reqs| - 1];
      assert reqs[|reqs| - 1].event != event;
      RequestTouchesOnly(capacity, ApplyAll(capacity, timers, before), reqs[|reqs| - 1], event);
      forall i | 0 <= i < |before| ensures before[i].event != event { assert before[i] == reqs[i]; }
      RequestsTouchOnly(capacity, timers, before, event);
    }
  }

  /// A row that stays leaves alone every timer its action does not ask about; a row that leads
  /// to a state leaves none armed but those the entry hook asked for.
  lemma TimersAcrossStep<C, D>(desc: Desc<C, D>, capacity: nat, m: Machine<C>, event: EventId, data: D, k: nat, timer: EventId)
    requires !m.terminal && FirstMatch(desc, m, event, data, k)
    ensures var n, row := Step(desc, capacity, m, event, data).1, desc.rows[k];
            && (row.next.Same? && !Asks(row.action(m.ctx, event, data).requests, timer) ==>
                  (timer in n.timers <==> timer in m.timers) && (timer in m.timers ==> n.timers[timer] == m.timers[timer]))
            && (row.next.Goto? && timer in n.timers ==>
                  var before := ExitEffect(desc, row.action(m.ctx, event, data).ctx, m.current).ctx;
                  Asks(EntryEffect(desc, before, row.next.state).requests, timer))
  {
    StepFiresRow(desc, capacity, m, event, data, k);
    var row := desc.rows[k];
    var a := row.action(m.ctx, event, data);
    if row.next.Same? && !Asks(a.requests, timer) {
      RequestsTouchOnly(capacity, m.timers, a.requests, timer);
    } else if row.next.Goto? {
      var reqs := EntryEffect(desc, ExitEffect(desc, a.ctx, m.current).ctx, row.next.state).requests;
      if !Asks(reqs, timer) {
        RequestsTouchOnly(capacity, map[], reqs, timer);
      }
    }
  }

  // ------------------------------------------------------------------------
  // Runs
  // ------------------------------------------------------------------------

  datatype Input<+D> = Input(event: EventId, data: D)

  function Run<C, D>(desc: Desc<C, D>, capacity: nat, m: Machine<C>, inputs: seq<Input<D>>): Machine<C> {
    if inputs == [] then m
    else
      var last := inputs[|inputs| - 1];
      Step(desc, capacity, Run(desc, capacity, m, inputs[..|inputs| - 1]), last.event, last.data).1
  }

  /// A terminal machine refuses every later input and never changes again.
  lemma {:induction false} TerminalIsFinal<C, D>(desc: Desc<C, D>, capacity: nat, m: Machine<C>, inputs: seq<Input<D>>, event: EventId, data: D)
    requires m.terminal
    ensures Run(desc, capacity, m, inputs) == m
    ensures Step(desc, capacity, Run(desc, capacity, m, inputs), event, data) == (InvalidState, m)
  {
    if inputs != [] {
      var last := inputs[|inputs| - 1];
      TerminalIsFinal(desc, capacity, m, inputs[..|inputs| - 1], last.event, last.data);
    }
  }

  /// The latch only ever closes, and it closes with an empty timer table.
  lemma {:induction false} TerminalHasNoTimers<C, D>(desc: Desc<C, D>, capacity: nat, m: Machine<C>, inputs: seq<Input<D>>)
    requires m.terminal ==> m.timers == map[]
    ensures Run(desc, capacity, m, inputs).terminal ==> Run(desc, capacity, m, inputs).timers == map[]
  {
    if inputs != [] {
      TerminalHasNoTimers(desc, capacity, m, inputs[..|inputs| - 1]);
    }
  }

  ghost predicate Bounded(capacity: nat, timers: map<EventId, nat>) {
    && |timers| <= capacity
    && forall e :: e in timers ==> timers[e] > 0
  }

  /// What arming does: refused only for a new key in a full table; otherwise the key waits the
  /// given time, or not at all if that is 0, and no other key changes.  Disarming removes its key.
  lemma ArmingIsExact(capacity: nat, timers: map<EventId, nat>, event: EventId, ms: nat, other: EventId)
    ensures var (status, after) := ArmSpec(capacity, timers, event, ms);
            && (status == NoSpace <==> ms > 0 && event !in timers && |timers| >= capacity)
            && (status == NoSpace ==> after == timers)
            && (status != NoSpace ==> status == Ok && (event in after <==> ms > 0) && (ms > 0 ==> after[event] == ms))
            && (other != event ==> (other in after <==> other in timers) && (other in after ==> after[other] == timers[other]))
    ensures var after := Apply(capacity, timers, Disarm(event));
            && event !in after
            && (other != event ==> (other in after <==> other in timers) && (other in after ==> after[other] == timers[other]))
    ensures Apply(capacity, timers, Arm(event, ms)) == ArmSpec(capacity, timers, event, ms).1
  {}

  lemma MapSizes(timers: map<EventId, nat>, event: EventId, ms: nat)
    ensures |timers[event := ms]| == |timers| + if event in timers then 0 else 1
    ensures |timers - {event}| == |timers| - if event in timers then 1 else 0
  {
    assert (timers[event := ms]).Keys == timers.Keys + {event};
    assert (timers - {event}).Keys == timers.Keys - {event};
    assert |timers.Keys| == |timers|;
    assert |(timers[event := ms]).Keys| == |timers[event := ms]|;
    assert |(timers - {event}).Keys| == |timers - {event}|;
    if event in timers { assert timers.Keys + {event} == timers.Keys; }
    else { assert timers.Keys - {event} == timers.Keys; }
  }

  lemma RequestStaysBounded(capacity: nat, timers: map<EventId, nat>, req: TimerReq)
    requires Bounded(capacity, timers)
    ensures Bounded(capacity, Apply(capacity, timers, req))
  {
    MapSizes(timers, req.event, if req.Arm? then req.ms else 0);
  }

  /// The armed map never outgrows the slot array and never holds a 0 ms timer.
  lemma {:induction false} RequestsStayBounded(capacity: nat, timers: map<EventId, nat>, reqs: seq<TimerReq>)
    requires Bounded(capacity, timers)
    ensures Bounded(capacity, ApplyAll(capacity, timers, reqs))
  {
    if reqs != [] {
      RequestsStayBounded(capacity, timers, reqs[..|reqs| - 1]);
      RequestStaysBounded(capacity, ApplyAll(capacity, timers, reqs[..|reqs| - 1]), reqs[|reqs| - 1]);
    }
  }

  // ------------------------------------------------------------------------
  // The slot array as a map
  // ------------------------------------------------------------------------

  ghost predicate Holds(s: seq<Slot>, i: int, event: EventId) {
    0 <= i < |s| && s[i].armed && s[i].event == event
  }

  /// At most one armed slot per event, and no armed slot waits 0 ms.
  ghost predicate Distinct(s: seq<Slot>) {
    && (forall i, j :: 0 <= i < j < |s| && s[i].armed && s[j].armed ==> s[i].event != s[j].event)
    && (forall i :: 0 <= i < |s| && s[i].armed ==> s[i].ms > 0)
  }

  ghost function Keys(s: seq<Slot>): set<EventId> {
    set i | 0 <= i < |s| && s[i].armed :: s[i].event
  }

  ghost function SlotOf(s: seq<Slot>, event: EventId): nat
    requires event in Keys(s)
    ensures Holds(s, SlotOf(s, event), event)
  {
    var i :| 0 <= i < |s| && s[i].armed && s[i].event == event;
    i
  }

  ghost function Table(s: seq<Slot>): map<EventId, nat> {
    map e | e in Keys(s) :: s[SlotOf(s, e)].ms
  }

  lemma TableReadsSlot(s: seq<Slot>, i: nat)
    requires Distinct(s) && i < |s| && s[i].armed
    ensures s[i].event in Table(s) && Table(s)[s[i].event] == s[i].ms
  {
    var j := SlotOf(s, s[i].event);
    assert j == i;
  }

  function CountArmed(s: seq<Slot>): nat {
    if s == [] then 0 else CountArmed(s[..|s| - 1]) + if s[|s| - 1].armed then 1 else 0
  }

  lemma KeysIffSlot(s: seq<Slot>, event: EventId)
    ensures event in Keys(s) <==> exists i :: Holds(s, i, event)
  {
    if event in Keys(s) { assert Holds(s, SlotOf(s, event), event); }
    if exists i :: Holds(s, i, event) {
      var i :| Holds(s, i, event);
      assert s[i].event in Keys(s);
    }
  }

  lemma KeysSnoc(s: seq<Slot>)
    requires s != []
    ensures Keys(s) == Keys(s[..|s| - 1]) + if s[|s| - 1].armed then {s[|s| - 1].event} else {}
  {
    var t, n := s[..|s| - 1], |s| - 1;
    forall e ensures e in Keys(s) <==> e in Keys(t) || (s[n].armed && s[n].event == e) {
      KeysIffSlot(s, e);
      KeysIffSlot(t, e);
      forall i | Holds(t, i, e) ensures Holds(s, i, e) {}
      forall i | Holds(s, i, e) ensures Holds(t, i, e) || i == n {}
    }
  }

  lemma {:induction false} CountIsKeySize(s: seq<Slot>)
    requires Distinct(s)
    ensures CountArmed(s) == |Keys(s)|
  {
    if s != [] {
      CountIsKeySize(s[..|s| - 1]);
      KeysSnoc(s);
      if s[|s| - 1].armed {
        KeysIffSlot(s[..|s| - 1], s[|s| - 1].event);
      }
    }
  }

  lemma TableHasKeys(s: seq<Slot>)
    ensures Table(s).Keys == Keys(s)
  {}

  /// The event is armed in no slot but this one.
  ghost predicate OnlyAt(s: seq<Slot>, i: nat, event: EventId) {
    forall j :: Holds(s, j, event) ==> j == i
  }

  /// A map update is exactly an overwrite of a free slot or of the event's own slot.
  lemma TableAfterWrite(s: seq<Slot>, i: nat, event: EventId, ms: nat)
    requires Distinct(s) && i < |s| && ms > 0
    requires OnlyAt(s, i, event)
    requires s[i].armed ==> s[i].event == event
    ensures Distinct(s[i := Slot(event, ms, true)])
    ensures Table(s[i := Slot(event, ms, true)]) == Table(s)[event := ms]
  {
    var t := s[i := Slot(event, ms, true)];
    WriteKeepsDistinct(s, i, event, ms);
    forall e ensures (e in Table(t) <==> e in Table(s) || e == event)
             ensures e in Table(t) ==> Table(t)[e] == if e == event then ms else Table(s)[e]
    {
      WriteReadsBack(s, i, event, ms, e);
    }
  }

  lemma WriteKeepsDistinct(s: seq<Slot>, i: nat, event: EventId, ms: nat)
    requires Distinct(s) && i < |s| && ms > 0
    requires OnlyAt(s, i, event)
    ensures Distinct(s[i := Slot(event, ms, true)])
  {
    forall j | 0 <= j < |s| && j != i && s[j].armed ensures s[j].event != event {
      assert !Holds(s, j, event);
    }
  }

  lemma WriteReadsBack(s: seq<Slot>, i: nat, event: EventId, ms: nat, e: EventId)
    requires Distinct(s) && i < |s| && Distinct(s[i := Slot(event, ms, true)])
    requires s[i].armed ==> s[i].event == event
    ensures var t := s[i := Slot(event, ms, true)];
            && (e in Table(t) <==> e in Table(s) || e == event)
            && (e in Table(t) ==> Table(t)[e] == if e == event then ms else Table(s)[e])
  {
    var t := s[i := Slot(event, ms, true)];
    SameElsewhere(s, t, i, event, e);
    if e == event { TableReadsSlot(t, i); }
  }

  /// A write to slot `i` that concerns only `event` leaves every other event as it was.
  lemma SameElsewhere(s: seq<Slot>, t: seq<Slot>, i: nat, event: EventId, e: EventId)
    requires Distinct(s) && Distinct(t) && |t| == |s| && i < |s|
    requires forall j :: 0 <= j < |s| && j != i ==> t[j] == s[j]
    requires (s[i].armed ==> s[i].event == event) && (t[i].armed ==> t[i].event == event)
    ensures e != event ==> (e in Keys(t) <==> e in Keys(s))
    ensures e != event && e in Keys(t) ==> Table(t)[e] == Table(s)[e]
  {
    if e == event { return; }
    KeysIffSlot(s, e);
    KeysIffSlot(t, e);
    if e in Keys(s) {
      var j := SlotOf(s, e);
      assert Holds(t, j, e);
      TableReadsSlot(s, j);
      TableReadsSlot(t, j);
    }
    if e in Keys(t) {
      assert Holds(s, SlotOf(t, e), e);
    }
  }

  lemma EraseReadsBack(s: seq<Slot>, i: nat, e: EventId)
    requires Distinct(s) && i < |s| && s[i].armed && Distinct(s[i := s[i].(armed := false)])
    ensures var t := s[i := s[i].(armed := false)];
            && (e in Table(t) <==> e in Table(s) && e != s[i].event)
            && (e in Table(t) ==> Table(t)[e] == Table(s)[e])
  {
    var t := s[i := s[i].(armed := false)];
    SameElsewhere(s, t, i, s[i].event, e);
    if e == s[i].event {
      KeysIffSlot(t, e);
      forall j ensures !Holds(t, j, e) {}
    }
  }

  /// Disarming a slot removes exactly its event from the map.
  lemma TableAfterErase(s: seq<Slot>, i: nat)
    requires Distinct(s) && i < |s| && s[i].armed
    ensures Distinct(s[i := s[i].(armed := false)])
    ensures Table(s[i := s[i].(armed := false)]) == Table(s) - {s[i].event}
  {
    var t := s[i := s[i].(armed := false)];
    forall e ensures (e in Table(t) <==> e in Table(s) && e != s[i].event)
             ensures e in Table(t) ==> Table(t)[e] == Table(s)[e]
    {
      EraseReadsBack(s, i, e);
    }
  }

  /// A full slot array is a map of full size.
  lemma {:induction false} FullCount(s: seq<Slot>)
    ensures CountArmed(s) <= |s|
    ensures CountArmed(s) == |s| <==> forall i :: 0 <= i < |s| ==> s[i].armed
  {
    if s != [] {
      FullCount(s[..|s| - 1]);
      assert forall i :: 0 <= i < |s| - 1 ==> s[i] == s[..|s| - 1][i];
    }
  }

  /// The i-th armed slot in slot order, as enumerated for the shell.
  function NthArmed(s: seq<Slot>, i: nat): (r: Option<nat>)
    ensures r.Some? ==> r.value < |s| && s[r.value].armed
  {
    if s == [] then None
    else
      var t := s[..|s| - 1];
      if i < CountArmed(t) then NthArmed(t, i)
      else if s[|s| - 1].armed && i == CountArmed(t) then Some(|s| - 1)
      else None
  }

  /// Position of an armed slot in the enumeration.
  function Rank(s: seq<Slot>, j: nat): nat
    requires j <= |s|
  {
    CountArmed(s[..j])
  }

  lemma {:induction false} NthArmedInvertsRank(s: seq<Slot>, j: nat)
    requires j < |s| && s[j].armed
    ensures Rank(s, j) < CountArmed(s) && NthArmed(s, Rank(s, j)) == Some(j)
  {
    var t := s[..|s| - 1];
    if j == |s| - 1 {
      assert s[..j] == t;
    } else {
      NthArmedInvertsRank(t, j);
      assert t[..j] == s[..j];
    }
  }

  lemma {:induction false} RankInvertsNthArmed(s: seq<Slot>, i: nat)
    ensures NthArmed(s, i).Some? <==> i < CountArmed(s)
    ensures i < CountArmed(s) ==> Rank(s, NthArmed(s, i).value) == i
  {
    if s != [] {
      var t := s[..|s| - 1];
      RankInvertsNthArmed(t, i);
      if i < CountArmed(t) {
        assert s[..NthArmed(t, i).value] == t[..NthArmed(t, i).value];
      }
    }
  }

  /// The shell's query at index `i` reports event `e` with its armed delay.
  ghost predicate Reports(s: seq<Slot>, i: nat, e: EventId) {
    && NthArmed(s, i).Some?
    && s[NthArmed(s, i).value].event == e
    && e in Table(s)
    && s[NthArmed(s, i).value].ms == Table(s)[e]
  }

  /// Indices 0 .. count-1 enumerate the armed map without repetition or omission.
  lemma EnumerationIsBijective(s: seq<Slot>)
    requires Distinct(s)
    ensures forall i: nat :: NthArmed(s, i).Some? <==> i < |Table(s)|
    ensures forall i: nat, j: nat, e :: Reports(s, i, e) && Reports(s, j, e) ==> i == j
    ensures forall e :: e in Table(s) <==> exists i: nat :: Reports(s, i, e)
  {
    CountIsKeySize(s);
    TableHasKeys(s);
    forall i: nat ensures NthArmed(s, i).Some? <==> i < |Table(s)| {
      RankInvertsNthArmed(s, i);
    }
    forall i: nat, j: nat, e | Reports(s, i, e) && Reports(s, j, e) ensures i == j {
      RankInvertsNthArmed(s, i);
      RankInvertsNthArmed(s, j);
    }
    forall e | e in Table(s) ensures exists i: nat :: Reports(s, i, e) {
      var k := SlotOf(s, e);
      NthArmedInvertsRank(s, k);
      TableReadsSlot(s, k);
      assert Reports(s, Rank(s, k), e);
    }
  }
}
