/// The imperative engine: a slot array, a current state and a terminal latch,
/// proved step by step against the map-level specification of module Fsm.
module FsmEngine {
  import opened Wrappers
  import opened Fsm

  class Engine<C, D> {
    const desc: Desc<C, D>
    const timers: array<Slot>
    var current: StateId
    var terminal: bool
    var ctx: C

    ghost predicate Valid()
      reads this, timers
    {
      Distinct(timers[..])
    }

    ghost function Armed(): map<EventId, nat>
      reads this, timers
    {
      Table(timers[..])
    }

    ghost function View(): Machine<C>
      reads this, timers
    {
      Machine(current, terminal, Armed(), ctx)
    }

    /// bb_fsm_init: timers cleared, then the initial state's entry hook runs.
    constructor (desc: Desc<C, D>, capacity: nat, ctx: C)
      ensures fresh(timers) && timers.Length == capacity && this.desc == desc
      ensures Valid() && View() == Enter(desc, capacity, ctx, desc.initial)
    {
      this.desc := desc;
      this.timers := new Slot[capacity](i => Slot(0, 0, false));
      this.current := desc.initial;
      this.terminal := false;
      this.ctx := ctx;
      new;
      assert Keys(timers[..]) == {};
      assert Armed() == map[];
      RunEntry(desc.initial);
    }

    method ClearTimers()
      modifies timers
      ensures Valid() && Armed() == map[]
    {
      for i := 0 to timers.Length
        invariant forall j :: 0 <= j < i ==> !timers[j].armed
      {
        timers[i] := timers[i].(armed := false);
      }
      assert Keys(timers[..]) == {};
    }

    /// bb_fsm_arm_timer: re-arm in place, disarm on 0 ms, else take the first free slot.
    method ArmTimer(event: EventId, ms: nat) returns (status: Status)
      requires Valid()
      modifies timers
      ensures Valid()
      ensures (status, Armed()) == ArmSpec(timers.Length, old(Armed()), event, ms)
    {
      ghost var s := timers[..];
      var freeSlot := -1;
      for i := 0 to timers.Length
        invariant timers[..] == s
        invariant forall j :: 0 <= j < i ==> !Holds(s, j, event)
        invariant freeSlot < 0 ==> forall j :: 0 <= j < i ==> s[j].armed
        invariant freeSlot >= 0 ==> freeSlot < i && !s[freeSlot].armed
      {
        if timers[i].armed && timers[i].event == event {
          assert Holds(s, i, event);
          TableReadsSlot(s, i);
          if ms == 0 {
            TableAfterErase(s, i);
            timers[i] := timers[i].(armed := false);
            assert timers[..] == s[i := s[i].(armed := false)];
          } else {
            TableAfterWrite(s, i, event, ms);
            timers[i] := timers[i].(ms := ms);
            assert timers[..] == s[i := Slot(event, ms, true)];
          }
          return Ok;
        }
        if !timers[i].armed && freeSlot < 0 {
          freeSlot := i;
        }
      }
      KeysIffSlot(s, event);
      CountIsKeySize(s);
      TableHasKeys(s);
      FullCount(s);
      if ms == 0 {
        return Ok;
      }
      if freeSlot < 0 {
        return NoSpace;
      }
      TableAfterWrite(s, freeSlot, event, ms);
      timers[freeSlot] := Slot(event, ms, true);
      assert timers[..] == s[freeSlot := Slot(event, ms, true)];
      return Ok;
    }

    method DisarmTimer(event: EventId)
      requires Valid()
      modifies timers
      ensures Valid() && Armed() == old(Armed()) - {event}
    {
      ghost var s := timers[..];
      for i := 0 to timers.Length
        invariant timers[..] == s
        invariant forall j :: 0 <= j < i ==> !Holds(s, j, event)
      {
        if timers[i].armed && timers[i].event == event {
          TableAfterErase(s, i);
          timers[i] := timers[i].(armed := false);
          assert timers[..] == s[i := s[i].(armed := false)];
          return;
        }
      }
      KeysIffSlot(s, event);
      assert Table(s) - {event} == Table(s);
    }

    method TimerCount() returns (count: nat)
      requires Valid()
      ensures count == |Armed()|
    {
      count := 0;
      for i := 0 to timers.Length
        invariant count == CountArmed(timers[..i])
      {
        assert timers[..i + 1][..i] == timers[..i];
        if timers[i].armed {
          count := count + 1;
        }
      }
      assert timers[..timers.Length] == timers[..];
      CountIsKeySize(timers[..]);
      TableHasKeys(timers[..]);
    }

    /// bb_fsm_timer_at: the shell walks indices 0, 1, ... until it gets nothing back.
    method TimerAt(i: nat) returns (r: Option<(EventId, nat)>)
      requires Valid()
      ensures r.Some? <==> i < |Armed()|
      ensures r.Some? ==> Reports(timers[..], i, r.value.0) && Armed()[r.value.0] == r.value.1
    {
      ghost var s := timers[..];
      CountIsKeySize(s);
      TableHasKeys(s);
      var seen := 0;
      for idx := 0 to timers.Length
        invariant seen == CountArmed(s[..idx]) <= i
      {
        assert s[..idx + 1][..idx] == s[..idx];
        if timers[idx].armed {
          if seen == i {
            NthArmedInvertsRank(s, idx);
            TableReadsSlot(s, idx);
            return Some((timers[idx].event, timers[idx].ms));
          }
          seen := seen + 1;
        }
      }
      assert s[..timers.Length] == s;
      RankInvertsNthArmed(s, i);
      return None;
    }

    method Issue(requests: seq<TimerReq>)
      requires Valid()
      modifies timers
      ensures Valid() && Armed() == ApplyAll(timers.Length, old(Armed()), requests)
    {
      ghost var before := Armed();
      for i := 0 to |requests|
        invariant Valid() && Armed() == ApplyAll(timers.Length, before, requests[..i])
      {
        assert requests[..i + 1][..i] == requests[..i];
        match requests[i]
        case Arm(event, ms) => var _ := ArmTimer(event, ms);
        case Disarm(event) => DisarmTimer(event);
      }
      assert requests[..|requests|] == requests;
    }

    method FindHooks(state: StateId) returns (r: Option<nat>)
      ensures r == Lookup(desc.states, state)
    {
      for i := 0 to |desc.states|
        invariant forall j :: 0 <= j < i ==> desc.states[j].state != state
      {
        if desc.states[i].state == state {
          return Some(i);
        }
      }
      return None;
    }

    method RunEntry(state: StateId)
      requires Valid()
      modifies this`ctx, timers
      ensures Valid() && ctx == EntryEffect(desc, old(ctx), state).ctx
      ensures Armed() == ApplyAll(timers.Length, old(Armed()), EntryEffect(desc, old(ctx), state).requests)
    {
      var i := FindHooks(state);
      if i.Some? {
        var e := desc.states[i.value].onEntry(ctx, state);
        ctx := e.ctx;
        Issue(e.requests);
      }
    }

    method RunExit(state: StateId)
      requires Valid()
      modifies this`ctx, timers
      ensures Valid() && ctx == ExitEffect(desc, old(ctx), state).ctx
      ensures Armed() == ApplyAll(timers.Length, old(Armed()), ExitEffect(desc, old(ctx), state).requests)
    {
      var i := FindHooks(state);
      if i.Some? {
        var e := desc.states[i.value].onExit(ctx, state);
        ctx := e.ctx;
        Issue(e.requests);
      }
    }

    /// The first row in table order whose state, event and guard all pass.
    method FindRow(event: EventId, data: D) returns (r: Option<nat>)
      ensures r.Some? ==> r.value < |desc.rows| && RowMatches(desc.rows[r.value], current, ctx, event, data)
      ensures forall i :: 0 <= i < (if r.Some? then r.value else |desc.rows|) ==>
                !RowMatches(desc.rows[i], current, ctx, event, data)
    {
      for i := 0 to |desc.rows|
        invariant forall j :: 0 <= j < i ==> !RowMatches(desc.rows[j], current, ctx, event, data)
      {
        var row := desc.rows[i];
        var stateMatch := row.state == At(current) || row.state == Any;
        if stateMatch && row.event == event {
          if row.guard(ctx, event, data) {
            return Some(i);
          }
        }
      }
      return None;
    }

    /// bb_fsm_step.
    method StepEvent(event: EventId, data: D) returns (status: Status)
      requires Valid()
      modifies this, timers
      ensures Valid()
      ensures (status, View()) == Step(desc, timers.Length, old(View()), event, data)
    {
      if terminal {
        return InvalidState;
      }
      var r := FindRow(event, data);
      if r.None? {
        return NotFound;
      }
      StepFiresRow(desc, timers.Length, View(), event, data, r.value);
      var row := desc.rows[r.value];
      var a := row.action(ctx, event, data);
      ctx := a.ctx;
      Issue(a.requests);
      match row.next {
        case Same =>
        case Terminal =>
          terminal := true;
          ClearTimers();
        case Goto(state) =>
          RunExit(current);
          ClearTimers();
          current := state;
          RunEntry(state);
      }
      return Ok;
    }
  }
}
