/// What one dispatch of the provisioning machine does, driver hops included: where it leads
/// and the adapter calls it makes, told by the state, the event and what the start calls
/// answer; and how often, over a run, fresh credentials are announced.
module ProvCalls {
  import opened Wrappers
  import opened Fsm
  import opened FsmEngine
  import opened ProvMachine

  /// Where every run of dispatches stays.
  ghost predicate Sound(m: Machine<Ctx>) {
    !m.terminal && m.current in {WP_IDLE, WP_ACTIVE, WP_CLOSING}
  }

  function StartPortal(d: Env): seq<Call> {
    if d.provStartOk then [ProvStart(true)] else [ProvStart(false), ApStop, Log(ProvStartFailed)]
  }

  const OPENED: seq<Call> := [Log(PortalOpen), SetActive(true)]
  const CLOSED: seq<Call> := [ProvStop, ApStop, CredsArrived, Log(PortalClosed), SetActive(false)]

  function Greeting(event: EventId): LogEvent {
    if event == EV_ENTRY_USER_REQUESTED then EntryUserRequested
    else if event == EV_ENTRY_DEPROV_ANOMALY then EntryDeprovAnomaly
    else EntryFirstBoot
  }

  /// An entry attempt from idle: access point, then portal, then the active state, each only
  /// after the one before it succeeded.
  function EntryCalls(event: EventId, d: Env): seq<Call> {
    if !d.apStartOk then [Log(Greeting(event)), ApStart(false), Log(ApStartFailed)]
    else [Log(Greeting(event)), ApStart(true)] + StartPortal(d) + if d.provStartOk then OPENED else []
  }

  /// The calls of one dispatch.
  function DispatchCalls(state: StateId, event: EventId, d: Env): seq<Call> {
    if state == WP_IDLE && IsEntry(event) then EntryCalls(event, d)
    else if state == WP_IDLE && event == EV_AP_START_OK then StartPortal(d)
    else if state == WP_IDLE && event == EV_PROV_START_OK then OPENED
    else if state == WP_ACTIVE && event == EV_ENTRY_USER_REQUESTED then [Log(EntryAlreadyActive)]
    else if state == WP_CLOSING && event == EV_SETTLE_TIMEOUT then CLOSED
    else []
  }

  function NextState(state: StateId, event: EventId, d: Env): StateId {
    if state == WP_IDLE && (event == EV_PROV_START_OK || (IsEntry(event) && d.apStartOk && d.provStartOk)) then WP_ACTIVE
    else if state == WP_ACTIVE && event == EV_SAVE_SUCCESS then WP_CLOSING
    else if state == WP_CLOSING && event == EV_SETTLE_TIMEOUT then WP_IDLE
    else state
  }

  /// The calls of one hop, by row.
  function HopCalls(k: nat, event: EventId, d: Env): seq<Call> {
    if k < 3 then [Log(Greeting(event)), ApStart(d.apStartOk)] + if d.apStartOk then [] else [Log(ApStartFailed)]
    else if k == 3 then StartPortal(d)
    else if k == 4 then OPENED
    else if k == 5 then [Log(EntryAlreadyActive)]
    else if k == 7 then CLOSED
    else []
  }

  lemma FeedCalls(capacity: nat, m: Machine<Ctx>, event: EventId, d: Env, k: nat)
    requires capacity >= 1 && Sound(m) && Choose(m.current, event) == Some(k)
    ensures var r := Feed(capacity, m, event, d);
            && r.0 == Ok && Sound(r.1) && r.1.ctx.calls == m.ctx.calls + HopCalls(k, event, d)
            && r.1.current == (if k == 4 then WP_ACTIVE else if k == 6 then WP_CLOSING else if k == 7 then WP_IDLE else m.current)
            && r.1.ctx.lastOpOk == (if k < 3 then d.apStartOk else if k == 3 then d.provStartOk else m.ctx.lastOpOk)
  {
    if k in {4, 6, 7} {
      FeedGoto(capacity, m, event, d, k);
      EnterState(capacity, ROWS[k].action(m.ctx, event, d).ctx,
                 if k == 4 then WP_ACTIVE else if k == 6 then WP_CLOSING else WP_IDLE);
    } else {
      FeedSame(capacity, m, event, d, k);
    }
  }

  lemma FeedNothing(capacity: nat, m: Machine<Ctx>, event: EventId, d: Env)
    requires Sound(m) && Choose(m.current, event).None?
    ensures Feed(capacity, m, event, d) == (NotFound, m)
  {
    FeedFires(capacity, m, event, d);
  }

  lemma DriveCalls(capacity: nat, m: Machine<Ctx>, event: EventId, d: Env)
    requires capacity >= 1 && Sound(m) && m.current == WP_IDLE && IsEntry(event)
    ensures var n := Drive(capacity, m, event, d);
            && Sound(n) && n.current == NextState(m.current, event, d)
            && n.ctx.calls == m.ctx.calls + EntryCalls(event, d)
  {
    var m0 := m.(ctx := m.ctx.(lastOpOk := false));
    FeedCalls(capacity, m0, event, d, event);
    if d.apStartOk {
      var r := Feed(capacity, m0, event, d).1;
      FeedCalls(capacity, r, EV_AP_START_OK, d, 3);
      var first := [Log(Greeting(event)), ApStart(true)];
      assert first + [] == first;
      assert (m.ctx.calls + first) + StartPortal(d) == m.ctx.calls + (first + StartPortal(d));
      if d.provStartOk {
        var s := Feed(capacity, r, EV_AP_START_OK, d).1;
        FeedCalls(capacity, s, EV_PROV_START_OK, d, 4);
        assert (m.ctx.calls + (first + StartPortal(d))) + OPENED == m.ctx.calls + (first + StartPortal(d) + OPENED);
      } else {
        assert first + StartPortal(d) + [] == first + StartPortal(d);
      }
    } else {
      assert [Log(Greeting(event)), ApStart(false)] + [Log(ApStartFailed)] == EntryCalls(event, d);
    }
  }

  lemma NoCallsAdded(calls: seq<Call>)
    ensures calls + [] == calls
  {}

  /// One dispatch, whatever the event, leads where and makes the calls that the state and the
  /// event say, in this order and no others.
  lemma DispatchDoes(capacity: nat, m: Machine<Ctx>, event: EventId, d: Env)
    requires capacity >= 1 && Sound(m)
    ensures var n := Dispatch(capacity, m, event, d);
            && Sound(n) && n.current == NextState(m.current, event, d)
            && n.ctx.calls == m.ctx.calls + DispatchCalls(m.current, event, d)
  {
    NoCallsAdded(m.ctx.calls);
    var start := if IsEntry(event) then m.(ctx := m.ctx.(lastOpOk := false)) else m;
    var k := Choose(m.current, event);
    if m.current == WP_IDLE && IsEntry(event) {
      DriveCalls(capacity, m, event, d);
    } else if k.Some? {
      FeedCalls(capacity, start, event, d, k.value);
    } else {
      FeedNothing(capacity, start, event, d);
    }
  }

  lemma {:induction false} RunsAreSound(capacity: nat, settleMs: nat, inputs: seq<Input<Env>>)
    requires capacity >= 1
    ensures Sound(RunAll(capacity, Init(capacity, WP_IDLE, settleMs), inputs))
  {
    if inputs == [] {
      InitIsCoherent(capacity, settleMs);
    } else {
      var before, last := inputs[..|inputs| - 1], inputs[|inputs| - 1];
      RunsAreSound(capacity, settleMs, before);
      DispatchDoes(capacity, RunAll(capacity, Init(capacity, WP_IDLE, settleMs), before), last.event, last.data);
    }
  }

  // ------------------------------------------------------------------------
  // Fresh credentials are announced once per closed portal
  // ------------------------------------------------------------------------

  function Announced(calls: seq<Call>): nat {
    if calls == [] then 0
    else Announced(calls[..|calls| - 1]) + if calls[|calls| - 1] == CredsArrived then 1 else 0
  }

  lemma {:induction false} AnnouncedAppend(a: seq<Call>, b: seq<Call>)
    ensures Announced(a + b) == Announced(a) + Announced(b)
  {
    if b == [] {
      assert a + b == a;
    } else {
      var c := b[..|b| - 1];
      AnnouncedAppend(a, c);
      assert (a + b)[..|a + b| - 1] == a + c;
    }
  }

  lemma {:induction false} NoneAnnounced(calls: seq<Call>)
    requires CredsArrived !in calls
    ensures Announced(calls) == 0
  {
    if calls != [] {
      NoneAnnounced(calls[..|calls| - 1]);
    }
  }

  lemma ClosingAnnouncesOnce()
    ensures Announced(CLOSED) == 1
  {
    AnnouncedAppend([ProvStop, ApStop], [CredsArrived]);
    AnnouncedAppend([ProvStop, ApStop] + [CredsArrived], [Log(PortalClosed), SetActive(false)]);
    NoneAnnounced([ProvStop, ApStop]);
    NoneAnnounced([Log(PortalClosed), SetActive(false)]);
    assert [CredsArrived][..0] == [];
    assert CLOSED == [ProvStop, ApStop] + [CredsArrived] + [Log(PortalClosed), SetActive(false)];
  }

  lemma OnlyClosingAnnounces(state: StateId, event: EventId, d: Env)
    ensures Announced(DispatchCalls(state, event, d)) == if state == WP_CLOSING && event == EV_SETTLE_TIMEOUT then 1 else 0
  {
    if state == WP_CLOSING && event == EV_SETTLE_TIMEOUT {
      ClosingAnnouncesOnce();
    } else {
      NoneAnnounced(DispatchCalls(state, event, d));
    }
  }

  /// The steps of the run from closing to idle.
  function Closings(capacity: nat, m: Machine<Ctx>, inputs: seq<Input<Env>>): nat {
    if inputs == [] then 0
    else
      var before := inputs[..|inputs| - 1];
      Closings(capacity, m, before)
      + if RunAll(capacity, m, before).current == WP_CLOSING && RunAll(capacity, m, inputs).current == WP_IDLE then 1 else 0
  }

  lemma InitAnnouncesNothing(capacity: nat, settleMs: nat)
    requires capacity >= 1
    ensures Announced(Init(capacity, WP_IDLE, settleMs).ctx.calls) == 0
  {
    EnterState(capacity, Ctx(false, SettleFloor(settleMs), []), WP_IDLE);
    NoneAnnounced([] + [SetActive(false)]);
  }

  /// Over every run, synthetic events and failed starts included, fresh credentials have been
  /// announced exactly as often as the portal was closed.
  lemma {:induction false} CredsAnnouncedPerClosing(capacity: nat, settleMs: nat, inputs: seq<Input<Env>>)
    requires capacity >= 1
    ensures var start := Init(capacity, WP_IDLE, settleMs);
            Announced(RunAll(capacity, start, inputs).ctx.calls) == Closings(capacity, start, inputs)
  {
    var start := Init(capacity, WP_IDLE, settleMs);
    if inputs == [] {
      InitAnnouncesNothing(capacity, settleMs);
    } else {
      var before, last := inputs[..|inputs| - 1], inputs[|inputs| - 1];
      CredsAnnouncedPerClosing(capacity, settleMs, before);
      RunsAreSound(capacity, settleMs, before);
      var m := RunAll(capacity, start, before);
      DispatchDoes(capacity, m, last.event, last.data);
      AnnouncedAppend(m.ctx.calls, DispatchCalls(m.current, last.event, last.data));
      OnlyClosingAnnounces(m.current, last.event, last.data);
    }
  }
}
