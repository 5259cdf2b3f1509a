/// What each step of a run does: where it goes, which adapter calls it makes and how it
/// moves the diagnostics, told by the states before and after it and by the event.
module ReconnCalls {
  import opened Wrappers
  import opened Fsm
  import opened ReconnPolicy
  import opened ReconnMachine
  import opened ReconnRuns
  import opened ReconnTimed

  /// The failure window is open and overrun.
  predicate Overrun(m: Machine<Ctx>, nowUs: int) {
    m.ctx.policy.firstFailUs != 0 && nowUs - m.ctx.policy.firstFailUs > m.ctx.cfg.windowUs
  }

  /// A connection attempt failed: it was lost, other than by the device leaving, or it took
  /// too long.
  predicate AttemptFails(m: Machine<Ctx>, event: EventId, d: Env) {
    && m.current == WR_CONNECTING
    && ((event == EV_STA_DISCONNECTED && d.reason != AssocLeave) || event == EV_CONNECTING_TIMEOUT)
  }

  /// A lost connection is to be retried, at once or after a backoff.
  predicate Retries(m: Machine<Ctx>, event: EventId, d: Env) {
    && event == EV_STA_DISCONNECTED && d.reason != AssocLeave
    && (m.current == WR_CONNECTED || (m.current == WR_CONNECTING && !Overrun(m, d.nowUs)))
  }

  /// Where a step leads.
  predicate Leads(m: Machine<Ctx>, event: EventId, d: Env, n: Machine<Ctx>) {
    && (n.current == WR_NO_CREDS <==> m.current == WR_NO_CREDS && event != EV_CREDS_ARRIVED)
    && (n.current == WR_CONNECTED <==>
          (m.current == WR_CONNECTING && event == EV_GOT_IP) || (m.current == WR_CONNECTED && event != EV_STA_DISCONNECTED))
    && (n.current == WR_LEFT <==>
          || (m.current in {WR_CONNECTING, WR_CONNECTED} && event == EV_STA_DISCONNECTED && d.reason == AssocLeave)
          || (m.current == WR_LEFT && event != EV_RECONNECT_REQUESTED))
    && (n.current == WR_ESCALATE_REBOOT <==>
          || m.current == WR_ESCALATE_REBOOT
          || (AttemptFails(m, event, d) && Overrun(m, d.nowUs) && d.rebootAllowed))
    && (n.current == WR_BACKOFF ==>
          || (m.current == WR_BACKOFF && event != EV_BACKOFF_TIMEOUT)
          || (AttemptFails(m, event, d) && Overrun(m, d.nowUs) && !d.rebootAllowed)
          || Retries(m, event, d))
    && (n.current == WR_CONNECTING ==>
          || (m.current == WR_BACKOFF && event == EV_BACKOFF_TIMEOUT)
          || Clears(m, event)
          || Retries(m, event, d)
          || (m.current == WR_CONNECTING && event == EV_CONNECTING_TIMEOUT && !Overrun(m, d.nowUs))
          || (m.current == WR_CONNECTING && event !in {EV_GOT_IP, EV_STA_DISCONNECTED, EV_CONNECTING_TIMEOUT}))
    && n.current <= WR_LEFT
  }

  /// The adapter calls of a step.
  function StepCalls(before: StateId, after: StateId, event: EventId, reason: Reason, denied: bool): seq<Call> {
    if before == WR_NO_CREDS && after == WR_CONNECTING then [ConnectFresh]
    else if before == WR_CONNECTING && after == WR_CONNECTING then
      if event == EV_STA_DISCONNECTED then [Connect]
      else if event == EV_CONNECTING_TIMEOUT then [Disconnect, Connect]
      else []
    else if after == WR_CONNECTING then [Connect]
    else if before != WR_LEFT && after == WR_LEFT then [Parked(reason)]
    else if before != WR_ESCALATE_REBOOT && after == WR_ESCALATE_REBOOT then [RebootCall]
    else if denied then [RebootDenied(if event == EV_STA_DISCONNECTED then reason else Unknown)]
    else []
  }

  /// A reboot was due and refused.
  predicate Denied(m: Machine<Ctx>, event: EventId, d: Env) {
    AttemptFails(m, event, d) && Overrun(m, d.nowUs) && !d.rebootAllowed
  }

  lemma EscalateIsOverrun(m: Machine<Ctx>, nowUs: int)
    ensures WouldEscalate(m.ctx.cfg, m.ctx.policy, nowUs) <==> Overrun(m, nowUs)
  {}

  lemma StepLeads(cfg: Config, m: Machine<Ctx>, event: EventId, d: Env)
    requires Good(cfg, m)
    ensures Leads(m, event, d, Advance(m, event, d))
  {
    EscalateIsOverrun(m, d.nowUs);
    var k := Choose(m, event, d);
    if k.Some? { ChoiceFacts(m, event, d, k.value); }
  }

  lemma StepMakesCalls(cfg: Config, m: Machine<Ctx>, event: EventId, d: Env)
    requires Good(cfg, m)
    ensures var n := Advance(m, event, d);
            n.ctx.calls == m.ctx.calls + StepCalls(m.current, n.current, event, d.reason, Denied(m, event, d))
  {
    EscalateIsOverrun(m, d.nowUs);
    var k := Choose(m, event, d);
    if k.Some? {
      ChoiceFacts(m, event, d, k.value);
    } else {
      assert m.ctx.calls + [] == m.ctx.calls;
    }
  }

  /// Every step of every run leads where, and makes the adapter calls that, the states and the
  /// event say, in this order and no others.
  lemma CallsOfRun(cfg: Config, boot: StateId, inputs: seq<Input<Env>>, k: nat)
    requires BootState(boot) && k < |inputs|
    ensures var m, n, event, d := Prefix(cfg, boot, inputs, k), Prefix(cfg, boot, inputs, k + 1), inputs[k].event, inputs[k].data;
            && Leads(m, event, d, n)
            && n.ctx.calls == m.ctx.calls + StepCalls(m.current, n.current, event, d.reason, Denied(m, event, d))
  {
    PrefixAdvances(cfg, boot, inputs, k);
    var m := Prefix(cfg, boot, inputs, k);
    StepLeads(cfg, m, inputs[k].event, inputs[k].data);
    StepMakesCalls(cfg, m, inputs[k].event, inputs[k].data);
  }

  /// The step enters the connecting state, or arms its timeout again inside it.
  predicate ArmsConnectTimeout(cfg: Config, boot: StateId, inputs: seq<Input<Env>>, k: nat)
    requires k < |inputs|
  {
    var m := Prefix(cfg, boot, inputs, k);
    Rearms(m, inputs[k].event, inputs[k].data) && Prefix(cfg, boot, inputs, k + 1).current == WR_CONNECTING
  }

  predicate AsksForConnection(call: Call) { call == Connect || call == ConnectFresh }

  lemma ArmingStep(cfg: Config, m: Machine<Ctx>, event: EventId, d: Env)
    requires Good(cfg, m)
    ensures var n := Advance(m, event, d);
            Rearms(m, event, d) && n.current == WR_CONNECTING <==>
              && n.current == WR_CONNECTING
              && (m.current == WR_CONNECTING ==> event == EV_STA_DISCONNECTED || event == EV_CONNECTING_TIMEOUT)
  {
    RearmingRows(m, event, d);
    var k := Choose(m, event, d);
    if k.Some? { ChoiceFacts(m, event, d, k.value); }
  }

  /// A connect timeout is never armed without a connection being asked for: a step arms it
  /// exactly when its last call asks for one, and no other step asks for one.  The fresh form
  /// is used exactly on leaving the state without credentials.
  lemma ArmedMeansAsked(cfg: Config, boot: StateId, inputs: seq<Input<Env>>, k: nat)
    requires BootState(boot) && k < |inputs|
    ensures var m, n := Prefix(cfg, boot, inputs, k), Prefix(cfg, boot, inputs, k + 1);
            && m.ctx.calls <= n.ctx.calls
            && var made := n.ctx.calls[|m.ctx.calls|..];
               && (ArmsConnectTimeout(cfg, boot, inputs, k) <==> made != [] && AsksForConnection(Last(made)))
               && (ArmsConnectTimeout(cfg, boot, inputs, k) <==> exists call :: call in made && AsksForConnection(call))
               && (ConnectFresh in made <==> m.current == WR_NO_CREDS && n.current != WR_NO_CREDS)
               && (forall reason :: Parked(reason) in made <==>
                     m.current != WR_LEFT && n.current == WR_LEFT && reason == inputs[k].data.reason)
  {
    CallsOfRun(cfg, boot, inputs, k);
    PrefixAdvances(cfg, boot, inputs, k);
    var m, n, event, d := Prefix(cfg, boot, inputs, k), Prefix(cfg, boot, inputs, k + 1), inputs[k].event, inputs[k].data;
    ArmingStep(cfg, m, event, d);
    var made := n.ctx.calls[|m.ctx.calls|..];
    assert made == StepCalls(m.current, n.current, event, d.reason, Denied(m, event, d));
    MadeCalls(m, event, d, n, made);
  }

  lemma MadeCalls(m: Machine<Ctx>, event: EventId, d: Env, n: Machine<Ctx>, made: seq<Call>)
    requires Leads(m, event, d, n) && made == StepCalls(m.current, n.current, event, d.reason, Denied(m, event, d))
    ensures var arms := n.current == WR_CONNECTING
                        && (m.current == WR_CONNECTING ==> event == EV_STA_DISCONNECTED || event == EV_CONNECTING_TIMEOUT);
            && (arms <==> made != [] && AsksForConnection(Last(made)))
            && (arms <==> exists call :: call in made && AsksForConnection(call))
    ensures ConnectFresh in made <==> m.current == WR_NO_CREDS && n.current != WR_NO_CREDS
    ensures forall reason :: Parked(reason) in made <==> m.current != WR_LEFT && n.current == WR_LEFT && reason == d.reason
  {
    if made != [] {
      assert Last(made) in made;
    }
  }

  // ------------------------------------------------------------------------
  // Diagnostics
  // ------------------------------------------------------------------------

  /// The last reason and disconnect instant, and the marker for a disconnect the machine
  /// itself asked for.
  predicate Diagnosed(m: Machine<Ctx>, event: EventId, d: Env, n: Machine<Ctx>) {
    var p, q := m.ctx.policy, n.ctx.policy;
    var reset := Clears(m, event) && event != EV_GOT_IP;
    && q.lastReason == (if reset then Unknown
                        else if Counts(m, event) && event == EV_STA_DISCONNECTED then d.reason
                        else p.lastReason)
    && q.lastDisconnectUs == (if reset then 0 else if Counts(m, event) then d.nowUs else p.lastDisconnectUs)
    && n.ctx.selfDisconnect == (if reset then false
                                else if m.current == WR_CONNECTING && event == EV_CONNECTING_TIMEOUT && n.current == WR_CONNECTING
                                then true
                                else m.ctx.selfDisconnect)
  }

  lemma StepDiagnoses(cfg: Config, m: Machine<Ctx>, event: EventId, d: Env)
    requires Good(cfg, m)
    ensures Diagnosed(m, event, d, Advance(m, event, d))
  {
    ClearingRows(m, event, d);
    CountingRows(m, event, d);
    var k := Choose(m, event, d);
    if k.Some? { ChoiceFacts(m, event, d, k.value); }
  }

  /// An address keeps the diagnostics, a reset clears them, a counted failure records itself.
  lemma DiagnosticsOfRun(cfg: Config, boot: StateId, inputs: seq<Input<Env>>, k: nat)
    requires BootState(boot) && k < |inputs|
    ensures Diagnosed(Prefix(cfg, boot, inputs, k), inputs[k].event, inputs[k].data, Prefix(cfg, boot, inputs, k + 1))
  {
    PrefixAdvances(cfg, boot, inputs, k);
    StepDiagnoses(cfg, Prefix(cfg, boot, inputs, k), inputs[k].event, inputs[k].data);
  }
}
