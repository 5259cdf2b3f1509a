/// The Wi-Fi reconnect policy: three failure ladders, a persistent-failure window,
/// and the "peek" predicates the guards use to foresee what a mutation will decide.
module ReconnPolicy {
  import opened Wrappers

  datatype Reason =
    | Unknown | AuthFail | AssocFail | HandshakeTimeout | ConnectionLost | NoApFound | Inactivity
    | Deauth | BeaconTimeout | LostIp | EgressDead | NoIpWatchdog | AssocLeave

  /// The build-time knobs.  Limits are attempt counts; the window is in microseconds.
  datatype Config = Config(
    handshakeFastLimit: nat,
    handshakeTier2Limit: nat,
    handshakeTier2Ms: nat,
    handshakeTier3Ms: nat,
    genericFastLimit: nat,
    genericPauseMs: nat,
    slowTier1Limit: nat,
    slowTier1Ms: nat,
    slowTier2Ms: nat,
    windowUs: nat,
    connectingTimeoutMs: nat)

  datatype Action = ReconnectNow | ScheduleBackoff | Reboot

  /// `firstFailUs == 0` is the source's encoding of "no failure yet".
  datatype Policy = Policy(
    handshakeFails: nat,
    genericFails: nat,
    slowFails: nat,
    firstFailUs: int,
    retries: nat,
    lastReason: Reason,
    lastDisconnectUs: int)

  const FRESH := Policy(0, 0, 0, 0, 0, Unknown, 0)

  predicate IsSlow(reason: Reason) {
    reason == AuthFail || reason == NoApFound
  }

  function BackoffMs(cfg: Config, p: Policy, reason: Reason): nat {
    if reason == HandshakeTimeout then
      if p.handshakeFails <= cfg.handshakeFastLimit then 0
      else if p.handshakeFails <= cfg.handshakeTier2Limit then cfg.handshakeTier2Ms
      else cfg.handshakeTier3Ms
    else if IsSlow(reason) then
      if p.slowFails <= cfg.slowTier1Limit then cfg.slowTier1Ms else cfg.slowTier2Ms
    else
      if p.genericFails <= cfg.genericFastLimit then 0 else cfg.genericPauseMs
  }

  function Bump(p: Policy, reason: Reason): Policy {
    if reason == HandshakeTimeout then p.(handshakeFails := p.handshakeFails + 1)
    else if IsSlow(reason) then p.(slowFails := p.slowFails + 1)
    else p.(genericFails := p.genericFails + 1)
  }

  function FirstFail(p: Policy, now: int): int {
    if p.firstFailUs == 0 then now else p.firstFailUs
  }

  /// What a decision leaves behind: `backoffMs` is None when the out-parameter stays untouched.
  datatype Decision = Decision(policy: Policy, action: Action, backoffMs: Option<nat>)

  function NoteDisconnect(p: Policy, now: int, reason: Reason): Policy {
    Bump(p, reason).(lastReason := reason, lastDisconnectUs := now, retries := p.retries + 1, firstFailUs := FirstFail(p, now))
  }

  function NoteTimeout(p: Policy, now: int): Policy {
    Bump(p, Unknown).(lastDisconnectUs := now, retries := p.retries + 1, firstFailUs := FirstFail(p, now))
  }

  function Decide(cfg: Config, p: Policy, now: int, reason: Reason): Decision {
    if now - p.firstFailUs > cfg.windowUs then Decision(p, Reboot, None)
    else
      var ms := BackoffMs(cfg, p, reason);
      Decision(p, if ms == 0 then ReconnectNow else ScheduleBackoff, Some(ms))
  }

  function OnDisconnect(cfg: Config, p: Policy, now: int, reason: Reason): (d: Decision)
    ensures d.policy == NoteDisconnect(p, now, reason)
  {
    Decide(cfg, NoteDisconnect(p, now, reason), now, reason)
  }

  function OnConnectTimeout(cfg: Config, p: Policy, now: int): (d: Decision)
    ensures d.policy == NoteTimeout(p, now)
  {
    Decide(cfg, NoteTimeout(p, now), now, Unknown)
  }

  function OnGotIp(p: Policy): Policy {
    p.(handshakeFails := 0, genericFails := 0, slowFails := 0, firstFailUs := 0, retries := 0)
  }

  // --- Peeks ---------------------------------------------------------------

  predicate WouldEscalate(cfg: Config, p: Policy, now: int) {
    now - FirstFail(p, now) > cfg.windowUs
  }

  predicate WouldReconnectNow(cfg: Config, p: Policy, reason: Reason) {
    BackoffMs(cfg, Bump(p, reason), reason) == 0
  }

  /// The peeks foresee the mutating decision exactly, for every policy state, reason and clock value.
  lemma PeeksPredictDecision(cfg: Config, p: Policy, now: int, reason: Reason)
    ensures WouldEscalate(cfg, p, now) <==> OnDisconnect(cfg, p, now, reason).action == Reboot
    ensures WouldEscalate(cfg, p, now) <==> OnConnectTimeout(cfg, p, now).action == Reboot
    ensures !WouldEscalate(cfg, p, now) && WouldReconnectNow(cfg, p, reason) <==>
            OnDisconnect(cfg, p, now, reason).action == ReconnectNow
    ensures OnDisconnect(cfg, p, now, reason).action == ScheduleBackoff <==>
            exists ms :: ms > 0 && OnDisconnect(cfg, p, now, reason).backoffMs == Some(ms)
    ensures p.firstFailUs == 0 ==> !WouldEscalate(cfg, p, now)
  {
    var d := OnDisconnect(cfg, p, now, reason);
    if d.action == ScheduleBackoff {
      assert d.backoffMs.value > 0 && d.backoffMs == Some(d.backoffMs.value);
    }
  }

  /// Every decision counts exactly one failure, on exactly one ladder.
  ghost predicate Conserved(p: Policy) {
    p.retries == p.handshakeFails + p.genericFails + p.slowFails
  }

  lemma DecisionsConserve(cfg: Config, p: Policy, now: int, reason: Reason)
    requires Conserved(p)
    ensures Conserved(OnDisconnect(cfg, p, now, reason).policy)
    ensures Conserved(OnConnectTimeout(cfg, p, now).policy)
    ensures OnDisconnect(cfg, p, now, reason).policy.retries == p.retries + 1
    ensures OnConnectTimeout(cfg, p, now).policy.retries == p.retries + 1
    ensures Conserved(OnGotIp(p)) && Conserved(FRESH)
  {}

  // --- The record the source updates in place --------------------------------

  class PolicyState {
    var handshakeFails: nat
    var genericFails: nat
    var slowFails: nat
    var firstFailUs: int
    var retries: nat
    var lastReason: Reason
    var lastDisconnectUs: int

    function View(): Policy
      reads this
    {
      Policy(handshakeFails, genericFails, slowFails, firstFailUs, retries, lastReason, lastDisconnectUs)
    }

    constructor ()
      ensures View() == FRESH
    {
      handshakeFails, genericFails, slowFails := 0, 0, 0;
      firstFailUs, retries := 0, 0;
      lastReason, lastDisconnectUs := Unknown, 0;
    }

    method Reset()
      modifies this
      ensures View() == FRESH
    {
      handshakeFails, genericFails, slowFails := 0, 0, 0;
      firstFailUs, retries := 0, 0;
      lastReason, lastDisconnectUs := Unknown, 0;
    }

    method GotIp()
      modifies this
      ensures View() == OnGotIp(old(View()))
    {
      handshakeFails, genericFails, slowFails := 0, 0, 0;
      firstFailUs, retries := 0, 0;
    }

    method Disconnect(cfg: Config, now: int, reason: Reason) returns (action: Action, backoffMs: Option<nat>)
      modifies this
      ensures Decision(View(), action, backoffMs) == OnDisconnect(cfg, old(View()), now, reason)
    {
      lastReason, lastDisconnectUs := reason, now;
      retries := retries + 1;
      if firstFailUs == 0 {
        firstFailUs := now;
      }
      if reason == HandshakeTimeout {
        handshakeFails := handshakeFails + 1;
      } else if reason == AuthFail || reason == NoApFound {
        slowFails := slowFails + 1;
      } else {
        genericFails := genericFails + 1;
      }
      if now - firstFailUs > cfg.windowUs {
        return Action.Reboot, None;
      }
      var ms := BackoffMs(cfg, View(), reason);
      return if ms == 0 then ReconnectNow else ScheduleBackoff, Some(ms);
    }

    method ConnectTimeout(cfg: Config, now: int) returns (action: Action, backoffMs: Option<nat>)
      modifies this
      ensures Decision(View(), action, backoffMs) == OnConnectTimeout(cfg, old(View()), now)
    {
      lastDisconnectUs := now;
      retries := retries + 1;
      genericFails := genericFails + 1;
      if firstFailUs == 0 {
        firstFailUs := now;
      }
      if now - firstFailUs > cfg.windowUs {
        return Action.Reboot, None;
      }
      var ms := BackoffMs(cfg, View(), Unknown);
      return if ms == 0 then ReconnectNow else ScheduleBackoff, Some(ms);
    }
  }
}
