/** What the three validators answer for one proxy. The network is an oracle. */
module Validators {
  import opened Domain
  import Decimal

  /** How one HTTP request through the proxy ended. `classified` is what the header inspection of the
      anonymity check would say about the response. */
  datatype HttpOutcome =
    | TimedOut(latencyMs: nat)
    | Broke(name: string, latencyMs: nat)
    | Responded(status: nat, latencyMs: nat, classified: Anonymity)

  /** Everything outside the program that one validation depends on: the two requests, the clock reading
      of the scoring step and the clock reading of the cooldown step. */
  datatype Probe = Probe(connect: HttpOutcome, observe: HttpOutcome, checkedAt: int, cooledAt: int)

  datatype Checks = Checks(
    protocol: ValidationResult,
    connectivity: Option<ValidationResult>,
    anonymity: Option<ValidationResult>)

  function ProtocolCheck(p: Proxy): ValidationResult {
    if p.host == "" then ValidationResult(false, None, None, Some("missing_proxy_host"), None)
    else if p.port < 1 || p.port > 65535 then ValidationResult(false, None, None, Some("invalid_proxy_port"), None)
    else ValidationResult(true, None, None, None, None)
  }

  function HttpFailure(o: HttpOutcome): Option<ValidationResult> {
    match o
    case TimedOut(ms) => Some(ValidationResult(false, Some(ms), None, Some("timeout"), None))
    case Broke(name, ms) => Some(ValidationResult(false, Some(ms), None, Some(name), None))
    case Responded(status, ms, _) =>
      if status < 400 then None
      else Some(ValidationResult(false, Some(ms), Some(status), Some("status_" + Decimal.Print(status)), None))
  }

  function ConnectivityCheck(o: HttpOutcome): ValidationResult {
    match HttpFailure(o)
    case Some(failure) => failure
    case None => ValidationResult(true, Some(o.latencyMs), Some(o.status), None, None)
  }

  function AnonymityCheck(o: HttpOutcome): ValidationResult {
    match HttpFailure(o)
    case Some(failure) => failure
    case None => ValidationResult(true, Some(o.latencyMs), Some(o.status), None, Some(o.classified))
  }

  /** Connectivity is probed only after the protocol check passed, anonymity only after connectivity passed. */
  function RunChecks(p: Proxy, probe: Probe): Checks {
    var protocol := ProtocolCheck(p);
    var connectivity := if protocol.ok then Some(ConnectivityCheck(probe.connect)) else None;
    var anonymity :=
      if connectivity.Some? && connectivity.value.ok then Some(AnonymityCheck(probe.observe)) else None;
    Checks(protocol, connectivity, anonymity)
  }

  predicate Reached(c: Checks) { c.connectivity.Some? && c.connectivity.value.ok }
}

/** Score arithmetic of one validation. */
module Scoring {
  import opened Domain
  import opened Validators

  const INITIAL_SCORE := 50

  function StartingScore(p: Proxy): int {
    if p.score == 0 && p.successCount == 0 && p.failCount == 0 then INITIAL_SCORE else p.score
  }

  function LatencyDelta(latencyMs: Option<nat>): int {
    match latencyMs
    case None => 0
    case Some(ms) =>
      if ms < 500 then 10
      else if ms <= 1500 then 5
      else if ms > 5000 then -15
      else 0
  }

  function AnonymityDelta(anonymity: Option<ValidationResult>): int {
    if anonymity.None? || !anonymity.value.ok then 0
    else match anonymity.value.anonymity
      case Some(EliteAnonymity) => 30
      case Some(Anonymous) => 15
      case Some(Transparent) => -50
      case _ => 0
  }

  function ValidationDelta(c: Checks): int {
    if !c.protocol.ok then -20
    else (if Reached(c) then 10 + LatencyDelta(c.connectivity.value.latencyMs) else -20) + AnonymityDelta(c.anonymity)
  }

  /** The step-by-step accumulation of the service computes that sum. */
  method ComputeValidationDelta(c: Checks) returns (delta: int)
    ensures delta == ValidationDelta(c)
  {
    delta := 0;
    if !c.protocol.ok {
      delta := delta - 20;
      return;
    }
    if c.connectivity.Some? && c.connectivity.value.ok {
      delta := delta + 10;
      delta := delta + LatencyDelta(c.connectivity.value.latencyMs);
    } else {
      delta := delta - 20;
    }
    if c.anonymity.Some? && c.anonymity.value.ok {
      if c.anonymity.value.anonymity == Some(EliteAnonymity) {
        delta := delta + 30;
      } else if c.anonymity.value.anonymity == Some(Anonymous) {
        delta := delta + 15;
      } else if c.anonymity.value.anonymity == Some(Transparent) {
        delta := delta - 50;
      }
    }
  }

  function FirstError(c: Checks): Option<string> {
    if !c.protocol.ok then c.protocol.error
    else if c.connectivity.Some? && !c.connectivity.value.ok then c.connectivity.value.error
    else None
  }

  /** The record after one validation, before the target pool is applied. */
  function Scored(p: Proxy, c: Checks, now: int): Proxy {
    p.(score := StartingScore(p) + ValidationDelta(c),
       successCount := if Reached(c) then p.successCount + 1 else p.successCount,
       failCount := if Reached(c) then p.failCount else p.failCount + 1,
       consecutiveFailCount := if Reached(c) then 0 else p.consecutiveFailCount + 1,
       lastCheckedAt := Some(now),
       lastError := if Reached(c) then None else FirstError(c),
       latencyMs := if c.connectivity.Some? && c.connectivity.value.latencyMs.Some?
                    then c.connectivity.value.latencyMs else p.latencyMs,
       lastSuccessAt := if Reached(c) then Some(now) else p.lastSuccessAt,
       anonymity := if c.anonymity.Some? && c.anonymity.value.anonymity.Some?
                    then c.anonymity.value.anonymity.value else p.anonymity)
  }

  /** The `updates` dictionary of the service, filled entry by entry. */
  method ApplyValidationScore(p: Proxy, c: Checks, now: int) returns (updated: Proxy)
    ensures updated == Scored(p, c, now)
  {
    var score := StartingScore(p);
    var delta := ComputeValidationDelta(c);
    score := score + delta;
    var connectivityOk := c.connectivity.Some? && c.connectivity.value.ok;
    updated := p.(score := score, lastCheckedAt := Some(now));
    if connectivityOk {
      updated := updated.(successCount := p.successCount + 1, consecutiveFailCount := 0, lastError := None);
    } else {
      updated := updated.(failCount := p.failCount + 1, consecutiveFailCount := p.consecutiveFailCount + 1,
                          lastError := FirstError(c));
    }
    if c.connectivity.Some? && c.connectivity.value.latencyMs.Some? {
      updated := updated.(latencyMs := c.connectivity.value.latencyMs);
    }
    if connectivityOk {
      updated := updated.(lastSuccessAt := Some(now));
    }
    if c.anonymity.Some? && c.anonymity.value.anonymity.Some? {
      updated := updated.(anonymity := c.anonymity.value.anonymity.value);
    }
  }
}
