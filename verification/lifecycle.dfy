/** The state changes of one record: validation, usage report, cooldown release. */
module Lifecycle {
  import Decimal
  import opened Domain
  import opened Validators
  import opened Scoring

  datatype Config = Config(minEliteScore: int, cooldownSeconds: nat)

  function TargetPool(cfg: Config, p: Proxy, c: Checks): Pool {
    if !c.protocol.ok then Dead
    else if c.connectivity.None? || !c.connectivity.value.ok then
      if p.consecutiveFailCount >= 5 then Dead else Cooldown
    else if && c.anonymity.Some?
            && c.anonymity.value.ok
            && c.anonymity.value.anonymity == Some(EliteAnonymity)
            && p.score >= cfg.minEliteScore then Elite
    else Checked
  }

  function TargetState(cfg: Config, p: Proxy, target: Pool, now: int): Proxy {
    if target == Cooldown then p.(cooldownUntil := Some(now + cfg.cooldownSeconds))
    else p.(cooldownUntil := None)
  }

  datatype Outcome = Outcome(target: Pool, proxy: Proxy, checks: Checks)

  /** One validation of the snapshot `p`; `proxy` is the record as it is stored. */
  function Validated(cfg: Config, p: Proxy, probe: Probe): Outcome {
    var checks := RunChecks(p, probe);
    var scored := Scored(p, checks, probe.checkedAt);
    var target := TargetPool(cfg, scored, checks);
    Outcome(target, TargetState(cfg, scored, target, probe.cooledAt).(status := target), checks)
  }

  /** The record a usage report leaves behind; its status is the pool it is stored in. */
  function Reported(cfg: Config, pool: Pool, p: Proxy, r: Report, now: int, cooledAt: int): Proxy {
    var latency := if r.latencyMs.Some? then r.latencyMs else p.latencyMs;
    if r.ok then
      p.(score := p.score + 10, successCount := p.successCount + 1, consecutiveFailCount := 0,
         lastCheckedAt := Some(now), lastSuccessAt := Some(now), lastError := None,
         cooldownUntil := None, latencyMs := latency, status := pool)
    else
      var failed := p.(score := p.score - 20, failCount := p.failCount + 1,
                       consecutiveFailCount := p.consecutiveFailCount + 1,
                       lastCheckedAt := Some(now), latencyMs := latency,
                       lastError := if r.error.Some? && r.error.value != "" then r.error
                                    else Some("reported_failure"));
      if failed.consecutiveFailCount >= 5 && pool != Dead then failed.(status := Dead)
      else if failed.consecutiveFailCount >= 3 && pool != Cooldown then
        failed.(status := Cooldown, cooldownUntil := Some(cooledAt + cfg.cooldownSeconds))
      else failed.(status := pool)
  }

  predicate Expired(p: Proxy, now: int) {
    p.cooldownUntil.None? || p.cooldownUntil.value <= now
  }

  function Released(p: Proxy): Proxy { p.(cooldownUntil := None, status := Raw) }

  // ---------------------------------------------------------------- what every record satisfies

  /** The score stays within what its successes and failures can have contributed. */
  predicate ScoreOk(p: Proxy) {
    && -55 * p.successCount - 20 * p.failCount <= p.score
    && p.score <= 50 + 50 * p.successCount - 20 * p.failCount
    && (p.successCount == 0 && p.failCount == 0 ==> p.score == 0)
  }

  /** The part of the invariant that does not depend on the pool. */
  predicate CountsOk(p: Proxy) {
    p.consecutiveFailCount <= p.failCount && ScoreOk(p)
  }

  predicate RecordOk(p: Proxy) {
    && CountsOk(p)
    && (p.status in {Raw, Checked, Elite} ==> p.cooldownUntil.None?)
    && (p.status in {Checked, Elite} ==> p.consecutiveFailCount <= 2)
    && (p.status == Elite ==> p.anonymity == EliteAnonymity)
  }

  lemma FreshIsOk(p: Proxy)
    requires Fresh(p) && p.status == Raw
    ensures RecordOk(p)
  {}

  /** A reached validation moves the score by -55 to 50, any other by exactly -20. */
  lemma DeltaRange(p: Proxy, probe: Probe)
    ensures var c := RunChecks(p, probe);
            if Reached(c) then -55 <= ValidationDelta(c) <= 50 else ValidationDelta(c) == -20
  {}

  lemma ValidatedIsOk(cfg: Config, p: Proxy, probe: Probe)
    requires CountsOk(p)
    ensures RecordOk(Validated(cfg, p, probe).proxy)
    ensures Validated(cfg, p, probe).proxy.status == Validated(cfg, p, probe).target
  {
    DeltaRange(p, probe);
  }

  lemma ReportedIsOk(cfg: Config, p: Proxy, r: Report, now: int, cooledAt: int)
    requires RecordOk(p)
    ensures RecordOk(Reported(cfg, p.status, p, r, now, cooledAt))
  {}

  lemma ReleasedIsOk(p: Proxy)
    requires CountsOk(p)
    ensures RecordOk(Released(p))
  {}

  // ---------------------------------------------------------------- validations, told from the two requests

  /** The request through the proxy got an answer that is no error. */
  predicate Answers(o: HttpOutcome) { o.Responded? && o.status < 400 }

  /** What the answer to the first request is worth by its speed, and to the second by what it observed. */
  function SpeedPoints(ms: nat): int { if ms > 5000 then -15 else if ms > 1500 then 0 else if ms >= 500 then 5 else 10 }

  function ObservedPoints(o: HttpOutcome): int {
    if !Answers(o) || o.classified == Unknown then 0
    else if o.classified == Transparent then -50
    else if o.classified == Anonymous then 15
    else 30
  }

  function ProbePoints(probe: Probe): int {
    if Answers(probe.connect) then 10 + SpeedPoints(probe.connect.latencyMs) + ObservedPoints(probe.observe) else -20
  }

  predicate EndpointOk(p: Proxy) { p.host != "" && 1 <= p.port <= 65535 }

  predicate NeverTried(p: Proxy) { p.score == 0 && p.successCount == 0 && p.failCount == 0 }

  /** The score a validation leaves: 50 for a record never tried before, else the old one, plus what the two
      answers are worth; a bad endpoint costs 20 without any request. */
  lemma ValidatedScore(cfg: Config, p: Proxy, probe: Probe)
    ensures Validated(cfg, p, probe).proxy.score
            == (if NeverTried(p) then 50 else p.score) + (if EndpointOk(p) then ProbePoints(probe) else -20)
  {}

  /** The pool a validation decides on: elite exactly for a proxy that answers, is observed as elite, and has
      now at least the threshold; checked for any other that answers; one that does not is cooled down until
      its fifth failure in a row, and dead then or with a bad endpoint. */
  lemma ValidatedPool(cfg: Config, p: Proxy, probe: Probe)
    ensures var out := Validated(cfg, p, probe);
            && out.proxy.status == out.target
            && (out.target == Elite <==>
                  && EndpointOk(p) && Answers(probe.connect)
                  && Answers(probe.observe) && probe.observe.classified == EliteAnonymity
                  && out.proxy.score >= cfg.minEliteScore)
            && (out.target in {Checked, Elite} <==> EndpointOk(p) && Answers(probe.connect))
            && (out.target == Cooldown <==>
                  EndpointOk(p) && !Answers(probe.connect) && p.consecutiveFailCount + 1 < 5)
            && out.target != Raw
            && out.proxy.cooldownUntil
               == (if out.target == Cooldown then Some(probe.cooledAt + cfg.cooldownSeconds) else None)
  {}

  function ErrorOf(o: HttpOutcome): string
    requires !Answers(o)
  {
    if o.TimedOut? then "timeout" else if o.Broke? then o.name else "status_" + Decimal.Print(o.status)
  }

  /** What a validation notes beside score and pool: one more success or failure, the time, the error, the
      latency of the first request, and the anonymity the second one showed. */
  lemma ValidatedNotes(cfg: Config, p: Proxy, probe: Probe)
    ensures var q := Validated(cfg, p, probe).proxy; var reached := EndpointOk(p) && Answers(probe.connect);
            && q.successCount == p.successCount + (if reached then 1 else 0)
            && q.failCount == p.failCount + (if reached then 0 else 1)
            && q.consecutiveFailCount == (if reached then 0 else p.consecutiveFailCount + 1)
            && q.lastCheckedAt == Some(probe.checkedAt)
            && q.lastSuccessAt == (if reached then Some(probe.checkedAt) else p.lastSuccessAt)
            && q.latencyMs == (if EndpointOk(p) then Some(probe.connect.latencyMs) else p.latencyMs)
            && q.anonymity == (if reached && Answers(probe.observe) then probe.observe.classified else p.anonymity)
            && q.lastError == (if reached then None
                               else if p.host == "" then Some("missing_proxy_host")
                               else if !EndpointOk(p) then Some("invalid_proxy_port")
                               else Some(ErrorOf(probe.connect)))
  {}

  // ---------------------------------------------------------------- reports, told from what they change

  /** A success report raises the score by exactly 10, ends the failures in a row and the cooldown, and moves
      nothing; a cooled-down record it leaves can be released at any time. */
  lemma SuccessReport(cfg: Config, p: Proxy, r: Report, now: int, cooledAt: int, at: int)
    requires r.ok
    ensures var q := Reported(cfg, p.status, p, r, now, cooledAt);
            && q.score == p.score + 10 && q.status == p.status && q.cooldownUntil.None? && Expired(q, at)
            && q.successCount == p.successCount + 1 && q.failCount == p.failCount && q.consecutiveFailCount == 0
            && q.lastCheckedAt == q.lastSuccessAt == Some(now) && q.lastError.None?
            && q.latencyMs == (if r.latencyMs.Some? then r.latencyMs else p.latencyMs)
            && q.anonymity == p.anonymity
  {}

  /** A failure report lowers the score by exactly 20. It moves a record that is not dead to dead with five
      failures in a row, one that is not cooled down to cooldown with three or four, or with more if it was
      dead, and nothing else; a cooldown time is set by a move to cooldown only. */
  lemma FailureReport(cfg: Config, p: Proxy, r: Report, now: int, cooledAt: int)
    requires !r.ok
    ensures var q := Reported(cfg, p.status, p, r, now, cooledAt); var n := p.consecutiveFailCount + 1;
            && q.score == p.score - 20
            && q.successCount == p.successCount && q.failCount == p.failCount + 1 && q.consecutiveFailCount == n
            && (q.status == Dead != p.status <==> n >= 5 && p.status != Dead)
            && (q.status == Cooldown != p.status <==> n >= 3 && p.status != Cooldown && (n <= 4 || p.status == Dead))
            && (q.status in {Dead, Cooldown, p.status})
            && q.cooldownUntil == (if q.status == Cooldown != p.status then Some(cooledAt + cfg.cooldownSeconds)
                                   else p.cooldownUntil)
            && q.lastCheckedAt == Some(now) && q.lastSuccessAt == p.lastSuccessAt
            && q.lastError == (if r.error in {None, Some("")} then Some("reported_failure") else r.error)
            && q.latencyMs == (if r.latencyMs.Some? then r.latencyMs else p.latencyMs)
            && q.anonymity == p.anonymity
  {}

  /** With the default threshold of 80, what the first validation of a fetched record decides. */
  lemma FirstVerdict(cfg: Config, p: Proxy, probe: Probe)
    requires cfg.minEliteScore == 80 && Fresh(p) && ProtocolCheck(p).ok
    ensures var target := Validated(cfg, p, probe).target;
            var answered := probe.connect.Responded? && probe.connect.status < 400;
            && (target == Cooldown <==> !answered)
            && (target == Elite <==>
                  && answered && probe.connect.latencyMs <= 5000
                  && probe.observe.Responded? && probe.observe.status < 400
                  && probe.observe.classified == EliteAnonymity)
            && target in {Checked, Elite, Cooldown}
  {}

  /** A failure report on a dead record leaves it dead exactly when fewer than three failures in a row
      result; otherwise the record goes back to cooldown, and from there to raw. */
  lemma DeadReportStaysDead(cfg: Config, p: Proxy, r: Report, now: int, cooledAt: int)
    requires p.status == Dead && !r.ok
    ensures var q := Reported(cfg, Dead, p, r, now, cooledAt);
            && (q.status == Dead <==> p.consecutiveFailCount < 2)
            && (q.status != Dead ==> q.status == Cooldown && q.cooldownUntil == Some(cooledAt + cfg.cooldownSeconds))
  {}
}

/** Whole histories of one record, event after event. */
module Histories {
  import opened Domain
  import opened Validators
  import opened Scoring
  import opened Lifecycle

  datatype Event =
    | Validate(probe: Probe)
    | Use(report: Report, now: int, cooledAt: int)
    | Release(now: int)

  /** Validation jobs look at raw records only, releases at cooled-down ones only. */
  predicate Acts(p: Proxy, e: Event) {
    match e
    case Validate(_) => p.status == Raw
    case Use(_, _, _) => true
    case Release(now) => p.status == Cooldown && Expired(p, now)
  }

  /** The record an event makes of the record it finds. */
  function Effect(cfg: Config, p: Proxy, e: Event): Proxy {
    match e
    case Validate(probe) => Validated(cfg, p, probe).proxy
    case Use(report, now, cooledAt) => Reported(cfg, p.status, p, report, now, cooledAt)
    case Release(_) => Released(p)
  }

  function Apply(cfg: Config, p: Proxy, e: Event): Proxy { if Acts(p, e) then Effect(cfg, p, e) else p }

  function History(cfg: Config, p: Proxy, es: seq<Event>): Proxy {
    if es == [] then p else Apply(cfg, History(cfg, p, es[..|es| - 1]), es[|es| - 1])
  }

  /** 1 when the event is an attempt: a validation that runs, or a usage report. */
  function AttemptOf(p: Proxy, e: Event): nat { if !e.Release? && Acts(p, e) then 1 else 0 }

  /** 1 when the event is a validation that starts from the initial score. */
  function GrantOf(p: Proxy, e: Event): nat {
    if e.Validate? && Acts(p, e) && StartingScore(p) != p.score then 1 else 0
  }

  function Attempts(cfg: Config, p: Proxy, es: seq<Event>): nat {
    if es == [] then 0
    else Attempts(cfg, p, es[..|es| - 1]) + AttemptOf(History(cfg, p, es[..|es| - 1]), es[|es| - 1])
  }

  function Grants(cfg: Config, p: Proxy, es: seq<Event>): nat {
    if es == [] then 0
    else Grants(cfg, p, es[..|es| - 1]) + GrantOf(History(cfg, p, es[..|es| - 1]), es[|es| - 1])
  }

  /** The score lies between the extremes once `g` initial scores were granted. */
  predicate Within(q: Proxy, g: nat) {
    && 50 * g - 55 * q.successCount - 20 * q.failCount <= q.score
    && q.score <= 50 * g + 50 * q.successCount - 20 * q.failCount
  }

  lemma ApplyWithin(cfg: Config, p: Proxy, e: Event, g: nat)
    requires CountsOk(p) && Within(p, g)
    ensures var q := Apply(cfg, p, e);
            && Within(q, g + GrantOf(p, e))
            && q.successCount + q.failCount == p.successCount + p.failCount + AttemptOf(p, e)
            && (GrantOf(p, e) == 1 ==> p.successCount + p.failCount == 0)
  {
    if e.Validate? {
      DeltaRange(p, e.probe);
    }
  }

  lemma ApplyIsOk(cfg: Config, p: Proxy, e: Event)
    requires RecordOk(p)
    ensures RecordOk(Apply(cfg, p, e))
  {
    match e
    case Validate(probe) => ValidatedIsOk(cfg, p, probe);
    case Use(report, now, cooledAt) => ReportedIsOk(cfg, p, report, now, cooledAt);
    case Release(_) => ReleasedIsOk(p);
  }

  /** Score bounds over any history of a fetched record: every attempt is counted once, the initial score
      is granted at most once, and the score stays between the two extremes. */
  lemma {:induction false} ScoreBound(cfg: Config, p: Proxy, es: seq<Event>)
    requires Fresh(p) && p.status == Raw
    ensures var q := History(cfg, p, es); var g := Grants(cfg, p, es);
            && RecordOk(q)
            && q.successCount + q.failCount == Attempts(cfg, p, es)
            && g <= 1
            && (q.successCount + q.failCount == 0 ==> g == 0)
            && Within(q, g)
  {
    if es != [] {
      var before := History(cfg, p, es[..|es| - 1]);
      var e := es[|es| - 1];
      ScoreBound(cfg, p, es[..|es| - 1]);
      ApplyIsOk(cfg, before, e);
      ApplyWithin(cfg, before, e, Grants(cfg, p, es[..|es| - 1]));
    }
  }

  /** No success: validations do not connect, reports are failures. */
  predicate NoSuccess(e: Event) {
    match e
    case Validate(probe) => !ConnectivityCheck(probe.connect).ok
    case Use(report, _, _) => !report.ok
    case Release(_) => true
  }

  /** Five strikes: under failures and releases in any order, a fetched record stays in raw or cooldown
      through its first four failed attempts, and the fifth puts it in dead whichever route it takes. */
  lemma {:induction false} FiveStrikes(cfg: Config, p: Proxy, es: seq<Event>)
    requires Fresh(p) && p.status == Raw && ProtocolCheck(p).ok
    requires forall i :: 0 <= i < |es| ==> NoSuccess(es[i])
    ensures var q := History(cfg, p, es); var k := Attempts(cfg, p, es);
            && q.host == p.host && q.port == p.port
            && q.successCount == 0 && q.failCount == k
            && q.consecutiveFailCount == k
            && (k <= 4 ==> q.status in {Raw, Cooldown})
            && (k == 5 ==> q.status == Dead)
  {
    if es != [] {
      FiveStrikes(cfg, p, es[..|es| - 1]);
      assert NoSuccess(es[|es| - 1]);
    }
  }

  predicate SameIdentity(p: Proxy, q: Proxy) {
    && q.id == p.id && q.scheme == p.scheme && q.host == p.host && q.port == p.port
    && q.username == p.username && q.password == p.password
    && q.source == p.source && q.country == p.country && q.asn == p.asn
  }

  lemma ApplyKeepsIdentity(cfg: Config, p: Proxy, e: Event)
    ensures SameIdentity(p, Apply(cfg, p, e))
  {}

  /** No event changes who the proxy is, how to log in to it, or where it came from. */
  lemma {:induction false} HistoryKeepsIdentity(cfg: Config, p: Proxy, es: seq<Event>)
    ensures SameIdentity(p, History(cfg, p, es))
  {
    if es != [] {
      HistoryKeepsIdentity(cfg, p, es[..|es| - 1]);
      ApplyKeepsIdentity(cfg, History(cfg, p, es[..|es| - 1]), es[|es| - 1]);
    }
  }

  // ---------------------------------------------------------------- what a record tells of its history

  /** Whether an attempt succeeds, told from the event alone. */
  predicate Succeeds(e: Event) {
    match e
    case Validate(probe) => Answers(probe.connect)
    case Use(report, _, _) => report.ok
    case Release(_) => false
  }

  /** When an attempt is noted, and what it is worth. */
  function StampOf(e: Event): int { if e.Validate? then e.probe.checkedAt else e.now }

  function Points(e: Event): int {
    match e
    case Validate(probe) => ProbePoints(probe)
    case Use(report, _, _) => if report.ok then 10 else -20
    case Release(_) => 0
  }

  /** The attempts among the events, in order: validations that found the record raw, and all reports. */
  function Tries(cfg: Config, p: Proxy, es: seq<Event>): seq<Event> {
    if es == [] then []
    else
      var e := es[|es| - 1];
      Tries(cfg, p, es[..|es| - 1])
      + if AttemptOf(History(cfg, p, es[..|es| - 1]), e) == 1 then [e] else []
  }

  function SuccessesIn(es: seq<Event>): nat {
    if es == [] then 0 else SuccessesIn(es[..|es| - 1]) + if Succeeds(es[|es| - 1]) then 1 else 0
  }

  function PointsIn(es: seq<Event>): int {
    if es == [] then 0 else PointsIn(es[..|es| - 1]) + Points(es[|es| - 1])
  }

  /** The last `n` attempts failed, and the one before them, if there is one, succeeded. */
  predicate FailedSince(es: seq<Event>, n: nat) {
    && n <= |es|
    && (forall i :: |es| - n <= i < |es| ==> !Succeeds(es[i]))
    && (n < |es| ==> Succeeds(es[|es| - 1 - n]))
  }

  /** The time of the last success among the attempts. */
  function LastSuccess(es: seq<Event>): Option<int> {
    if es == [] then None
    else if Succeeds(es[|es| - 1]) then Some(StampOf(es[|es| - 1]))
    else LastSuccess(es[..|es| - 1])
  }

  predicate Tells(q: Proxy, tries: seq<Event>, grants: nat) {
    && q.successCount == SuccessesIn(tries) && q.failCount == |tries| - SuccessesIn(tries)
    && FailedSince(tries, q.consecutiveFailCount)
    && q.score == 50 * grants + PointsIn(tries)
    && (tries != [] ==> q.lastCheckedAt == Some(StampOf(tries[|tries| - 1])))
    && (tries != [] ==> (q.lastError.None? <==> Succeeds(tries[|tries| - 1])))
  }

  lemma TriedTells(cfg: Config, p: Proxy, e: Event, q: Proxy, tries: seq<Event>, grants: nat)
    requires Tells(p, tries, grants) && EndpointOk(p) && !e.Release? && Acts(p, e) && q == Effect(cfg, p, e)
    ensures Tells(q, tries + [e], grants + GrantOf(p, e)) && EndpointOk(q)
    ensures q.lastSuccessAt == if Succeeds(e) then Some(StampOf(e)) else p.lastSuccessAt
  {
    TryNotes(cfg, p, e, q);
    NotedTells(p, e, q, tries, grants, grants + GrantOf(p, e));
  }

  /** What an attempt that acts changes. */
  predicate Notes(p: Proxy, e: Event, q: Proxy, granted: nat) {
    && q.score == p.score + 50 * granted + Points(e)
    && q.successCount == p.successCount + (if Succeeds(e) then 1 else 0)
    && q.failCount == p.failCount + (if Succeeds(e) then 0 else 1)
    && q.consecutiveFailCount == (if Succeeds(e) then 0 else p.consecutiveFailCount + 1)
    && q.lastCheckedAt == Some(StampOf(e))
    && (q.lastError.None? <==> Succeeds(e))
    && q.lastSuccessAt == (if Succeeds(e) then Some(StampOf(e)) else p.lastSuccessAt)
    && q.host == p.host && q.port == p.port
  }

  lemma TryNotes(cfg: Config, p: Proxy, e: Event, q: Proxy)
    requires EndpointOk(p) && !e.Release? && Acts(p, e) && q == Effect(cfg, p, e)
    ensures Notes(p, e, q, GrantOf(p, e))
  {
    match e {
      case Validate(probe) =>
        ValidatedScore(cfg, p, probe);
        ValidatedNotes(cfg, p, probe);
      case Use(r, now, cooledAt) =>
        if r.ok {
          SuccessReport(cfg, p, r, now, cooledAt, now);
        } else {
          FailureReport(cfg, p, r, now, cooledAt);
        }
    }
  }

  lemma NotedTells(p: Proxy, e: Event, q: Proxy, tries: seq<Event>, before: nat, after: nat)
    requires Tells(p, tries, before) && before <= after && Notes(p, e, q, after - before)
    ensures Tells(q, tries + [e], after)
  {
    assert (tries + [e])[..|tries|] == tries;
  }

  /** Whatever happens to a fetched record, it tells its history: the counters count its successes and
      failures, the failures in a row are those since its last success, the score is the initial grant plus
      what the attempts were worth, and the times are those of the last attempt and the last success. */
  lemma {:induction false} RecordTellsHistory(cfg: Config, p: Proxy, es: seq<Event>)
    requires Fresh(p) && p.status == Raw && EndpointOk(p) && p.lastSuccessAt.None?
    ensures var q := History(cfg, p, es); var tries := Tries(cfg, p, es);
            Tells(q, tries, Grants(cfg, p, es)) && EndpointOk(q) && q.lastSuccessAt == LastSuccess(tries)
  {
    if es != [] {
      var init, e := es[..|es| - 1], es[|es| - 1];
      var h := History(cfg, p, init);
      RecordTellsHistory(cfg, p, init);
      HistoryUnfolds(cfg, p, es);
      if AttemptOf(h, e) == 1 {
        TriedTells(cfg, h, e, History(cfg, p, es), Tries(cfg, p, init), Grants(cfg, p, init));
        LastSuccessSnoc(Tries(cfg, p, init), e);
      } else {
        RestTells(cfg, p, h, e);
      }
    }
  }

  lemma HistoryUnfolds(cfg: Config, p: Proxy, es: seq<Event>)
    requires es != []
    ensures var init, e := es[..|es| - 1], es[|es| - 1]; var h := History(cfg, p, init);
            && History(cfg, p, es) == Apply(cfg, h, e)
            && Grants(cfg, p, es) == Grants(cfg, p, init) + GrantOf(h, e)
            && Tries(cfg, p, es) == if AttemptOf(h, e) == 1 then Tries(cfg, p, init) + [e] else Tries(cfg, p, init)
  {}

  lemma LastSuccessSnoc(es: seq<Event>, e: Event)
    ensures LastSuccess(es + [e]) == if Succeeds(e) then Some(StampOf(e)) else LastSuccess(es)
  {
    assert (es + [e])[..|es|] == es;
  }

  /** Releases, and validations of a record that is not raw, change nothing of this. */
  lemma RestTells(cfg: Config, p: Proxy, h: Proxy, e: Event)
    requires AttemptOf(h, e) == 0
    ensures var q := Apply(cfg, h, e);
            && GrantOf(h, e) == 0
            && q.score == h.score && q.successCount == h.successCount && q.failCount == h.failCount
            && q.consecutiveFailCount == h.consecutiveFailCount && q.lastCheckedAt == h.lastCheckedAt
            && q.lastSuccessAt == h.lastSuccessAt && q.lastError == h.lastError
            && q.host == h.host && q.port == h.port
  {}

  // ---------------------------------------------------------------- the bounds are attained

  const FAILURE := Report(false, None, None)

  /** Three failed uses, a release once the cooldown is over, and one validation. */
  function Cycle(cfg: Config, probe: Probe): seq<Event> {
    [Use(FAILURE, 0, 0), Use(FAILURE, 0, 0), Use(FAILURE, 0, 0), Release(cfg.cooldownSeconds), Validate(probe)]
  }

  lemma {:induction false} HistoryAppends(cfg: Config, p: Proxy, es: seq<Event>, more: seq<Event>)
    ensures History(cfg, p, es + more) == History(cfg, History(cfg, p, es), more)
  {
    if more == [] {
      assert es + more == es;
    } else {
      HistoryAppends(cfg, p, es, more[..|more| - 1]);
      assert (es + more)[..|es + more| - 1] == es + more[..|more| - 1];
    }
  }

  lemma CycleEffect(cfg: Config, p: Proxy, probe: Probe)
    requires p.status in {Checked, Elite} && p.consecutiveFailCount == 0 && ProtocolCheck(p).ok
    requires p.successCount > 0 && ConnectivityCheck(probe.connect).ok
    ensures var q := History(cfg, p, Cycle(cfg, probe));
            && q.status in {Checked, Elite} && q.consecutiveFailCount == 0
            && q.host == p.host && q.port == p.port
            && q.successCount == p.successCount + 1 && q.failCount == p.failCount + 3
            && q.score == p.score - 60 + ValidationDelta(RunChecks(p, probe))
  {
    var c := Cycle(cfg, probe);
    var p1 := Apply(cfg, p, c[0]);
    var p2 := Apply(cfg, p1, c[1]);
    var p3 := Apply(cfg, p2, c[2]);
    var p4 := Apply(cfg, p3, c[3]);
    assert c[..1] == [c[0]] && c[..2][..1] == c[..1] && c[..3][..2] == c[..2] && c[..4][..3] == c[..3];
    assert History(cfg, p, c[..1]) == p1;
    assert History(cfg, p, c[..2]) == p2;
    assert History(cfg, p, c[..3]) == p3;
    assert History(cfg, p, c[..4]) == p4;
    assert p4.status == Raw;
  }

  const BEST := Probe(Responded(200, 0, Unknown), Responded(200, 0, EliteAnonymity), 0, 0)
  const WORST := Probe(Responded(200, 6000, Unknown), Responded(200, 0, Transparent), 0, 0)

  const DOWN := Probe(Responded(503, 0, Unknown), Responded(503, 0, Unknown), 0, 0)

  /** For every number of successes some history ends exactly on the upper bound. */
  lemma {:induction false} UpperBoundAttained(cfg: Config, p: Proxy, n: nat) returns (es: seq<Event>)
    requires Fresh(p) && p.status == Raw && ProtocolCheck(p).ok
    ensures var q := History(cfg, p, es);
            && q.successCount == n && q.score == 50 + 50 * n - 20 * q.failCount
            && (n > 0 ==> q.status in {Checked, Elite} && q.consecutiveFailCount == 0)
            && q.host == p.host && q.port == p.port
  {
    if n == 0 {
      es := [Validate(DOWN)];
      assert es[..0] == [];
    } else if n == 1 {
      es := [Validate(BEST)];
      assert es[..0] == [];
    } else {
      es := UpperBoundAttained(cfg, p, n - 1);
      var q := History(cfg, p, es);
      HistoryAppends(cfg, p, es, Cycle(cfg, BEST));
      CycleEffect(cfg, q, BEST);
      es := es + Cycle(cfg, BEST);
    }
  }

  /** And some history ends exactly on the lower bound. */
  lemma {:induction false} LowerBoundAttained(cfg: Config, p: Proxy, n: nat) returns (es: seq<Event>)
    requires Fresh(p) && p.status == Raw && ProtocolCheck(p).ok
    ensures var q := History(cfg, p, es);
            && q.successCount == n && q.score == -55 * n - 20 * q.failCount
            && (n > 0 ==> q.status in {Checked, Elite} && q.consecutiveFailCount == 0)
            && q.host == p.host && q.port == p.port
  {
    if n == 0 {
      es := [Use(FAILURE, 0, 0)];
      assert es[..0] == [];
    } else if n == 1 {
      es := [Use(FAILURE, 0, 0), Validate(WORST)];
      assert es[..1] == [es[0]] && es[..1][..0] == [];
      var q := Apply(cfg, p, es[0]);
      assert History(cfg, p, es[..1]) == q && q.status == Raw;
    } else {
      es := LowerBoundAttained(cfg, p, n - 1);
      var q := History(cfg, p, es);
      HistoryAppends(cfg, p, es, Cycle(cfg, WORST));
      CycleEffect(cfg, q, WORST);
      es := es + Cycle(cfg, WORST);
    }
  }
}
