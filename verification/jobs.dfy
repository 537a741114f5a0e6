/** One validation job: release expired cooldowns, validate a batch of raw records, count. */
module Jobs {
  import Decimal
  import opened Domain
  import opened Validators
  import opened Lifecycle
  import opened Tables
  import opened Query
  import opened Services
  import opened Interleaving
  import opened Batches
  import Text

  predicate MentionsTimeout(r: Option<ValidationResult>) {
    r.Some? && r.value.error.Some? && Text.Contains(Text.Lower(r.value.error.value), "timeout")
  }

  function Successes(outs: seq<Outcome>): nat {
    if outs == [] then 0
    else Successes(outs[..|outs| - 1]) + if outs[|outs| - 1].target in {Checked, Elite} then 1 else 0
  }

  function Timeouts(outs: seq<Outcome>): nat {
    if outs == [] then 0
    else
      var last := outs[|outs| - 1].checks;
      Timeouts(outs[..|outs| - 1])
      + (if MentionsTimeout(last.connectivity) then 1 else 0)
      + (if MentionsTimeout(last.anonymity) then 1 else 0)
  }

  /** A job on table `t`: `mid` is the table after the release, `cooled` and `batch` are the two listings. */
  datatype Job = Job(t: Table, limit: int, now: int, cooled: seq<Proxy>, mid: Table, batch: seq<Proxy>, after: Table)

  ghost predicate IsJob(cfg: Config, probes: string -> Probe, j: Job) {
    && Agrees(j.t)
    && IsListing(j.t, Cooldown, j.limit, j.cooled)
    && j.mid == WriteAll(j.t, ReleaseWrites(j.cooled, j.now))
    && IsListing(j.mid, Raw, j.limit, j.batch)
    && j.after == WriteAll(j.mid, OutcomeWrites(BatchOutcomes(cfg, j.batch, probes)))
  }

  /** A job whose batch ran as concurrent tasks, to the end of some schedule. */
  ghost predicate RanConcurrently(cfg: Config, probes: string -> Probe, j: Job, concurrency: nat,
                                  ws: seq<World>, es: seq<Action>) {
    && Agrees(j.t)
    && IsListing(j.t, Cooldown, j.limit, j.cooled)
    && j.mid == WriteAll(j.t, ReleaseWrites(j.cooled, j.now))
    && IsListing(j.mid, Raw, j.limit, j.batch)
    && IsSchedule(cfg, j.mid, Raw, j.batch, probes, concurrency, ws, es)
    && AllFinished(ws[|es|])
    && j.after == ws[|es|].table
  }

  /** However the tasks of the batch interleave under the semaphore, once all have finished the job is one:
      everything below holds for every schedule. */
  lemma AnyScheduleIsJob(cfg: Config, probes: string -> Probe, j: Job, concurrency: nat, ws: seq<World>,
                         es: seq<Action>)
    requires RanConcurrently(cfg, probes, j, concurrency, ws, es)
    ensures IsJob(cfg, probes, j)
  {
    forall i | 0 <= i < |j.batch| ensures InPool(j.mid, Raw, j.batch[i]) {}
    assert IsBatch(j.mid, Raw, j.batch);
    ScheduleIndependence(cfg, j.mid, Raw, j.batch, probes, concurrency, ws, es);
  }

  // ---------------------------------------------------------------- writes and sums

  /** Distinct writes to rows that are there. */
  ghost predicate Rewrites(t: Table, ws: seq<Write>) {
    DistinctWrites(ws) && forall i :: 0 <= i < |ws| ==> ws[i].proxy.id in t && ws[i].proxy.status == ws[i].pool
  }

  ghost function WeightBefore(t: Table, ws: seq<Write>, w: Weight): nat
    requires forall i :: 0 <= i < |ws| ==> ws[i].proxy.id in t
  {
    if ws == [] then 0
    else WeightBefore(t, ws[..|ws| - 1], w) + w.Of(t[ws[|ws| - 1].proxy.id])
  }

  ghost function WeightAfter(ws: seq<Write>, w: Weight): nat {
    if ws == [] then 0
    else WeightAfter(ws[..|ws| - 1], w) + w.Of(RowOf(ws[|ws| - 1].pool, ws[|ws| - 1].proxy))
  }

  lemma {:induction false} RewritesChangeSum(t: Table, ws: seq<Write>, w: Weight)
    requires Rewrites(t, ws)
    ensures WriteAll(t, ws).Keys == t.Keys
    ensures Sum(WriteAll(t, ws), w) + WeightBefore(t, ws, w) == Sum(t, w) + WeightAfter(ws, w)
  {
    if ws != [] {
      var init, last := ws[..|ws| - 1], ws[|ws| - 1];
      RewritesChangeSum(t, init, w);
      assert !Touches(init, last.proxy.id);
      WriteAllOutside(t, init, last.proxy.id);
      PutChangesSum(WriteAll(t, init), w, last.pool, last.proxy);
      assert last.proxy.(status := last.pool) == last.proxy;
    }
  }

  // ---------------------------------------------------------------- the two halves of a job

  lemma {:induction false} ReleaseWritesFrom(listed: seq<Proxy>, now: int)
    ensures forall w :: w in ReleaseWrites(listed, now) <==>
              exists i :: 0 <= i < |listed| && Expired(listed[i], now) && w == Write(Raw, Released(listed[i]))
    ensures (forall i, j :: 0 <= i < j < |listed| ==> listed[i].id != listed[j].id) ==>
              DistinctWrites(ReleaseWrites(listed, now))
  {
    if listed != [] {
      var init, last := listed[..|listed| - 1], listed[|listed| - 1];
      ReleaseWritesFrom(init, now);
      var ws := ReleaseWrites(init, now);
      assert forall i :: 0 <= i < |init| ==> init[i] == listed[i];
      if (forall i, j :: 0 <= i < j < |listed| ==> listed[i].id != listed[j].id) && Expired(last, now) {
        forall i | 0 <= i < |ws| ensures ws[i].proxy.id != last.id {
          assert ws[i] in ws;
        }
      }
    }
  }

  lemma ReleaseRewrites(cfg: Config, probes: string -> Probe, j: Job)
    requires IsJob(cfg, probes, j)
    ensures Rewrites(j.t, ReleaseWrites(j.cooled, j.now))
    ensures forall w :: w in ReleaseWrites(j.cooled, j.now) ==>
              && j.t[w.proxy.id].pool == Cooldown
              && w == Write(Raw, Released(j.t[w.proxy.id].payload))
              && Expired(j.t[w.proxy.id].payload, j.now)
  {
    var ws := ReleaseWrites(j.cooled, j.now);
    ReleaseWritesFrom(j.cooled, j.now);
    forall w | w in ws
      ensures w.proxy.id in j.t && w.proxy.status == w.pool && j.t[w.proxy.id].pool == Cooldown
      ensures w == Write(Raw, Released(j.t[w.proxy.id].payload)) && Expired(j.t[w.proxy.id].payload, j.now)
    {
      var i :| 0 <= i < |j.cooled| && Expired(j.cooled[i], j.now) && w == Write(Raw, Released(j.cooled[i]));
      assert j.cooled[i].id in j.t;
    }
    forall i | 0 <= i < |ws| ensures ws[i].proxy.id in j.t && ws[i].proxy.status == ws[i].pool {
      assert ws[i] in ws;
    }
  }

  lemma {:induction false} ReleaseWritesListed(cfg: Config, probes: string -> Probe, j: Job, id: string)
    requires IsJob(cfg, probes, j)
    ensures var moved := exists i :: 0 <= i < |j.cooled| && j.cooled[i].id == id && Expired(j.cooled[i], j.now);
            && (id in j.mid <==> id in j.t)
            && (id in j.t ==> j.mid[id] == if moved then RowOf(Raw, Released(j.t[id].payload)) else j.t[id])
  {
    var ws := ReleaseWrites(j.cooled, j.now);
    ReleaseWritesFrom(j.cooled, j.now);
    ReleaseRewrites(cfg, probes, j);
    if i :| 0 <= i < |j.cooled| && j.cooled[i].id == id && Expired(j.cooled[i], j.now) {
      var w := Write(Raw, Released(j.cooled[i]));
      assert w in ws;
      var k :| 0 <= k < |ws| && ws[k] == w;
      WriteAllAt(j.t, ws, k);
    } else {
      assert !Touches(ws, id);
      WriteAllOutside(j.t, ws, id);
    }
  }

  /** The release moves exactly the listed records whose cooldown is over, or was never set, and changes no
      other row. */
  lemma ReleaseMovesExpired(cfg: Config, probes: string -> Probe, j: Job, id: string)
    requires IsJob(cfg, probes, j)
    ensures var listed := exists i :: 0 <= i < |j.cooled| && j.cooled[i].id == id;
            && (id in j.mid <==> id in j.t) && (listed ==> id in j.t)
            && (id in j.t ==>
                  var p := j.t[id].payload;
                  var over := p.cooldownUntil == None || p.cooldownUntil.value <= j.now;
                  j.mid[id] == if listed && over then RowOf(Raw, p.(status := Raw, cooldownUntil := None)) else j.t[id])
  {
    ReleaseWritesListed(cfg, probes, j, id);
    forall i | 0 <= i < |j.cooled| && j.cooled[i].id == id ensures id in j.t && j.t[id].payload == j.cooled[i] {}
  }

  lemma {:induction false} WriteAllAgrees(t: Table, ws: seq<Write>)
    requires Agrees(t)
    ensures Agrees(WriteAll(t, ws))
  {
    if ws != [] {
      WriteAllAgrees(t, ws[..|ws| - 1]);
    }
  }

  lemma {:induction false} BatchRewrites(cfg: Config, probes: string -> Probe, j: Job)
    requires IsJob(cfg, probes, j)
    ensures var ws := OutcomeWrites(BatchOutcomes(cfg, j.batch, probes));
            && Rewrites(j.mid, ws)
            && forall i :: 0 <= i < |ws| ==> ws[i].proxy.id == j.batch[i].id
  {
    OutcomeIds(cfg, j.batch, probes);
  }

  lemma OutcomeIds(cfg: Config, batch: seq<Proxy>, probes: string -> Probe)
    ensures forall i :: 0 <= i < |batch| ==>
              var w := OutcomeWrites(BatchOutcomes(cfg, batch, probes))[i];
              w.proxy.id == batch[i].id && w.proxy.status == w.pool
  {
    forall i: nat | i < |batch|
      ensures var out := BatchOutcomes(cfg, batch, probes)[i];
              out.proxy.id == batch[i].id && out.proxy.status == out.target
    {
      OutcomeAt(cfg, batch, probes, i);
    }
  }

  // ---------------------------------------------------------------- accounting

  lemma {:induction false} OutcomeWeights(mid: Table, outs: seq<Outcome>, good: bool)
    requires forall i :: 0 <= i < |outs| ==> outs[i].proxy.id in mid && mid[outs[i].proxy.id].pool == Raw
    requires forall i :: 0 <= i < |outs| ==> outs[i].target != Raw
    ensures var pools := if good then {Checked, Elite} else {Cooldown, Dead};
            && WeightBefore(mid, OutcomeWrites(outs), InPools(pools)) == 0
            && WeightAfter(OutcomeWrites(outs), InPools(pools))
               == if good then Successes(outs) else |outs| - Successes(outs)
  {
    if outs != [] {
      var init := outs[..|outs| - 1];
      OutcomeWeights(mid, init, good);
      assert OutcomeWrites(outs)[..|outs| - 1] == OutcomeWrites(init);
    }
  }

  ghost function CountIn(t: Table, pools: set<Pool>): nat { Sum(t, InPools(pools)) }

  /** Conservation and accounting of a job with no other writer: the ids are the same afterwards; the batch
      is as large as the limit and the raw pool allow; its successes are what checked and elite have grown
      by since the release, its failures what cooldown and dead have grown by. */
  lemma JobAccounting(cfg: Config, probes: string -> Probe, j: Job)
    requires IsJob(cfg, probes, j)
    ensures var outs := BatchOutcomes(cfg, j.batch, probes);
            && j.after.Keys == j.mid.Keys == j.t.Keys
            && |outs| == Min(Max(j.limit, 0), CountOf(j.mid, Raw))
            && CountIn(j.after, {Checked, Elite}) == CountIn(j.mid, {Checked, Elite}) + Successes(outs)
            && CountIn(j.after, {Cooldown, Dead}) == CountIn(j.mid, {Cooldown, Dead}) + (|outs| - Successes(outs))
  {
    var outs := BatchOutcomes(cfg, j.batch, probes);
    var ws := OutcomeWrites(outs);
    ReleaseRewrites(cfg, probes, j);
    RewritesChangeSum(j.t, ReleaseWrites(j.cooled, j.now), StrikesLeft);
    BatchRewrites(cfg, probes, j);
    RewritesChangeSum(j.mid, ws, InPools({Checked, Elite}));
    RewritesChangeSum(j.mid, ws, InPools({Cooldown, Dead}));
    OutcomesLeaveRaw(cfg, probes, j);
    OutcomeWeights(j.mid, outs, true);
    OutcomeWeights(j.mid, outs, false);
  }

  lemma {:induction false} OutcomesLeaveRaw(cfg: Config, probes: string -> Probe, j: Job)
    requires IsJob(cfg, probes, j)
    ensures var outs := BatchOutcomes(cfg, j.batch, probes);
            forall i :: 0 <= i < |outs| ==>
              && outs[i].target != Raw
              && outs[i].proxy.id in j.mid && j.mid[outs[i].proxy.id].pool == Raw
              && j.mid[outs[i].proxy.id].payload == j.batch[i]
  {
    BatchRewrites(cfg, probes, j);
    var outs := BatchOutcomes(cfg, j.batch, probes);
    forall i: nat | i < |outs| ensures outs[i].target != Raw && outs[i].proxy.id == j.batch[i].id {
      OutcomeAt(cfg, j.batch, probes, i);
    }
  }

  /** A pool count is the number of rows in those pools. */
  lemma CountInCounts(t: Table, pools: set<Pool>)
    ensures CountIn(t, pools) == |set id | id in t && t[id].pool in pools|
  {
    SumCounts(t, pools, t.Keys);
    assert (set id | id in t && t[id].pool in pools) == Among(t, pools, t.Keys);
  }

  lemma {:induction false} TimeoutsBounded(outs: seq<Outcome>)
    requires forall i :: 0 <= i < |outs| ==>
               !(MentionsTimeout(outs[i].checks.connectivity) && MentionsTimeout(outs[i].checks.anonymity))
    ensures Timeouts(outs) <= |outs|
    ensures Successes(outs) <= |outs|
  {
    if outs != [] {
      TimeoutsBounded(outs[..|outs| - 1]);
    }
  }

  /** No outcome counts two timeouts: a passed connectivity check has no error, and without one the
      anonymity check is not made. */
  lemma {:induction false} TimeoutsAtMostChecked(cfg: Config, batch: seq<Proxy>, probes: string -> Probe)
    ensures var outs := BatchOutcomes(cfg, batch, probes);
            Timeouts(outs) <= |outs| && Successes(outs) <= |outs|
  {
    var outs := BatchOutcomes(cfg, batch, probes);
    forall i: nat | i < |outs|
      ensures !(MentionsTimeout(outs[i].checks.connectivity) && MentionsTimeout(outs[i].checks.anonymity))
    {
      OneTimeoutAtMost(batch[i], probes(batch[i].id));
      OutcomeAt(cfg, batch, probes, i);
    }
    TimeoutsBounded(outs);
  }

  lemma OneTimeoutAtMost(p: Proxy, probe: Probe)
    ensures var c := RunChecks(p, probe);
            c.anonymity.Some? ==> c.connectivity.Some? && c.connectivity.value.error.None?
  {}

  /** A request that timed out, or broke with an exception whose name holds "timeout" in any case. */
  ghost predicate SaysTimeout(o: HttpOutcome) {
    o.TimedOut? || (o.Broke? && exists i :: Text.StandsAt(o.name, "timeout", i))
  }

  /** The records of the batch whose first request said so, and those that answered it and whose second did. */
  ghost function FirstTimeouts(batch: seq<Proxy>, probes: string -> Probe): set<nat> {
    set i: nat | i < |batch| && EndpointOk(batch[i]) && SaysTimeout(probes(batch[i].id).connect)
  }

  ghost function SecondTimeouts(batch: seq<Proxy>, probes: string -> Probe): set<nat> {
    set i: nat | i < |batch| && EndpointOk(batch[i]) && Answers(probes(batch[i].id).connect)
                 && SaysTimeout(probes(batch[i].id).observe)
  }

  lemma TimeoutText(error: string)
    ensures Text.Contains(Text.Lower(error), "timeout") <==> exists i :: Text.StandsAt(error, "timeout", i)
  {
    Text.ContainsInAnyCase(error, "timeout");
    assert Text.Lower("timeout") == "timeout";
  }

  lemma StatusIsNoTimeout(digits: string)
    requires Decimal.AllDigits(digits)
    ensures !exists i :: Text.StandsAt("status_" + digits, "timeout", i)
  {
    var error := "status_" + digits;
    forall j | 0 <= j < |error| ensures !Text.SameLetter(error[j], "timeout"[1]) {
      assert j >= 7 ==> error[j] == digits[j - 7];
    }
    forall i ensures !Text.StandsAt(error, "timeout", i) {
      if 0 <= i <= |error| - 7 {
        assert !Text.SameLetter(error[i + 1], "timeout"[1]);
      }
    }
  }

  lemma CheckSaysTimeout(o: HttpOutcome)
    ensures MentionsTimeout(Some(ConnectivityCheck(o))) <==> SaysTimeout(o)
    ensures MentionsTimeout(Some(AnonymityCheck(o))) <==> SaysTimeout(o)
  {
    match o {
      case TimedOut(_) =>
        TimeoutText("timeout");
        assert Text.StandsAt("timeout", "timeout", 0);
      case Broke(name, _) => TimeoutText(name);
      case Responded(status, _, _) =>
        TimeoutText("status_" + Decimal.Print(status));
        StatusIsNoTimeout(Decimal.Print(status));
    }
  }

  lemma {:induction false} TimeoutsSnoc(cfg: Config, batch: seq<Proxy>, probes: string -> Probe)
    requires batch != []
    ensures var p := batch[|batch| - 1]; var probe := probes(p.id);
            Timeouts(BatchOutcomes(cfg, batch, probes))
            == Timeouts(BatchOutcomes(cfg, batch[..|batch| - 1], probes))
               + (if EndpointOk(p) && SaysTimeout(probe.connect) then 1 else 0)
               + (if EndpointOk(p) && Answers(probe.connect) && SaysTimeout(probe.observe) then 1 else 0)
  {
    var last := |batch| - 1;
    var outs := BatchOutcomes(cfg, batch, probes);
    OutcomeAt(cfg, batch, probes, last);
    ChecksSayTimeout(batch[last], probes(batch[last].id));
    assert outs[..last] == BatchOutcomes(cfg, batch[..last], probes);
  }

  lemma ChecksSayTimeout(p: Proxy, probe: Probe)
    ensures var c := RunChecks(p, probe);
            && (MentionsTimeout(c.connectivity) <==> EndpointOk(p) && SaysTimeout(probe.connect))
            && (MentionsTimeout(c.anonymity) <==>
                  EndpointOk(p) && Answers(probe.connect) && SaysTimeout(probe.observe))
  {
    CheckSaysTimeout(probe.connect);
    CheckSaysTimeout(probe.observe);
  }

  lemma {:induction false} OneMoreIndex(before: set<nat>, after: set<nat>, last: nat)
    requires forall i :: i in before ==> i < last
    requires forall i :: i in after <==> i in before || (i == last && last in after)
    ensures |after| == |before| + if last in after then 1 else 0
  {
    assert after == before + if last in after then {last} else {};
  }

  lemma FirstsSnoc(batch: seq<Proxy>, probes: string -> Probe)
    requires batch != []
    ensures var p := batch[|batch| - 1];
            |FirstTimeouts(batch, probes)| == |FirstTimeouts(batch[..|batch| - 1], probes)|
               + if EndpointOk(p) && SaysTimeout(probes(p.id).connect) then 1 else 0
  {
    var init := batch[..|batch| - 1];
    assert forall i :: 0 <= i < |init| ==> init[i] == batch[i];
    OneMoreIndex(FirstTimeouts(init, probes), FirstTimeouts(batch, probes), |batch| - 1);
  }

  lemma SecondsSnoc(batch: seq<Proxy>, probes: string -> Probe)
    requires batch != []
    ensures var p := batch[|batch| - 1];
            |SecondTimeouts(batch, probes)| == |SecondTimeouts(batch[..|batch| - 1], probes)|
               + if EndpointOk(p) && Answers(probes(p.id).connect) && SaysTimeout(probes(p.id).observe) then 1 else 0
  {
    var init := batch[..|batch| - 1];
    assert forall i :: 0 <= i < |init| ==> init[i] == batch[i];
    OneMoreIndex(SecondTimeouts(init, probes), SecondTimeouts(batch, probes), |batch| - 1);
  }

  /** The timeouts of a batch are its requests that timed out. */
  lemma {:induction false} TimeoutsAreRequests(cfg: Config, batch: seq<Proxy>, probes: string -> Probe)
    ensures Timeouts(BatchOutcomes(cfg, batch, probes))
            == |FirstTimeouts(batch, probes)| + |SecondTimeouts(batch, probes)|
  {
    if batch == [] {
      assert FirstTimeouts(batch, probes) == {} && SecondTimeouts(batch, probes) == {};
    } else {
      TimeoutsAreRequests(cfg, batch[..|batch| - 1], probes);
      TimeoutsSnoc(cfg, batch, probes);
      FirstsSnoc(batch, probes);
      SecondsSnoc(batch, probes);
    }
  }

  // ---------------------------------------------------------------- convergence

  /** A record with nothing but failures ahead: every probe fails to connect and every cooldown is over. */
  ghost predicate AllFailing(probes: string -> Probe, t: Table, now: int) {
    && (forall id :: !ConnectivityCheck(probes(id).connect).ok)
    && (forall id :: id in PoolIds(t, Cooldown) ==> Expired(t[id].payload, now))
  }

  lemma {:induction false} ReleaseKeepsStrikes(t: Table, ws: seq<Write>)
    requires forall i :: 0 <= i < |ws| ==>
               && ws[i].proxy.id in t && t[ws[i].proxy.id].pool == Cooldown
               && ws[i] == Write(Raw, Released(t[ws[i].proxy.id].payload))
    ensures WeightBefore(t, ws, StrikesLeft) == WeightAfter(ws, StrikesLeft)
  {
    if ws != [] {
      ReleaseKeepsStrikes(t, ws[..|ws| - 1]);
    }
  }

  /** A failing validation always costs its record at least one of the strikes it has left. */
  lemma FailureCostsAStrike(cfg: Config, p: Proxy, probe: Probe)
    requires !ConnectivityCheck(probe.connect).ok
    ensures var out := Validated(cfg, p, probe);
            StrikesLeft.Of(RowOf(out.target, out.proxy)) + 1 <= StrikesLeft.Of(RowOf(Raw, p))
  {}

  lemma {:induction false} FailuresCostStrikes(cfg: Config, mid: Table, batch: seq<Proxy>, probes: string -> Probe)
    requires forall i :: 0 <= i < |batch| ==>
               batch[i].id in mid && mid[batch[i].id].pool == Raw && mid[batch[i].id].payload == batch[i]
    requires forall id :: !ConnectivityCheck(probes(id).connect).ok
    ensures var ws := OutcomeWrites(BatchOutcomes(cfg, batch, probes));
            && (forall i :: 0 <= i < |ws| ==> ws[i].proxy.id in mid)
            && WeightAfter(ws, StrikesLeft) + |batch| <= WeightBefore(mid, ws, StrikesLeft)
  {
    var outs := BatchOutcomes(cfg, batch, probes);
    OutcomeIds(cfg, batch, probes);
    if batch != [] {
      var last := |batch| - 1;
      FailuresCostStrikes(cfg, mid, batch[..last], probes);
      assert BatchOutcomes(cfg, batch[..last], probes) == outs[..last];
      OutcomeAt(cfg, batch, probes, last);
      assert OutcomeWrites(outs)[..last] == OutcomeWrites(outs[..last]);
      FailureCostsAStrike(cfg, batch[last], probes(batch[last].id));
      SameStrikes(mid[batch[last].id], batch[last]);
    }
  }

  lemma SameStrikes(row: Row, p: Proxy)
    requires row.pool == Raw && row.payload == p
    ensures StrikesLeft.Of(row) == StrikesLeft.Of(RowOf(Raw, p))
  {}

  /** If raw or cooldown holds anything, the job finds something to validate. */
  lemma {:induction false} BatchIsNotEmpty(cfg: Config, probes: string -> Probe, j: Job)
    requires IsJob(cfg, probes, j)
    ensures AllFailing(probes, j.t, j.now) && j.limit >= 1 && PoolIds(j.t, Raw) + PoolIds(j.t, Cooldown) != {}
            ==> j.batch != []
  {
    if AllFailing(probes, j.t, j.now) && j.limit >= 1 && PoolIds(j.t, Raw) + PoolIds(j.t, Cooldown) != {} {
      var id: string;
      if PoolIds(j.t, Raw) != {} {
        id :| id in PoolIds(j.t, Raw);
      } else {
        assert |PoolIds(j.t, Cooldown)| > 0;
        id := j.cooled[0].id;
        assert id in PoolIds(j.t, Cooldown);
      }
      ReleaseMovesExpired(cfg, probes, j, id);
      assert id in PoolIds(j.mid, Raw);
      assert |PoolIds(j.mid, Raw)| > 0;
    }
  }

  /** Convergence: when every connection fails and every cooldown is over, a job with any positive limit
      strictly lowers the strikes left in raw and cooldown, unless both are empty. */
  lemma {:induction false} JobConverges(cfg: Config, probes: string -> Probe, j: Job)
    requires IsJob(cfg, probes, j) && AllFailing(probes, j.t, j.now) && j.limit >= 1
    ensures Sum(j.after, StrikesLeft) <= Sum(j.t, StrikesLeft)
    ensures PoolIds(j.t, Raw) + PoolIds(j.t, Cooldown) != {} ==> Sum(j.after, StrikesLeft) < Sum(j.t, StrikesLeft)
  {
    var release := ReleaseWrites(j.cooled, j.now);
    ReleaseRewrites(cfg, probes, j);
    forall i | 0 <= i < |release|
      ensures j.t[release[i].proxy.id].pool == Cooldown
              && release[i] == Write(Raw, Released(j.t[release[i].proxy.id].payload))
    {
      assert release[i] in release;
    }
    RewritesChangeSum(j.t, release, StrikesLeft);
    ReleaseKeepsStrikes(j.t, release);
    BatchRewrites(cfg, probes, j);
    RewritesChangeSum(j.mid, OutcomeWrites(BatchOutcomes(cfg, j.batch, probes)), StrikesLeft);
    FailuresCostStrikes(cfg, j.mid, j.batch, probes);
    if PoolIds(j.t, Raw) + PoolIds(j.t, Cooldown) != {} {
      BatchIsNotEmpty(cfg, probes, j);
    }
  }

  /** A run of jobs, each starting from the table the one before left. */
  ghost predicate FailingRun(cfg: Config, probes: seq<string -> Probe>, js: seq<Job>) {
    && |probes| == |js|
    && (forall k :: 0 <= k < |js| ==>
          IsJob(cfg, probes[k], js[k]) && AllFailing(probes[k], js[k].t, js[k].now) && js[k].limit >= 1)
    && (forall k :: 0 < k < |js| ==> js[k].t == js[k - 1].after)
  }

  /** After as many failing jobs as there were strikes left at the start, both pools are empty. */
  lemma {:induction false} FailingRunEmptiesPools(cfg: Config, probes: seq<string -> Probe>, js: seq<Job>)
    requires FailingRun(cfg, probes, js) && js != []
    ensures var end := js[|js| - 1].after;
            && Sum(end, StrikesLeft) <= Max(0, Sum(js[0].t, StrikesLeft) - |js|)
            && (|js| >= Sum(js[0].t, StrikesLeft) ==> PoolIds(end, Raw) == {} && PoolIds(end, Cooldown) == {})
  {
    var last := js[|js| - 1];
    if |js| > 1 {
      FailingRunEmptiesPools(cfg, probes[..|js| - 1], js[..|js| - 1]);
    }
    JobConverges(cfg, probes[|js| - 1], last);
    if PoolIds(last.t, Raw) + PoolIds(last.t, Cooldown) == {} {
      NoStrikesLeft(last.t, last.t.Keys);
    }
    EmptyWhenNoStrikes(last.after);
  }

  lemma {:induction false} NoStrikesLeft(t: Table, ids: set<string>)
    requires PoolIds(t, Raw) + PoolIds(t, Cooldown) == {} && ids <= t.Keys
    ensures SumOver(t, StrikesLeft, ids) == 0
    decreases |ids|
  {
    if ids != {} {
      var id :| id in ids
                && SumOver(t, StrikesLeft, ids) == StrikesLeft.Of(t[id]) + SumOver(t, StrikesLeft, ids - {id});
      NoStrikesLeft(t, ids - {id});
      assert id !in PoolIds(t, Raw) && id !in PoolIds(t, Cooldown);
      assert StrikesLeft.Of(t[id]) == 0;
    }
  }

  lemma EmptyWhenNoStrikes(t: Table)
    ensures Sum(t, StrikesLeft) == 0 ==> PoolIds(t, Raw) == {} && PoolIds(t, Cooldown) == {}
  {
    forall id | id in PoolIds(t, Raw) || id in PoolIds(t, Cooldown) ensures Sum(t, StrikesLeft) >= 1 {
      assert StrikesLeft.Of(t[id]) >= 1;
      SumOverSplit(t, StrikesLeft, t.Keys, id);
    }
    if Sum(t, StrikesLeft) == 0 {
      assert forall id :: id !in PoolIds(t, Raw) && id !in PoolIds(t, Cooldown);
    }
  }
}

/** The scheduler's validation job over the store and the activity record. */
module Scheduling {
  import opened Domain
  import opened Validators
  import opened Lifecycle
  import opened Tables
  import opened Query
  import opened Storage
  import opened Services
  import opened Jobs
  import opened BoundedLog
  import opened Activity
  import Decimal

  function StartedEvent(number: nat, at: int): EventEntry {
    EventEntry(number, "validation_started", Info, "Background validation job started.", at)
  }

  function FinishedEvent(number: nat, checked: nat, successes: nat, at: int): EventEntry {
    EventEntry(number, "validation_finished", Info,
               "Validation job processed " + Decimal.Print(checked) + " proxies with " + Decimal.Print(successes)
               + " successes.", at)
  }

  function FailedEvent(number: nat, error: string, at: int): EventEntry {
    EventEntry(number, "validation_failed", Warning, "Validation job failed: " + error, at)
  }

  /** An exception out of the release or the batch: its class name, and what the steps before it, and tasks
      still under way, leave in the table. */
  datatype Fault = Fault(error: string, left: Table)

  /** The closing event of a job. */
  function ClosingEvent(number: nat, result: ValidationJob, fault: Option<Fault>, at: int): EventEntry {
    if fault.Some? then FailedEvent(number, fault.value.error, at)
    else FinishedEvent(number, result.checkedCount, result.successCount, at)
  }

  /** What the log shows of a job: one entry when it starts and one when it ends, either way. */
  lemma EventKinds(number: nat, result: ValidationJob, fault: Option<Fault>, at: int)
    ensures var started, closed := StartedEvent(number, at), ClosingEvent(number + 1, result, fault, at);
            && started.createdAt == closed.createdAt == at
            && (started.kind, started.level) == ("validation_started", Info)
            && (closed.kind, closed.level)
               == if fault.Some? then ("validation_failed", Warning) else ("validation_finished", Info)
  {}

  /** The counts of a finished job are those of its batch, they add up, and they are what the pools have
      grown by; its timeouts are the requests that timed out. */
  ghost predicate CountsJob(result: ValidationJob, job: Job, probes: string -> Probe) {
    && result.checkedCount == |job.batch| == Min(Max(job.limit, 0), CountOf(job.mid, Raw))
    && result.successCount + result.failCount == result.checkedCount
    && result.timeoutCount == |FirstTimeouts(job.batch, probes)| + |SecondTimeouts(job.batch, probes)|
    && result.timeoutCount <= result.checkedCount
    && CountIn(job.after, {Checked, Elite}) == CountIn(job.mid, {Checked, Elite}) + result.successCount
    && CountIn(job.after, {Cooldown, Dead}) == CountIn(job.mid, {Cooldown, Dead}) + result.failCount
    && result.status == Succeeded
  }

  predicate CountsNothing(result: ValidationJob) {
    && result.checkedCount == result.successCount == result.failCount == result.timeoutCount == 0
    && result.status == Failed
  }

  class SchedulerService {
    const store: Store
    const log: RuntimeActivity
    const cfg: Config
    const batchSize: nat

    constructor (store: Store, log: RuntimeActivity, cfg: Config, batchSize: nat)
      ensures this.store == store && this.log == log && this.cfg == cfg && this.batchSize == batchSize
    {
      this.store, this.log, this.cfg, this.batchSize := store, log, cfg, batchSize;
    }

    /** A missing limit, and a limit of zero, mean the configured batch size. */
    function Limit(limit: Option<int>): int {
      if limit.Some? && limit.value != 0 then limit.value else batchSize
    }

    /** The two store-changing steps of a job, and what they conserve. */
    method ReleaseAndValidate(limit: int, probes: string -> Probe, releasedAt: int)
      returns (outcomes: seq<Outcome>, ghost job: Job)
      requires store.Valid()
      modifies store`rows
      ensures store.Valid()
      ensures IsJob(cfg, probes, job) && outcomes == BatchOutcomes(cfg, job.batch, probes)
      ensures job.t == old(store.rows) && job.limit == limit && job.now == releasedAt && job.after == store.rows
    {
      var cooldown := new CooldownService(store);
      var validator := new ValidateService(store, cfg);
      ghost var t := store.rows;
      var released, cooled := cooldown.ReleaseExpired(limit, releasedAt);
      ghost var mid := store.rows;
      ghost var batch;
      outcomes, batch := validator.ValidatePool(Raw, limit, probes);
      job := Job(t, limit, releasedAt, cooled, mid, batch, store.rows);
    }

    /** The counts of a batch. */
    method CountOutcomes(outcomes: seq<Outcome>, ghost job: Job, probes: string -> Probe, jobId: string,
                         startedAt: int, finishedAt: int) returns (result: ValidationJob)
      requires IsJob(cfg, probes, job) && outcomes == BatchOutcomes(cfg, job.batch, probes)
      ensures job.after.Keys == job.t.Keys && CountsJob(result, job, probes)
      ensures result.id == jobId && result.startedAt == startedAt && result.finishedAt == Some(finishedAt)
    {
      JobAccounting(cfg, probes, job);
      TimeoutsAtMostChecked(cfg, job.batch, probes);
      TimeoutsAreRequests(cfg, job.batch, probes);
      var successes := Successes(outcomes);
      result := ValidationJob(jobId, startedAt, Some(finishedAt), |outcomes|, successes, |outcomes| - successes,
                              Timeouts(outcomes), Succeeded);
    }

    /** Notes the end of a job: the job itself and its closing event. */
    method NoteEnd(result: ValidationJob, fault: Option<Fault>, finishedAt: int)
      requires result.finishedAt == Some(finishedAt)
      modifies log`events, log`jobs, log`nextNumber, log`lastValidateAt
      ensures log.jobs == Push(PruneTail(old(log.jobs), JobStamp, finishedAt - log.jobRetention), result, log.jobLimit)
      ensures log.nextNumber == old(log.nextNumber) + 1 && log.lastValidateAt == Some(finishedAt)
      ensures log.events == Noted(old(log.events), ClosingEvent(old(log.nextNumber), result, fault, finishedAt),
                                  log.eventLimit, log.eventRetention, finishedAt)
    {
      log.RecordValidationJob(result, finishedAt);
      if fault.Some? {
        var _ := log.RecordEvent("validation_failed", Warning, "Validation job failed: " + fault.value.error,
                                 Some(finishedAt), finishedAt);
      } else {
        var message := "Validation job processed " + Decimal.Print(result.checkedCount) + " proxies with "
                       + Decimal.Print(result.successCount) + " successes.";
        var _ := log.RecordEvent("validation_finished", Info, message, Some(finishedAt), finishedAt);
      }
    }

    /** Release and batch, or what an exception out of them leaves. */
    method Attempt(limit: int, probes: string -> Probe, fault: Option<Fault>, jobId: string, startedAt: int,
                   releasedAt: int, finishedAt: int) returns (result: ValidationJob, ghost job: Job)
      requires store.Valid() && (fault.Some? ==> Agrees(fault.value.left))
      modifies store`rows
      ensures store.Valid()
      ensures fault.None? ==>
                && IsJob(cfg, probes, job)
                && job.t == old(store.rows) && job.limit == limit && job.now == releasedAt
                && job.after == store.rows && store.rows.Keys == old(store.rows.Keys)
                && CountsJob(result, job, probes)
      ensures fault.Some? ==> store.rows == fault.value.left && CountsNothing(result)
      ensures result.id == jobId && result.startedAt == startedAt && result.finishedAt == Some(finishedAt)
    {
      if fault.Some? {
        job := Job(store.rows, limit, releasedAt, [], store.rows, [], fault.value.left);
        store.rows := fault.value.left;
        result := ValidationJob(jobId, startedAt, Some(finishedAt), 0, 0, 0, 0, Failed);
      } else {
        var outcomes;
        outcomes, job := ReleaseAndValidate(limit, probes, releasedAt);
        result := CountOutcomes(outcomes, job, probes, jobId, startedAt, finishedAt);
      }
    }

    /** Runs one job; `job` is the ghost record of what it saw. A job that ends reports counts that are those of
        the batch; a job that an exception ends reports none, whatever it has changed by then. Either is
        recorded, between a starting and a closing event. */
    method RunValidateOnce(limit: Option<int>, probes: string -> Probe, fault: Option<Fault>, jobId: string,
                           startedAt: int, releasedAt: int, finishedAt: int)
      returns (result: ValidationJob, ghost job: Job)
      requires store.Valid() && (fault.Some? ==> Agrees(fault.value.left))
      modifies store`rows, log`events, log`jobs, log`nextNumber, log`lastValidateAt
      ensures store.Valid()
      ensures fault.None? ==>
                && IsJob(cfg, probes, job)
                && job.t == old(store.rows) && job.now == releasedAt
                && job.limit == (if limit in {None, Some(0)} then batchSize else limit.value)
                && job.after == store.rows && store.rows.Keys == old(store.rows.Keys)
                && CountsJob(result, job, probes)
      ensures fault.Some? ==> store.rows == fault.value.left && CountsNothing(result)
      ensures result.id == jobId && result.startedAt == startedAt && result.finishedAt == Some(finishedAt)
      ensures log.jobs == Push(PruneTail(old(log.jobs), JobStamp, finishedAt - log.jobRetention), result, log.jobLimit)
      ensures log.nextNumber == old(log.nextNumber) + 2 && log.lastValidateAt == Some(finishedAt)
      ensures var n := old(log.nextNumber);
              var started := Noted(old(log.events), StartedEvent(n, startedAt),
                                   log.eventLimit, log.eventRetention, startedAt);
              log.events == Noted(started, ClosingEvent(n + 1, result, fault, finishedAt),
                                  log.eventLimit, log.eventRetention, finishedAt)
    {
      var _ := log.RecordEvent("validation_started", Info, "Background validation job started.",
                               Some(startedAt), startedAt);
      result, job := Attempt(Limit(limit), probes, fault, jobId, startedAt, releasedAt, finishedAt);
      NoteEnd(result, fault, finishedAt);
    }
  }
}
