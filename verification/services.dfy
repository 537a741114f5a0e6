/** The services that move records between pools. */
module Services {
  import Text
  import opened Domain
  import opened Validators
  import opened Scoring
  import opened Lifecycle
  import opened Tables
  import opened Query
  import opened KeyValue
  import opened Storage
  import opened Geo

  /** list_proxies from the start, as every service calls it. */
  method ListFirst(store: Store, pool: Pool, limit: int) returns (listed: seq<Proxy>)
    requires store.Valid()
    ensures IsListing(store.rows, pool, limit, listed)
  {
    var proxies, _ := store.ListProxies(pool, limit, 0);
    listed := proxies;
  }

  // ---------------------------------------------------------------- cooldown

  /** The rows a release writes: the expired records of the listing, in its order. */
  function ReleaseWrites(listed: seq<Proxy>, now: int): seq<Write> {
    if listed == [] then []
    else
      var last := listed[|listed| - 1];
      ReleaseWrites(listed[..|listed| - 1], now) + if Expired(last, now) then [Write(Raw, Released(last))] else []
  }

  lemma ReleaseWritesSnoc(listed: seq<Proxy>, k: nat, now: int)
    requires k < |listed|
    ensures var before := ReleaseWrites(listed[..k], now); var w := Write(Raw, Released(listed[k]));
            if Expired(listed[k], now)
            then ReleaseWrites(listed[..k + 1], now) == before + [w]
                 && Proxies(before + [w]) == Proxies(before) + [w.proxy]
            else ReleaseWrites(listed[..k + 1], now) == before
  {
    assert listed[..k + 1][..k] == listed[..k];
  }

  function Proxies(ws: seq<Write>): (ps: seq<Proxy>)
    ensures |ps| == |ws| && forall i :: 0 <= i < |ps| ==> ps[i] == ws[i].proxy
  {
    seq(|ws|, i requires 0 <= i < |ws| => ws[i].proxy)
  }

  class CooldownService {
    const store: Store

    constructor (store: Store)
      ensures this.store == store
    {
      this.store := store;
    }

    /** Releases the expired records among the listed ones, back to raw and without a cooldown. */
    method ReleaseExpired(limit: int, now: int) returns (released: seq<Proxy>, ghost listed: seq<Proxy>)
      requires store.Valid()
      modifies store`rows
      ensures store.Valid()
      ensures IsListing(old(store.rows), Cooldown, limit, listed)
      ensures store.rows == WriteAll(old(store.rows), ReleaseWrites(listed, now))
      ensures released == Proxies(ReleaseWrites(listed, now))
    {
      var proxies := ListFirst(store, Cooldown, limit);
      listed := proxies;
      released := [];
      ghost var writes: seq<Write> := [];
      for k := 0 to |proxies|
        invariant store.Valid()
        invariant writes == ReleaseWrites(proxies[..k], now)
        invariant store.rows == WriteAll(old(store.rows), writes)
        invariant released == Proxies(writes)
      {
        var p := proxies[k];
        ReleaseWritesSnoc(proxies, k, now);
        if Expired(p, now) {
          var stored := ReleaseOne(p);
          WriteAllSnoc(old(store.rows), writes, Write(Raw, stored));
          writes := writes + [Write(Raw, stored)];
          released := released + [stored];
        }
      }
      assert proxies[..|proxies|] == proxies;
    }

    method ReleaseOne(p: Proxy) returns (stored: Proxy)
      requires store.Valid()
      modifies store`rows
      ensures store.Valid()
      ensures stored == Released(p) && store.rows == Put(old(store.rows), Raw, stored)
    {
      MoveIsPut(store.rows, Cooldown, Raw, p.(cooldownUntil := None));
      var _ := store.RemoveProxy(Cooldown, p.id);
      stored := store.AddProxy(Raw, p.(cooldownUntil := None));
    }
  }

  // ---------------------------------------------------------------- validation

  /** The outcomes of a batch, each from its own snapshot and oracle. */
  function BatchOutcomes(cfg: Config, batch: seq<Proxy>, probes: string -> Probe): (outs: seq<Outcome>)
    ensures |outs| == |batch|
  {
    if batch == [] then []
    else
      var last := batch[|batch| - 1];
      BatchOutcomes(cfg, batch[..|batch| - 1], probes) + [Validated(cfg, last, probes(last.id))]
  }

  lemma {:induction false} OutcomeAt(cfg: Config, batch: seq<Proxy>, probes: string -> Probe, i: nat)
    requires i < |batch|
    ensures BatchOutcomes(cfg, batch, probes)[i] == Validated(cfg, batch[i], probes(batch[i].id))
  {
    if i < |batch| - 1 {
      OutcomeAt(cfg, batch[..|batch| - 1], probes, i);
    }
  }

  lemma BatchOutcomesSnoc(cfg: Config, batch: seq<Proxy>, probes: string -> Probe, k: nat)
    requires k < |batch|
    ensures BatchOutcomes(cfg, batch[..k + 1], probes)
            == BatchOutcomes(cfg, batch[..k], probes) + [Validated(cfg, batch[k], probes(batch[k].id))]
  {
    assert batch[..k + 1][..k] == batch[..k];
  }

  /** The rows those outcomes write. */
  function OutcomeWrites(outs: seq<Outcome>): (ws: seq<Write>)
    ensures |ws| == |outs|
    ensures forall i :: 0 <= i < |ws| ==> ws[i] == Write(outs[i].target, outs[i].proxy)
  {
    seq(|outs|, i requires 0 <= i < |outs| => Write(outs[i].target, outs[i].proxy))
  }

  lemma OutcomeWritesSnoc(t: Table, outs: seq<Outcome>, out: Outcome)
    ensures WriteAll(t, OutcomeWrites(outs + [out])) == Put(WriteAll(t, OutcomeWrites(outs)), out.target, out.proxy)
  {
    assert OutcomeWrites(outs + [out]) == OutcomeWrites(outs) + [Write(out.target, out.proxy)];
    WriteAllSnoc(t, OutcomeWrites(outs), Write(out.target, out.proxy));
  }

  class ValidateService {
    const store: Store
    const cfg: Config

    constructor (store: Store, cfg: Config)
      ensures this.store == store && this.cfg == cfg
    {
      this.store, this.cfg := store, cfg;
    }

    method ValidateProxy(p: Proxy, from: Pool, probe: Probe) returns (outcome: Outcome)
      requires store.Valid()
      modifies store`rows
      ensures store.Valid()
      ensures outcome == Validated(cfg, p, probe)
      ensures store.rows == Put(old(store.rows), outcome.target, outcome.proxy)
    {
      var protocol := ProtocolCheck(p);
      var connectivity, anonymity := None, None;
      if protocol.ok {
        connectivity := Some(ConnectivityCheck(probe.connect));
      }
      if connectivity.Some? && connectivity.value.ok {
        anonymity := Some(AnonymityCheck(probe.observe));
      }
      var checks := Checks(protocol, connectivity, anonymity);
      var updated := ApplyValidationScore(p, checks, probe.checkedAt);
      var target := TargetPool(cfg, updated, checks);
      updated := TargetState(cfg, updated, target, probe.cooledAt);
      MoveIsPut(store.rows, from, target, updated);
      var _ := store.RemoveProxy(from, p.id);
      var stored := store.AddProxy(target, updated);
      outcome := Outcome(target, stored, checks);
    }

    /** One batch, task after task; interleaved schedules end in the same table (module Batches). */
    method ValidatePool(pool: Pool, limit: int, probes: string -> Probe)
      returns (outcomes: seq<Outcome>, ghost listed: seq<Proxy>)
      requires store.Valid()
      modifies store`rows
      ensures store.Valid()
      ensures IsListing(old(store.rows), pool, limit, listed)
      ensures outcomes == BatchOutcomes(cfg, listed, probes)
      ensures store.rows == WriteAll(old(store.rows), OutcomeWrites(outcomes))
    {
      var proxies := ListFirst(store, pool, limit);
      listed := proxies;
      outcomes := [];
      for k := 0 to |proxies|
        invariant store.Valid()
        invariant outcomes == BatchOutcomes(cfg, proxies[..k], probes)
        invariant store.rows == WriteAll(old(store.rows), OutcomeWrites(outcomes))
      {
        var outcome := ValidateProxy(proxies[k], pool, probes(proxies[k].id));
        BatchOutcomesSnoc(cfg, proxies, probes, k);
        OutcomeWritesSnoc(old(store.rows), outcomes, outcome);
        outcomes := outcomes + [outcome];
      }
      assert proxies[..|proxies|] == proxies;
    }
  }

  // ---------------------------------------------------------------- use of proxies

  /** The proxy a session is pinned to, when it is still there, selectable and matching. */
  function Pinned(t: Table, kv: Kv, session: string, f: Filters, now: int): Option<Proxy> {
    var id := Peek(kv, SessionKey(session), now);
    if id.None? || id.value !in t then None
    else
      var p := t[id.value].payload;
      if p.status in {Checked, Elite} && MatchesFilters(p, f) then Some(p) else None
  }

  /** The answer to a request for a proxy: the pinned one, else the best one. */
  function Served(t: Table, kv: Kv, session: Option<string>, f: Filters, now: int): Option<Proxy> {
    if session.Some? && Pinned(t, kv, session.value, f, now).Some? then Pinned(t, kv, session.value, f, now)
    else Best(t, f)
  }

  /** Any answer is a row in checked or elite that agrees with every filter. */
  lemma ServedAgrees(t: Table, kv: Kv, session: Option<string>, f: Filters, now: int)
    requires Agrees(t) && Served(t, kv, session, f, now).Some?
    ensures var p := Served(t, kv, session, f, now).value;
            && p.id in t && t[p.id] == RowOf(p.status, p) && p.status in {Checked, Elite} && MatchesFilters(p, f)
            && (f.scheme == None || f.scheme.value == p.scheme)
            && (f.anonymity == None || f.anonymity.value == p.anonymity)
            && (f.country == None || f.country == p.country) && (f.source == None || f.source.value == p.source)
            && (f.minScore == None || f.minScore.value <= p.score)
            && (f.query == None || Text.Strip(f.query.value) == "" || StandsIn(p, f.query.value))
  {
    var p := Served(t, kv, session, f, now).value;
    BestWithQuery(t, f);
    if session.Some? && Pinned(t, kv, session.value, f, now).Some? {
      var id := Peek(kv, SessionKey(session.value), now).value;
      assert RowAgrees(id, t[id]);
    }
    FiltersMean(p, f);
  }

  /** The bindings after it: a pinned answer leaves them alone, a fresh answer is bound to the session. */
  function ServedKv(t: Table, kv: Kv, session: Option<string>, f: Filters, ttl: int, now: int): Kv {
    if session.None? || Pinned(t, kv, session.value, f, now).Some? then kv
    else
      var key := SessionKey(session.value);
      match Best(t, f)
      case None => AfterRead(kv, key, now)
      case Some(p) => Saved(AfterRead(kv, key, now), key, p.id, ttl, now)
  }

  class ProxyService {
    const store: Store
    const cfg: Config
    const affinityTtl: int

    constructor (store: Store, cfg: Config, affinityTtl: int)
      ensures this.store == store && this.cfg == cfg && this.affinityTtl == affinityTtl
    {
      this.store, this.cfg, this.affinityTtl := store, cfg, affinityTtl;
    }

    /** The record the session is bound to, if it is bound and unexpired, and the record is there, selectable,
        and in agreement with every filter. */
    method GetSessionProxy(session: string, f: Filters, now: int) returns (pinned: Option<Proxy>)
      requires store.Valid()
      modifies store`kv
      ensures pinned == Pinned(store.rows, old(store.kv), session, f, now)
      ensures pinned.Some? ==>
                && Peek(old(store.kv), SessionKey(session), now) == Some(pinned.value.id)
                && pinned.value.id in store.rows && store.rows[pinned.value.id].payload == pinned.value
      ensures var id := Peek(old(store.kv), SessionKey(session), now);
              pinned.Some? <==>
                && id.Some? && id.value in store.rows
                && var p := store.rows[id.value].payload;
                   && p.status in {Checked, Elite}
                   && (f.scheme == None || f.scheme.value == p.scheme)
                   && (f.anonymity == None || f.anonymity.value == p.anonymity)
                   && (f.country == None || f.country == p.country) && (f.source == None || f.source.value == p.source)
                   && (f.minScore == None || f.minScore.value <= p.score)
                   && (f.query == None || Text.Strip(f.query.value) == "" || StandsIn(p, f.query.value))
      ensures store.kv == AfterRead(old(store.kv), SessionKey(session), now)
    {
      var id := store.GetSessionProxyId(session, now);
      if id.None? {
        return None;
      }
      var p := store.GetProxy(id.value);
      if p.Some? {
        assert RowAgrees(id.value, store.rows[id.value]);
        FiltersMean(p.value, f);
      }
      if p.None? || p.value.status !in {Checked, Elite} || !MatchesFilters(p.value, f) {
        return None;
      }
      pinned := p;
    }

    /** Whatever is returned is a row of the table, in checked or elite, and agrees with every filter. */
    method GetProxy(f: Filters, session: Option<string>, now: int) returns (p: Option<Proxy>)
      requires store.Valid()
      modifies store`kv
      ensures p == Served(store.rows, old(store.kv), session, f, now)
      ensures store.kv == ServedKv(store.rows, old(store.kv), session, f, affinityTtl, now)
      ensures p.Some? ==> p.value.id in store.rows && store.rows[p.value.id] == RowOf(p.value.status, p.value)
                          && p.value.status in {Checked, Elite} && MatchesFilters(p.value, f)
    {
      if Served(store.rows, store.kv, session, f, now).Some? {
        ServedAgrees(store.rows, store.kv, session, f, now);
      }
      if session.Some? {
        var pinned := GetSessionProxy(session.value, f, now);
        if pinned.Some? {
          return pinned;
        }
      }
      p := store.GetBestProxy(f);
      if p.Some? && session.Some? {
        store.BindSessionProxy(session.value, p.value.id, affinityTtl, now);
      }
    }

    /** A report updates the record and may move it; a report on an unknown id changes nothing. */
    method ReportResult(id: string, r: Report, now: int, cooledAt: int) returns (result: Option<Proxy>)
      requires store.Valid()
      modifies store`rows
      ensures store.Valid()
      ensures id !in old(store.rows) ==> result == None && store.rows == old(store.rows)
      ensures id in old(store.rows) ==>
                var row := old(store.rows)[id];
                var stored := Reported(cfg, row.pool, row.payload, r, now, cooledAt);
                result == Some(stored) && store.rows == Put(old(store.rows), stored.status, stored)
    {
      var record := store.GetProxyRecord(id);
      if record.None? {
        return None;
      }
      var (pool, p) := record.value;
      assert RowAgrees(id, store.rows[id]);
      var updates := p.(lastCheckedAt := Some(now));
      if r.latencyMs.Some? {
        updates := updates.(latencyMs := r.latencyMs);
      }
      if r.ok {
        updates := updates.(score := p.score + 10, successCount := p.successCount + 1, consecutiveFailCount := 0,
                            lastSuccessAt := Some(now), lastError := None, cooldownUntil := None);
        var saved := store.SaveProxy(pool, updates);
        return Some(saved);
      }
      var inARow := p.consecutiveFailCount + 1;
      updates := updates.(score := p.score - 20, failCount := p.failCount + 1, consecutiveFailCount := inARow,
                          lastError := if r.error.Some? && r.error.value != "" then r.error
                                       else Some("reported_failure"));
      var stored;
      if inARow >= 5 && pool != Dead {
        MoveIsPut(store.rows, pool, Dead, updates);
        var _ := store.RemoveProxy(pool, p.id);
        stored := store.AddProxy(Dead, updates);
      } else if inARow >= 3 && pool != Cooldown {
        updates := updates.(cooldownUntil := Some(cooledAt + cfg.cooldownSeconds));
        MoveIsPut(store.rows, pool, Cooldown, updates);
        var _ := store.RemoveProxy(pool, p.id);
        stored := store.AddProxy(Cooldown, updates);
      } else {
        stored := store.SaveProxy(pool, updates);
      }
      result := Some(stored);
    }

    method DeleteProxy(id: string) returns (deleted: bool)
      requires store.Valid()
      modifies store`rows
      ensures store.Valid()
      ensures store.rows == old(store.rows) - {id} && (deleted <==> id in old(store.rows))
    {
      deleted := store.DeleteProxy(id);
    }
  }

  // ---------------------------------------------------------------- fetching

  predicate OccursFirstAt(ps: seq<Proxy>, i: int) {
    0 <= i < |ps| && forall j :: 0 <= j < i ==> ps[j].id != ps[i].id
  }

  /** The records among the first `n` that repeat no earlier id, in their order. */
  function KeptUpTo(ps: seq<Proxy>, n: nat): seq<Proxy>
    requires n <= |ps|
  {
    if n == 0 then [] else KeptUpTo(ps, n - 1) + if OccursFirstAt(ps, n - 1) then [ps[n - 1]] else []
  }

  function FirstOccurrences(ps: seq<Proxy>): seq<Proxy> { KeptUpTo(ps, |ps|) }

  /** The positions of the kept records. */
  function Positions(ps: seq<Proxy>, n: nat): seq<int>
    requires n <= |ps|
  {
    if n == 0 then [] else Positions(ps, n - 1) + if OccursFirstAt(ps, n - 1) then [n - 1] else []
  }

  lemma {:induction false} PositionsRise(ps: seq<Proxy>, n: nat)
    requires n <= |ps|
    ensures |Positions(ps, n)| <= n
    ensures forall k :: 0 <= k < |Positions(ps, n)| ==> 0 <= Positions(ps, n)[k] < n
    ensures forall k, l :: 0 <= k < l < |Positions(ps, n)| ==> Positions(ps, n)[k] < Positions(ps, n)[l]
  {
    if n > 0 {
      PositionsRise(ps, n - 1);
    }
  }

  lemma {:induction false} PositionsAreFirst(ps: seq<Proxy>, n: nat, i: int)
    requires n <= |ps|
    ensures i in Positions(ps, n) <==> i < n && OccursFirstAt(ps, i)
  {
    if n > 0 {
      PositionsAreFirst(ps, n - 1, i);
    }
  }

  lemma {:induction false} KeptAtPosition(ps: seq<Proxy>, n: nat, k: nat)
    requires n <= |ps|
    ensures |Positions(ps, n)| == |KeptUpTo(ps, n)|
    ensures k < |Positions(ps, n)| ==> 0 <= Positions(ps, n)[k] < |ps| && KeptUpTo(ps, n)[k] == ps[Positions(ps, n)[k]]
  {
    if n > 0 {
      KeptAtPosition(ps, n - 1, k);
    }
  }

  /** Exactly the first occurrences are kept, in order: the kept positions are a strictly rising list of all
      indices whose id does not occur before. */
  lemma KeepsFirstOccurrences(ps: seq<Proxy>) returns (at: seq<int>)
    ensures |at| == |FirstOccurrences(ps)| <= |ps|
    ensures forall k :: 0 <= k < |at| ==> OccursFirstAt(ps, at[k]) && FirstOccurrences(ps)[k] == ps[at[k]]
    ensures forall k, l :: 0 <= k < l < |at| ==> at[k] < at[l]
    ensures forall i :: OccursFirstAt(ps, i) ==> i in at
  {
    at := Positions(ps, |ps|);
    PositionsRise(ps, |ps|);
    KeptAtPosition(ps, |ps|, 0);
    forall k | 0 <= k < |at| ensures OccursFirstAt(ps, at[k]) && FirstOccurrences(ps)[k] == ps[at[k]] {
      KeptAtPosition(ps, |ps|, k);
      PositionsAreFirst(ps, |ps|, at[k]);
    }
    forall i | OccursFirstAt(ps, i) ensures i in at {
      PositionsAreFirst(ps, |ps|, i);
    }
  }

  /** No id is kept twice, and no id is lost. */
  lemma FirstOccurrencesAreDistinct(ps: seq<Proxy>)
    ensures var kept := FirstOccurrences(ps);
            && (forall k, l :: 0 <= k < l < |kept| ==> kept[k].id != kept[l].id)
            && (forall i :: 0 <= i < |ps| ==> exists k :: 0 <= k < |kept| && kept[k].id == ps[i].id)
  {
    var kept := FirstOccurrences(ps);
    var at := KeepsFirstOccurrences(ps);
    forall k, l | 0 <= k < l < |kept| ensures kept[k].id != kept[l].id {
      assert OccursFirstAt(ps, at[l]);
    }
    forall i | 0 <= i < |ps| ensures exists k :: 0 <= k < |kept| && kept[k].id == ps[i].id {
      var first := FirstIndex(ps, i);
      var k :| 0 <= k < |at| && at[k] == first;
      assert kept[k].id == ps[i].id;
    }
  }

  lemma {:induction false} FirstIndex(ps: seq<Proxy>, i: nat) returns (first: nat)
    requires i < |ps|
    ensures OccursFirstAt(ps, first) && ps[first].id == ps[i].id
  {
    if j :| 0 <= j < i && ps[j].id == ps[i].id {
      first := FirstIndex(ps, j);
    } else {
      first := i;
    }
  }

  /** The loop with its set of seen ids. */
  method Deduplicate(ps: seq<Proxy>) returns (kept: seq<Proxy>)
    ensures kept == FirstOccurrences(ps)
  {
    var seen: set<string> := {};
    kept := [];
    for k := 0 to |ps|
      invariant forall id :: id in seen <==> exists i :: 0 <= i < k && ps[i].id == id
      invariant kept == KeptUpTo(ps, k)
    {
      if ps[k].id !in seen {
        seen := seen + {ps[k].id};
        kept := kept + [ps[k]];
      }
    }
  }

  function RawWrites(ps: seq<Proxy>): (ws: seq<Write>)
    ensures |ws| == |ps| && forall i :: 0 <= i < |ws| ==> ws[i] == Write(Raw, ps[i])
  {
    seq(|ps|, i requires 0 <= i < |ps| => Write(Raw, ps[i]))
  }

  /** Enrichment of a list; `ips` is what parsing a host as an address gives. */
  function EnrichAll(file: Option<seq<GeoRecord>>, ps: seq<Proxy>, ips: string -> Option<Ip>): (r: seq<Proxy>)
    ensures |r| == |ps|
    ensures forall i :: 0 <= i < |r| ==> r[i].id == ps[i].id && (Fresh(ps[i]) ==> Fresh(r[i]))
  {
    seq(|ps|, i requires 0 <= i < |ps| => EnrichOne(file, ps[i], ips))
  }

  function EnrichOne(file: Option<seq<GeoRecord>>, p: Proxy, ips: string -> Option<Ip>): Proxy {
    if file.None? then p else Enriched(file.value, p, ips(p.host))
  }

  class FetchService {
    const store: Store
    const resolver: GeoResolver?

    constructor (store: Store, resolver: GeoResolver?)
      ensures this.store == store && this.resolver == resolver
    {
      this.store, this.resolver := store, resolver;
    }

    function GeoFile(): Option<seq<GeoRecord>> { if resolver == null then None else Some(resolver.file) }

    method EnrichEach(fetched: seq<Proxy>, ips: string -> Option<Ip>) returns (enriched: seq<Proxy>)
      requires resolver != null ==> resolver.Valid()
      ensures enriched == EnrichAll(GeoFile(), fetched, ips)
    {
      enriched := [];
      for k := 0 to |fetched|
        invariant |enriched| == k && forall i :: 0 <= i < k ==> enriched[i] == EnrichOne(GeoFile(), fetched[i], ips)
      {
        var p := fetched[k];
        if resolver != null {
          p := resolver.Enrich(p, ips(p.host));
        }
        enriched := enriched + [p];
      }
    }

    /** Fetched records are enriched, de-duplicated by id, and written to raw one by one. After it exactly
        the fetched ids hold a fresh raw row, whatever they held before; no other row changes. */
    method FetchToRawPool(fetched: seq<Proxy>, ips: string -> Option<Ip>) returns (stored: seq<Proxy>)
      requires store.Valid()
      requires resolver != null ==> resolver.Valid()
      modifies store`rows
      ensures store.Valid()
      ensures store.rows == WriteAll(old(store.rows), RawWrites(FirstOccurrences(EnrichAll(GeoFile(), fetched, ips))))
      ensures |stored| == |FirstOccurrences(EnrichAll(GeoFile(), fetched, ips))|
      ensures forall i :: 0 <= i < |stored| ==>
                stored[i] == FirstOccurrences(EnrichAll(GeoFile(), fetched, ips))[i].(status := Raw)
    {
      var enriched := EnrichEach(fetched, ips);
      var kept := Deduplicate(enriched);
      stored := [];
      ghost var writes := RawWrites(kept);
      for k := 0 to |kept|
        invariant store.Valid()
        invariant store.rows == WriteAll(old(store.rows), writes[..k])
        invariant |stored| == k && forall i :: 0 <= i < k ==> stored[i] == kept[i].(status := Raw)
      {
        var s := store.AddProxy(Raw, kept[k]);
        assert writes[..k + 1] == writes[..k] + [writes[k]];
        WriteAllSnoc(old(store.rows), writes[..k], writes[k]);
        stored := stored + [s];
      }
      assert writes[..|kept|] == writes;
    }
  }

  /** What is stored of a fetched record: the record itself without a GeoIP file, an address or a match, else
      with country and ASN of the longest match. */
  lemma StoredRecord(file: Option<seq<GeoRecord>>, ps: seq<Proxy>, ips: string -> Option<Ip>, i: nat)
    requires i < |ps|
    ensures var stored := EnrichAll(file, ps, ips)[i]; var ip := ips(ps[i].host);
            && (file == None || ip == None ==> stored == ps[i])
            && (file.Some? && ip.Some? && NoneHolds(file.value, ip.value) ==> stored == ps[i])
            && (forall k :: file.Some? && ip.Some? && LongestAt(file.value, ip.value, k) ==>
                  stored == ps[i].(country := file.value[k].country, asn := file.value[k].asn))
  {
    if file.Some? {
      EnrichedFromLongest(file.value, ps[i], ips(ps[i].host));
    }
  }

  /** A fetched id holds its first record as a raw row. */
  lemma FetchedRow(t: Table, fetched: seq<Proxy>, i: int)
    requires OccursFirstAt(fetched, i)
    ensures var after := WriteAll(t, RawWrites(FirstOccurrences(fetched))); var p := fetched[i];
            p.id in after && after[p.id] == RowOf(Raw, p.(status := Raw))
  {
    var at := KeepsFirstOccurrences(fetched);
    FirstOccurrencesAreDistinct(fetched);
    var k :| 0 <= k < |at| && at[k] == i;
    var ws := RawWrites(FirstOccurrences(fetched));
    assert ws[k] == Write(Raw, fetched[i]);
    WriteAllAt(t, ws, k);
  }

  /** Any other id holds what it held before. */
  lemma UnfetchedRow(t: Table, fetched: seq<Proxy>, id: string)
    requires forall i :: 0 <= i < |fetched| ==> fetched[i].id != id
    ensures var after := WriteAll(t, RawWrites(FirstOccurrences(fetched)));
            (id in after <==> id in t) && (id in t ==> after[id] == t[id])
  {
    var at := KeepsFirstOccurrences(fetched);
    var ws := RawWrites(FirstOccurrences(fetched));
    forall w | w in ws ensures w.proxy.id != id {
      var k :| 0 <= k < |ws| && ws[k] == w;
      assert OccursFirstAt(fetched, at[k]);
    }
    WriteAllOutside(t, ws, id);
  }
}
