/** The SQLite-backed store: the `proxies` table and the `kv_store` table, changed in place. */
module Storage {
  import opened Domain
  import opened Tables
  import opened Query
  import opened KeyValue
  import Paging

  const POOL_NAMES := [Raw, Checked, Elite, Dead, Cooldown]
  const SELECTION_POOLS := [Elite, Checked]

  /** A whole pool, best score first. */
  ghost predicate ListsPool(t: Table, pool: Pool, all: seq<Proxy>) {
    && |all| == CountOf(t, pool)
    && (forall i :: 0 <= i < |all| ==> all[i].id in t && t[all[i].id].pool == pool && t[all[i].id].payload == all[i])
    && (forall i, j :: 0 <= i < j < |all| ==> all[i].id != all[j].id && all[i].score >= all[j].score)
    && (forall id :: id in PoolIds(t, pool) ==> t[id].payload in all)
  }

  lemma RankedRecords(t: Table, pool: Pool)
    requires Agrees(t)
    ensures var ranked := Ranked(t, PoolIds(t, pool)); var all := Payloads(t, ranked);
            forall i :: 0 <= i < |all| ==>
              ranked[i] in PoolIds(t, pool) && all[i].id == ranked[i] && t[ranked[i]].score == all[i].score
  {
    var ranked := Ranked(t, PoolIds(t, pool));
    RankedIsSorted(t, PoolIds(t, pool));
    forall i | 0 <= i < |ranked|
      ensures ranked[i] in PoolIds(t, pool) && RowAgrees(ranked[i], t[ranked[i]])
    {
      assert ranked[i] in ranked;
    }
  }

  lemma RankedListsPool(t: Table, pool: Pool)
    requires Agrees(t)
    ensures ListsPool(t, pool, Payloads(t, Ranked(t, PoolIds(t, pool))))
  {
    var ids := PoolIds(t, pool);
    var ranked := Ranked(t, ids);
    var all := Payloads(t, ranked);
    RankedIsSorted(t, ids);
    RankedRecords(t, pool);
    forall i, j | 0 <= i < j < |all| ensures all[i].id != all[j].id && all[i].score >= all[j].score {
      assert Ahead(t, ranked[i], ranked[j]);
    }
    forall id | id in ids ensures t[id].payload in all {
      var k :| 0 <= k < |ranked| && ranked[k] == id;
      assert all[k] == t[id].payload;
    }
  }

  /** Cut to `limit` it is one of the listings list_proxies may return. */
  lemma {:induction false} CutIsListing(t: Table, pool: Pool, limit: int, all: seq<Proxy>)
    requires Agrees(t) && ListsPool(t, pool, all)
    ensures IsListing(t, pool, limit, all[..Min(Max(limit, 0), |all|)])
  {
    var s := all[..Min(Max(limit, 0), |all|)];
    forall id, i | id in PoolIds(t, pool) && 0 <= i < |s| && t[id].score > s[i].score ensures t[id].payload in s {
      var k :| 0 <= k < |all| && all[k] == t[id].payload;
      assert RowAgrees(id, t[id]);
      assert s[k] == all[k];
    }
  }

  class Store {
    var rows: Table
    var kv: Kv

    /** In every reachable state the columns agree with the payloads. */
    ghost predicate Valid() reads this { Agrees(rows) }

    constructor ()
      ensures Valid() && rows == map[] && kv == map[]
    {
      rows, kv := map[], map[];
    }

    // -------------------------------------------------------------- proxies

    method AddProxy(pool: Pool, p: Proxy) returns (stored: Proxy)
      requires Valid()
      modifies this`rows
      ensures Valid()
      ensures rows == Put(old(rows), pool, p) && stored == p.(status := pool)
    {
      stored := p.(status := pool);
      UpsertProxy(pool, stored);
    }

    method SaveProxy(pool: Pool, p: Proxy) returns (stored: Proxy)
      requires Valid()
      modifies this`rows
      ensures Valid()
      ensures rows == Put(old(rows), pool, p) && stored == p.(status := pool)
    {
      stored := p.(status := pool);
      UpsertProxy(pool, stored);
    }

    /** INSERT, or on a conflict on the id overwrite every other column. */
    method UpsertProxy(pool: Pool, p: Proxy)
      requires Valid() && p.status == pool
      modifies this`rows
      ensures Valid()
      ensures rows == old(rows)[p.id := RowOf(pool, p)]
    {
      if p.id in rows {
        rows := rows[p.id := rows[p.id].(pool := pool, score := p.score, scheme := p.scheme,
                                         anonymity := p.anonymity, source := p.source, country := p.country,
                                         payload := p)];
      } else {
        rows := rows[p.id := Row(pool, p.score, p.scheme, p.anonymity, p.source, p.country, p)];
      }
    }

    method GetProxy(id: string) returns (p: Option<Proxy>)
      ensures p == if id in rows then Some(rows[id].payload) else None
    {
      p := if id in rows then Some(rows[id].payload) else None;
    }

    method GetProxyRecord(id: string) returns (r: Option<(Pool, Proxy)>)
      ensures r == if id in rows then Some((rows[id].pool, rows[id].payload)) else None
    {
      r := if id in rows then Some((rows[id].pool, rows[id].payload)) else None;
    }

    method RemoveProxy(pool: Pool, id: string) returns (removed: bool)
      requires Valid()
      modifies this`rows
      ensures Valid()
      ensures rows == Removed(old(rows), pool, id)
      ensures rows == (if removed then old(rows) - {id} else old(rows))
      ensures removed <==> id in old(rows) && old(rows)[id].pool == pool
    {
      if id !in rows || rows[id].pool != pool {
        return false;
      }
      rows := rows - {id};
      removed := true;
    }

    method DeleteProxy(id: string) returns (deleted: bool)
      requires Valid()
      modifies this`rows
      ensures Valid()
      ensures rows == old(rows) - {id} && (deleted <==> id in old(rows))
    {
      deleted := id in rows;
      rows := rows - {id};
    }

    method MoveProxy(from: Pool, to: Pool, id: string) returns (moved: Option<Proxy>)
      requires Valid()
      modifies this`rows
      ensures Valid()
      ensures if id in old(rows) && old(rows)[id].pool == from
              then rows == Put(old(rows), to, old(rows)[id].payload)
                   && moved == Some(old(rows)[id].payload.(status := to))
              else rows == old(rows) && moved == None
    {
      if id !in rows || rows[id].pool != from {
        return None;
      }
      assert RowAgrees(id, rows[id]);
      var p := rows[id].payload.(status := to);
      rows := rows[id := Row(to, p.score, p.scheme, p.anonymity, p.source, p.country, p)];
      moved := Some(p);
    }

    method UpdateScore(id: string, delta: int) returns (updated: Option<Proxy>)
      requires Valid()
      modifies this`rows
      ensures Valid()
      ensures if id in old(rows)
              then var p := old(rows)[id].payload;
                   rows == Put(old(rows), p.status, p.(score := p.score + delta))
                   && updated == Some(p.(score := p.score + delta))
              else rows == old(rows) && updated == None
    {
      var located := GetProxyRecord(id);
      if located.None? {
        return None;
      }
      assert RowAgrees(id, rows[id]);
      var p := located.value.1.(score := located.value.1.score + delta);
      UpsertProxy(located.value.0, p);
      updated := Some(p);
    }

    // -------------------------------------------------------------- listing and selection

    /** A cut of the whole pool in some order by score; the contract leaves the order of equal scores open, as
        ORDER BY score alone does. */
    method ListProxies(pool: Pool, limit: int, offset: int) returns (listed: seq<Proxy>, ghost all: seq<Proxy>)
      requires Valid()
      ensures ListsPool(rows, pool, all)
      ensures listed == if limit <= 0 then [] else Paging.Slice(all, Max(offset, 0), limit)
      ensures offset <= 0 ==> IsListing(rows, pool, limit, listed)
    {
      var ranked := Payloads(rows, Ranked(rows, PoolIds(rows, pool)));
      RankedListsPool(rows, pool);
      CutIsListing(rows, pool, limit, ranked);
      all := ranked;
      listed := if limit <= 0 then [] else Paging.Slice(ranked, Max(offset, 0), limit);
    }

    /** The rows the generated WHERE clause selects. */
    method SelectIds(pool: Option<Pool>, f: Filters) returns (ids: set<string>)
      requires Valid()
      ensures ids == WantedIds(rows, pool, f)
    {
      var clauses := BuildClauses(pool, f);
      ids := set id | id in rows && AllHold(clauses, rows[id]);
      forall id | id in rows ensures AllHold(clauses, rows[id]) <==> Wanted(rows[id], pool, f) {
        assert RowAgrees(id, rows[id]);
      }
    }

    /** The count and the sorted, cut SELECT. */
    method SelectPage(pool: Option<Pool>, f: Filters, limit: nat, offset: nat) returns (page: seq<Proxy>, total: nat)
      requires Valid()
      ensures page == Paging.Slice(AllWanted(rows, pool, f), offset, limit) && total == |AllWanted(rows, pool, f)|
    {
      var ids := SelectIds(pool, f);
      total := |ids|;
      var ranked := Ranked(rows, ids);
      RankedIsSorted(rows, ids);
      page := Paging.Slice(Payloads(rows, ranked), offset, limit);
    }

    method ListFilteredProxies(pool: Option<Pool>, f: Filters, limit: int, offset: int)
      returns (page: seq<Proxy>, total: int)
      requires Valid()
      ensures (page, total) == ListFiltered(rows, pool, f, limit, offset)
    {
      if limit <= 0 {
        return [], 0;
      }
      page, total := SelectPage(pool, f, limit, Max(offset, 0));
      if Blank(f.query) {
        return;
      }
      page := Hits(page, f.query);
      if |page| < (if offset == 0 then limit else limit + offset) {
        total := |page| + offset;
      }
    }

    method GetBestProxy(f: Filters) returns (best: Option<Proxy>)
      requires Valid()
      ensures best == Best(rows, f)
    {
      for k := 0 to |SELECTION_POOLS|
        invariant k >= 1 ==> ListFiltered(rows, Some(Elite), f, 1, 0).0 == []
        invariant k >= 2 ==> ListFiltered(rows, Some(Checked), f, 1, 0).0 == []
      {
        var candidates, _ := ListFilteredProxies(Some(SELECTION_POOLS[k]), f, 1, 0);
        if candidates != [] {
          return Some(candidates[0]);
        }
      }
      best := None;
    }

    method CountByPool() returns (counts: map<Pool, nat>)
      ensures counts.Keys == {Raw, Checked, Elite, Dead, Cooldown}
      ensures forall pool :: pool in counts ==> counts[pool] == |PoolIds(rows, pool)|
      ensures counts[Raw] + counts[Checked] + counts[Elite] + counts[Dead] + counts[Cooldown] == |rows|
    {
      counts := map[];
      for k := 0 to |POOL_NAMES|
        invariant forall pool :: pool in counts <==> exists i :: 0 <= i < k && POOL_NAMES[i] == pool
        invariant forall pool :: pool in counts ==> counts[pool] == |PoolIds(rows, pool)|
      {
        counts := counts[POOL_NAMES[k] := |PoolIds(rows, POOL_NAMES[k])|];
      }
      assert forall i :: 0 <= i < 5 ==> POOL_NAMES[i] in counts;
      assert POOL_NAMES[0] in counts && POOL_NAMES[1] in counts && POOL_NAMES[2] in counts
             && POOL_NAMES[3] in counts && POOL_NAMES[4] in counts;
      PoolsPartition(rows);
    }

    // -------------------------------------------------------------- session affinity and admin sessions

    method BindSessionProxy(session: string, proxyId: string, ttl: int, now: int)
      modifies this`kv
      ensures kv == Saved(old(kv), SessionKey(session), proxyId, ttl, now)
    {
      kv := kv["session:" + session := Entry(proxyId, Some(now + ttl))];
    }

    method GetSessionProxyId(session: string, now: int) returns (id: Option<string>)
      modifies this`kv
      ensures id == Peek(old(kv), SessionKey(session), now)
      ensures kv == AfterRead(old(kv), SessionKey(session), now)
      ensures var key := SessionKey(session);
              var expired := key in old(kv) && old(kv)[key].expiresAt.Some? && old(kv)[key].expiresAt.value < now;
              kv == if expired then old(kv) - {key} else old(kv)
    {
      id := ReadOrDrop(SessionKey(session), now);
    }

    method SaveAdminSession(token: string, payload: string, ttl: int, now: int)
      modifies this`kv
      ensures kv == Saved(old(kv), AdminKey(token), payload, ttl, now)
    {
      kv := kv["admin_session:" + token := Entry(payload, Some(now + ttl))];
    }

    method GetAdminSession(token: string, now: int) returns (payload: Option<string>)
      modifies this`kv
      ensures payload == Peek(old(kv), AdminKey(token), now)
      ensures kv == AfterRead(old(kv), AdminKey(token), now)
      ensures var key := AdminKey(token);
              var expired := key in old(kv) && old(kv)[key].expiresAt.Some? && old(kv)[key].expiresAt.value < now;
              kv == if expired then old(kv) - {key} else old(kv)
    {
      payload := ReadOrDrop(AdminKey(token), now);
    }

    method DeleteAdminSession(token: string) returns (found: bool)
      modifies this`kv
      ensures kv == old(kv) - {AdminKey(token)} && (found <==> AdminKey(token) in old(kv))
    {
      found := AdminKey(token) in kv;
      kv := kv - {AdminKey(token)};
    }

    method ReadOrDrop(key: string, now: int) returns (value: Option<string>)
      modifies this`kv
      ensures value == Peek(old(kv), key, now) && kv == AfterRead(old(kv), key, now)
    {
      if key !in kv {
        return None;
      }
      var entry := kv[key];
      if entry.expiresAt.Some? && entry.expiresAt.value < now {
        kv := kv - {key};
        return None;
      }
      value := Some(entry.value);
    }
  }
}
