/** The `proxies` table: one row per id, with copies of some payload fields as columns. */
module Tables {
  import opened Domain

  datatype Row = Row(
    pool: Pool,
    score: int,
    scheme: Scheme,
    anonymity: Anonymity,
    source: string,
    country: Option<string>,
    payload: Proxy)

  type Table = map<string, Row>

  function RowOf(pool: Pool, p: Proxy): Row {
    Row(pool, p.score, p.scheme, p.anonymity, p.source, p.country, p)
  }

  /** add_proxy and save_proxy: the record takes the pool as its status and replaces the row of its id. */
  function Put(t: Table, pool: Pool, p: Proxy): Table {
    t[p.id := RowOf(pool, p.(status := pool))]
  }

  /** remove_proxy: only a row that is in the given pool goes. */
  function Removed(t: Table, pool: Pool, id: string): Table {
    if id in t && t[id].pool == pool then t - {id} else t
  }

  /** Columns agree with the payload, and the row is filed under its payload's id. */
  predicate RowAgrees(id: string, row: Row) {
    row.payload.id == id && row == RowOf(row.payload.status, row.payload)
  }

  predicate Agrees(t: Table) {
    forall id :: id in t ==> RowAgrees(id, t[id])
  }

  /** Removing a row from its old pool and adding it to another is one replacement, whatever was there. */
  lemma MoveIsPut(t: Table, from: Pool, to: Pool, p: Proxy)
    ensures Put(Removed(t, from, p.id), to, p) == Put(t, to, p)
  {
    assert Put(Removed(t, from, p.id), to, p).Keys == Put(t, to, p).Keys;
  }

  // ---------------------------------------------------------------- sequences of writes

  datatype Write = Write(pool: Pool, proxy: Proxy)

  function WriteAll(t: Table, ws: seq<Write>): Table {
    if ws == [] then t
    else Put(WriteAll(t, ws[..|ws| - 1]), ws[|ws| - 1].pool, ws[|ws| - 1].proxy)
  }

  ghost predicate DistinctWrites(ws: seq<Write>) {
    forall i, j :: 0 <= i < j < |ws| ==> ws[i].proxy.id != ws[j].proxy.id
  }

  lemma WriteAllSnoc(t: Table, ws: seq<Write>, w: Write)
    ensures WriteAll(t, ws + [w]) == Put(WriteAll(t, ws), w.pool, w.proxy)
  {
    assert (ws + [w])[..|ws|] == ws;
  }

  ghost predicate Touches(ws: seq<Write>, id: string) { exists w :: w in ws && w.proxy.id == id }

  /** Ids that no write touches keep their row or stay absent. */
  lemma {:induction false} WriteAllOutside(t: Table, ws: seq<Write>, id: string)
    requires !Touches(ws, id)
    ensures (id in WriteAll(t, ws) <==> id in t) && (id in t ==> WriteAll(t, ws)[id] == t[id])
  {
    if ws != [] {
      assert ws[|ws| - 1] in ws && forall w :: w in ws[..|ws| - 1] ==> w in ws;
      WriteAllOutside(t, ws[..|ws| - 1], id);
    }
  }

  /** Distinct writes end as one row each. */
  lemma {:induction false} WriteAllAt(t: Table, ws: seq<Write>, i: nat)
    requires DistinctWrites(ws) && i < |ws|
    ensures ws[i].proxy.id in WriteAll(t, ws)
    ensures WriteAll(t, ws)[ws[i].proxy.id] == RowOf(ws[i].pool, ws[i].proxy.(status := ws[i].pool))
  {
    if i < |ws| - 1 {
      WriteAllAt(t, ws[..|ws| - 1], i);
    }
  }

  // ---------------------------------------------------------------- sums over the rows

  /** What a row contributes to a sum: membership in a set of pools, or the failures it still has left. */
  datatype Weight = InPools(pools: set<Pool>) | StrikesLeft {
    function Of(row: Row): nat {
      match this
      case InPools(pools) => if row.pool in pools then 1 else 0
      case StrikesLeft =>
        if row.pool in {Raw, Cooldown} then Max(1, 5 - row.payload.consecutiveFailCount) else 0
    }
  }

  ghost function SumOver(t: Table, w: Weight, ids: set<string>): nat
    requires ids <= t.Keys
  {
    if ids == {} then 0 else var id :| id in ids; w.Of(t[id]) + SumOver(t, w, ids - {id})
  }

  ghost function Sum(t: Table, w: Weight): nat { SumOver(t, w, t.Keys) }

  lemma {:induction false} SumOverSplit(t: Table, w: Weight, ids: set<string>, id: string)
    requires ids <= t.Keys && id in ids
    ensures SumOver(t, w, ids) == w.Of(t[id]) + SumOver(t, w, ids - {id})
    decreases |ids|
  {
    var first :| first in ids && SumOver(t, w, ids) == w.Of(t[first]) + SumOver(t, w, ids - {first});
    if first != id {
      SumOverSplit(t, w, ids - {first}, id);
      SumOverSplit(t, w, ids - {id}, first);
      assert ids - {first} - {id} == ids - {id} - {first};
    }
  }

  lemma {:induction false} SumOverSame(t: Table, u: Table, w: Weight, ids: set<string>)
    requires ids <= t.Keys && ids <= u.Keys
    requires forall id :: id in ids ==> t[id] == u[id]
    ensures SumOver(t, w, ids) == SumOver(u, w, ids)
    decreases |ids|
  {
    if ids != {} {
      var id :| id in ids && SumOver(t, w, ids) == w.Of(t[id]) + SumOver(t, w, ids - {id});
      SumOverSame(t, u, w, ids - {id});
      SumOverSplit(u, w, ids, id);
    }
  }

  /** Replacing a row changes a sum by the difference of the two rows. */
  lemma PutChangesSum(t: Table, w: Weight, pool: Pool, p: Proxy)
    requires p.id in t
    ensures Sum(Put(t, pool, p), w) + w.Of(t[p.id]) == Sum(t, w) + w.Of(RowOf(pool, p.(status := pool)))
    ensures Put(t, pool, p).Keys == t.Keys
  {
    var u := Put(t, pool, p);
    assert u.Keys == t.Keys;
    SumOverSplit(t, w, t.Keys, p.id);
    SumOverSplit(u, w, u.Keys, p.id);
    SumOverSame(t, u, w, t.Keys - {p.id});
  }

  function PoolIds(t: Table, pool: Pool): set<string> { set id | id in t && t[id].pool == pool }

  ghost function Among(t: Table, pools: set<Pool>, ids: set<string>): set<string>
    requires ids <= t.Keys
  {
    set id | id in ids && t[id].pool in pools
  }

  /** A sum of pool memberships counts the rows of those pools. */
  lemma {:induction false} SumCounts(t: Table, pools: set<Pool>, ids: set<string>)
    requires ids <= t.Keys
    ensures SumOver(t, InPools(pools), ids) == |Among(t, pools, ids)|
    decreases |ids|
  {
    if ids == {} {
      assert Among(t, pools, ids) == {};
    } else {
      var w := InPools(pools);
      var id :| id in ids && SumOver(t, w, ids) == w.Of(t[id]) + SumOver(t, w, ids - {id});
      SumCounts(t, pools, ids - {id});
      var rest := Among(t, pools, ids - {id});
      assert id !in rest && w.Of(t[id]) == if t[id].pool in pools then 1 else 0;
      if t[id].pool in pools {
        assert Among(t, pools, ids) == rest + {id};
      } else {
        assert Among(t, pools, ids) == rest;
      }
    }
  }

  lemma AmongSplits(t: Table, pools: set<Pool>, pool: Pool)
    requires pool !in pools
    ensures |Among(t, pools + {pool}, t.Keys)| == |Among(t, pools, t.Keys)| + |PoolIds(t, pool)|
  {
    assert Among(t, pools + {pool}, t.Keys) == Among(t, pools, t.Keys) + PoolIds(t, pool);
    assert Among(t, pools, t.Keys) !! PoolIds(t, pool);
  }

  /** The five pools partition the rows. */
  lemma PoolsPartition(t: Table)
    ensures |PoolIds(t, Raw)| + |PoolIds(t, Checked)| + |PoolIds(t, Elite)| + |PoolIds(t, Dead)|
            + |PoolIds(t, Cooldown)| == |t|
  {
    assert Among(t, {}, t.Keys) == {};
    AmongSplits(t, {}, Raw);
    AmongSplits(t, {} + {Raw}, Checked);
    AmongSplits(t, {} + {Raw} + {Checked}, Elite);
    AmongSplits(t, {} + {Raw} + {Checked} + {Elite}, Dead);
    AmongSplits(t, {} + {Raw} + {Checked} + {Elite} + {Dead}, Cooldown);
    var all := {} + {Raw} + {Checked} + {Elite} + {Dead} + {Cooldown};
    forall id | id in t ensures t[id].pool in all {
      match t[id].pool case Raw => case Checked => case Elite => case Dead => case Cooldown =>
    }
    assert Among(t, all, t.Keys) == t.Keys;
    assert |t| == |t.Keys|;
  }
}
