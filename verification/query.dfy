/** Filtering, ordering and selection over the table. */
module Query {
  import opened Domain
  import opened Tables
  import opened Paging
  import Text

  // ---------------------------------------------------------------- ORDER BY score DESC, id

  predicate Ahead(t: Table, i: string, j: string)
    requires i in t && j in t
  {
    t[i].score > t[j].score || (t[i].score == t[j].score && Text.Less(i, j))
  }

  lemma AheadIsStrict(t: Table)
    ensures forall i, j :: i in t && j in t ==> !(Ahead(t, i, j) && Ahead(t, j, i))
  {
    forall i, j | i in t && j in t ensures !(Ahead(t, i, j) && Ahead(t, j, i)) {
      Text.LessIsStrict(i, j);
    }
  }

  predicate IsFirst(t: Table, ids: set<string>, m: string)
    requires ids <= t.Keys
  {
    m in ids && forall o :: o in ids ==> o == m || Ahead(t, m, o)
  }

  lemma {:induction false} FirstExists(t: Table, ids: set<string>)
    requires ids <= t.Keys && ids != {}
    ensures exists m :: IsFirst(t, ids, m)
    decreases |ids|
  {
    var x :| x in ids;
    if ids == {x} {
      assert IsFirst(t, ids, x);
    } else {
      var rest := ids - {x};
      FirstExists(t, rest);
      var m :| IsFirst(t, rest, m);
      Text.LessIsTotal(x, m);
      if Ahead(t, x, m) {
        forall o | o in ids ensures o == x || Ahead(t, x, o) {
          assert o == x || o in rest;
          if o != x && o != m && Text.Less(x, m) && Text.Less(m, o) {
            Text.LessIsTransitive(x, m, o);
          }
        }
        assert IsFirst(t, ids, x);
      } else {
        assert IsFirst(t, ids, m);
      }
    }
  }

  function First(t: Table, ids: set<string>): (m: string)
    requires ids <= t.Keys && ids != {}
    ensures IsFirst(t, ids, m)
  {
    FirstExists(t, ids);
    AheadIsStrict(t);
    var m :| IsFirst(t, ids, m);
    m
  }

  /** The ids in the order of the sorted SELECT. */
  function Ranked(t: Table, ids: set<string>): (r: seq<string>)
    requires ids <= t.Keys
    ensures forall id :: id in r ==> id in t
    decreases |ids|
  {
    if ids == {} then []
    else
      var m := First(t, ids);
      [m] + Ranked(t, ids - {m})
  }

  /** The ranking lists every id once, each row ahead of all later ones. */
  lemma {:induction false} RankedIsSorted(t: Table, ids: set<string>)
    requires ids <= t.Keys
    ensures var r := Ranked(t, ids);
            && |r| == |ids|
            && (forall id :: id in r <==> id in ids)
            && (forall i, j :: 0 <= i < j < |r| ==> r[i] != r[j] && Ahead(t, r[i], r[j]))
    decreases |ids|
  {
    if ids != {} {
      var m := First(t, ids);
      RankedIsSorted(t, ids - {m});
      var rest := Ranked(t, ids - {m});
      forall i, j | 0 <= i < j < |rest| + 1
        ensures ([m] + rest)[i] != ([m] + rest)[j] && Ahead(t, ([m] + rest)[i], ([m] + rest)[j])
      {
        assert rest[j - 1] in rest;
      }
    }
  }

  // ---------------------------------------------------------------- filters

  predicate Blank(query: Option<string>) { query.None? || Text.Strip(query.value) == "" }

  predicate QueryHits(p: Proxy, query: Option<string>) {
    Blank(query)
    || var q := Text.Lower(Text.Strip(query.value));
       Text.Contains(Text.Lower(p.host), q) || Text.Contains(Text.Lower(p.id), q)
  }

  /** _matches_filters: the predicate on a record that session pinning uses. */
  predicate MatchesFilters(p: Proxy, f: Filters) {
    && (f.scheme.Some? ==> p.scheme == f.scheme.value)
    && (f.anonymity.Some? ==> p.anonymity == f.anonymity.value)
    && (f.country.Some? ==> p.country == f.country)
    && (f.source.Some? ==> p.source == f.source.value)
    && QueryHits(p, f.query)
    && (f.minScore.Some? ==> p.score >= f.minScore.value)
  }

  /** One conjunct of the generated WHERE clause, with its bound parameter. */
  datatype Clause =
    | PoolIs(pool: Pool)
    | SchemeIs(scheme: Scheme)
    | AnonymityIs(anonymity: Anonymity)
    | CountryIs(country: string)
    | SourceIs(source: string)
    | ScoreAtLeast(minScore: int)
  {
    predicate Holds(row: Row) {
      match this
      case PoolIs(pool) => row.pool == pool
      case SchemeIs(scheme) => row.scheme == scheme
      case AnonymityIs(anonymity) => row.anonymity == anonymity
      case CountryIs(country) => row.country == Some(country)
      case SourceIs(source) => row.source == source
      case ScoreAtLeast(minScore) => row.score >= minScore
    }
  }

  predicate AllHold(clauses: seq<Clause>, row: Row) {
    forall i :: 0 <= i < |clauses| ==> clauses[i].Holds(row)
  }

  lemma HoldsSnoc(clauses: seq<Clause>, c: Clause)
    ensures forall row :: AllHold(clauses + [c], row) <==> AllHold(clauses, row) && c.Holds(row)
  {
    forall row ensures AllHold(clauses + [c], row) <==> AllHold(clauses, row) && c.Holds(row) {
      if AllHold(clauses + [c], row) {
        assert (clauses + [c])[|clauses|].Holds(row);
        assert forall i :: 0 <= i < |clauses| ==> (clauses + [c])[i] == clauses[i];
      }
    }
  }

  /** What the WHERE clause should mean, said about the payload. */
  predicate Wanted(row: Row, pool: Option<Pool>, f: Filters) {
    (pool.Some? ==> row.payload.status == pool.value) && MatchesFilters(row.payload, f.(query := None))
  }

  /** Appending one clause per present filter gives a WHERE clause that selects, on the columns, exactly
      the rows whose payload passes the filters. */
  method BuildClauses(pool: Option<Pool>, f: Filters) returns (clauses: seq<Clause>)
    ensures forall id, row :: RowAgrees(id, row) ==> (AllHold(clauses, row) <==> Wanted(row, pool, f))
  {
    clauses := [];
    if pool.Some? {
      HoldsSnoc(clauses, PoolIs(pool.value));
      clauses := clauses + [PoolIs(pool.value)];
    }
    if f.scheme.Some? {
      HoldsSnoc(clauses, SchemeIs(f.scheme.value));
      clauses := clauses + [SchemeIs(f.scheme.value)];
    }
    if f.anonymity.Some? {
      HoldsSnoc(clauses, AnonymityIs(f.anonymity.value));
      clauses := clauses + [AnonymityIs(f.anonymity.value)];
    }
    if f.country.Some? {
      HoldsSnoc(clauses, CountryIs(f.country.value));
      clauses := clauses + [CountryIs(f.country.value)];
    }
    if f.source.Some? {
      HoldsSnoc(clauses, SourceIs(f.source.value));
      clauses := clauses + [SourceIs(f.source.value)];
    }
    if f.minScore.Some? {
      HoldsSnoc(clauses, ScoreAtLeast(f.minScore.value));
      clauses := clauses + [ScoreAtLeast(f.minScore.value)];
    }
  }

  // ---------------------------------------------------------------- listing

  function WantedIds(t: Table, pool: Option<Pool>, f: Filters): (ids: set<string>)
    ensures ids <= t.Keys
  {
    set id | id in t && Wanted(t[id], pool, f)
  }

  function Payloads(t: Table, ids: seq<string>): (r: seq<Proxy>)
    requires forall id :: id in ids ==> id in t
    ensures |r| == |ids| && forall i :: 0 <= i < |r| ==> r[i] == t[ids[i]].payload
  {
    seq(|ids|, i requires 0 <= i < |ids| => assert ids[i] in ids; t[ids[i]].payload)
  }

  /** Every record passing the column filters, best first. */
  function AllWanted(t: Table, pool: Option<Pool>, f: Filters): seq<Proxy> {
    Payloads(t, Ranked(t, WantedIds(t, pool, f)))
  }

  /** The text filter that follows the SELECT. */
  function Hits(items: seq<Proxy>, query: Option<string>): seq<Proxy> {
    if items == [] then []
    else Hits(items[..|items| - 1], query)
         + if QueryHits(items[|items| - 1], query) then [items[|items| - 1]] else []
  }

  lemma {:induction false} HitsConcat(a: seq<Proxy>, b: seq<Proxy>, query: Option<string>)
    ensures Hits(a + b, query) == Hits(a, query) + Hits(b, query)
  {
    if b == [] {
      assert a + b == a;
    } else {
      HitsConcat(a, b[..|b| - 1], query);
      assert (a + b)[..|a + b| - 1] == a + b[..|b| - 1];
    }
  }

  lemma {:induction false} BlankHitsAll(items: seq<Proxy>, query: Option<string>)
    requires Blank(query)
    ensures Hits(items, query) == items
  {
    if items != [] {
      BlankHitsAll(items[..|items| - 1], query);
    }
  }

  /** The filter keeps exactly the records the query hits. */
  lemma {:induction false} HitsMembers(items: seq<Proxy>, query: Option<string>)
    ensures forall p :: p in Hits(items, query) <==> p in items && QueryHits(p, query)
  {
    if items != [] {
      HitsMembers(items[..|items| - 1], query);
      assert items == items[..|items| - 1] + [items[|items| - 1]];
    }
  }

  /** list_filtered_proxies: the page is cut by SQL, the text query filters the page afterwards. */
  function ListFiltered(t: Table, pool: Option<Pool>, f: Filters, limit: int, offset: int): (seq<Proxy>, int) {
    if limit <= 0 then ([], 0)
    else
      var all := AllWanted(t, pool, f);
      var page := Slice(all, Max(offset, 0), limit);
      if Blank(f.query) then (page, |all|)
      else
        var hits := Hits(page, f.query);
        (hits, if |hits| < (if offset == 0 then limit else limit + offset) then |hits| + offset else |all|)
  }

  /** get_best_proxy: one row from elite, else one from checked. */
  function Best(t: Table, f: Filters): Option<Proxy> {
    var elite := ListFiltered(t, Some(Elite), f, 1, 0).0;
    if elite != [] then Some(elite[0])
    else
      var checked := ListFiltered(t, Some(Checked), f, 1, 0).0;
      if checked != [] then Some(checked[0]) else None
  }

  // ---------------------------------------------------------------- paging

  /** The first `n` pages of a listing, fetched one after the other. */
  function FetchedPages(t: Table, pool: Option<Pool>, f: Filters, size: nat, n: nat): seq<Proxy> {
    if n == 0 then []
    else FetchedPages(t, pool, f, size, n - 1) + ListFiltered(t, pool, f, size, PageStart(size, n - 1)).0
  }

  lemma PageIsHits(t: Table, pool: Option<Pool>, f: Filters, size: nat, offset: nat)
    requires size >= 1
    ensures ListFiltered(t, pool, f, size, offset).0
            == Hits(Slice(AllWanted(t, pool, f), offset, size), f.query)
  {
    if Blank(f.query) {
      BlankHitsAll(Slice(AllWanted(t, pool, f), offset, size), f.query);
    }
  }

  lemma {:induction false} FetchedIsHits(t: Table, pool: Option<Pool>, f: Filters, size: nat, n: nat)
    requires size >= 1
    ensures FetchedPages(t, pool, f, size, n) == Hits(Pages(AllWanted(t, pool, f), size, n), f.query)
  {
    if n > 0 {
      FetchedIsHits(t, pool, f, size, n - 1);
      PageIsHits(t, pool, f, size, PageStart(size, n - 1));
      var all := AllWanted(t, pool, f);
      HitsConcat(Pages(all, size, n - 1), Slice(all, PageStart(size, n - 1), size), f.query);
    }
  }

  /** Successive pages of any size, filtered by any query, concatenate to the matching records in order:
      no gap, no repeat. */
  lemma {:induction false} PagesCoverMatches(t: Table, pool: Option<Pool>, f: Filters, size: nat, n: nat)
    requires size >= 1
    ensures var all := AllWanted(t, pool, f);
            FetchedPages(t, pool, f, size, n) == Hits(all[..Min(n * size, |all|)], f.query)
  {
    FetchedIsHits(t, pool, f, size, n);
    PagesPartition(AllWanted(t, pool, f), size, n);
    PageStartIsProduct(size, n);
  }

  /** Without a query every page reports the exact number of matches, whatever its limit and offset. */
  lemma TotalIsExact(t: Table, pool: Option<Pool>, f: Filters, limit: int, offset: int)
    requires limit >= 1 && (f.query == None || Text.Strip(f.query.value) == "")
    ensures ListFiltered(t, pool, f, limit, offset).1 == |WantedIds(t, pool, f)|
  {
    RankedIsSorted(t, WantedIds(t, pool, f));
  }

  /** The matches of a list that are not on the page. */
  function HitsOff(all: seq<Proxy>, query: Option<string>, limit: nat, offset: nat): nat {
    |Hits(all[..Min(offset, |all|)], query)| + |Hits(all[Min(offset + limit, |all|)..], query)|
  }

  lemma HitsAroundPage(all: seq<Proxy>, query: Option<string>, limit: nat, offset: nat)
    ensures |Hits(all, query)| == |Hits(Slice(all, offset, limit), query)| + HitsOff(all, query, limit, offset)
  {
    var lo, hi := Min(offset, |all|), Min(offset + limit, |all|);
    ThreeParts(all, lo, hi);
    HitsConcat(all[..lo], all[lo..hi], query);
    HitsConcat(all[..lo] + all[lo..hi], all[hi..], query);
  }

  lemma ThreeParts<T>(s: seq<T>, i: nat, j: nat)
    requires i <= j <= |s|
    ensures s[..i] + s[i..j] + s[j..] == s
  {}

  lemma {:induction false} HitsFit(items: seq<Proxy>, query: Option<string>)
    ensures |Hits(items, query)| <= |items|
    ensures |Hits(items, query)| == |items| <==> forall i :: 0 <= i < |items| ==> QueryHits(items[i], query)
  {
    if items != [] {
      HitsFit(items[..|items| - 1], query);
    }
  }

  lemma PageTotal(all: seq<Proxy>, query: Option<string>, limit: nat, offset: nat, page: seq<Proxy>, total: int)
    requires page == Hits(Slice(all, offset, limit), query)
    requires total == if |page| < (if offset == 0 then limit else limit + offset) then |page| + offset else |all|
    ensures total == |Hits(all, query)| <==>
              if offset == 0 && |page| == limit then forall i :: 0 <= i < |all| ==> QueryHits(all[i], query)
              else HitsOff(all, query, limit, offset) == offset
  {
    HitsAroundPage(all, query, limit, offset);
    HitsFit(Slice(all, offset, limit), query);
    HitsFit(all, query);
  }

  /** With a query the reported total is the number of matches exactly when the offset happens to be the number
      of matches off the page; a full first page reports every row, so there every row must match. At offset 0
      with fewer matches than the limit that says: no match lies beyond the first rows. */
  lemma TotalUnderQuery(t: Table, pool: Option<Pool>, f: Filters, limit: nat, offset: nat)
    requires limit >= 1 && f.query.Some? && Text.Strip(f.query.value) != ""
    ensures var all := AllWanted(t, pool, f);
            var (page, total) := ListFiltered(t, pool, f, limit, offset);
            total == |Hits(all, f.query)| <==>
              if offset == 0 && |page| == limit then forall i :: 0 <= i < |all| ==> QueryHits(all[i], f.query)
              else HitsOff(all, f.query, limit, offset) == offset
  {
    var (page, total) := ListFiltered(t, pool, f, limit, offset);
    PageTotal(AllWanted(t, pool, f), f.query, limit, offset, page, total);
  }

  /** The list that is paged holds each record that passes the filters once, by score and then by id. */
  lemma AllWantedIsExact(t: Table, pool: Option<Pool>, f: Filters)
    requires Agrees(t)
    ensures var all := AllWanted(t, pool, f);
            && (forall p :: p in all <==> p.id in t && t[p.id].payload == p && Wanted(t[p.id], pool, f))
            && (forall i, j :: 0 <= i < j < |all| ==>
                  || all[i].score > all[j].score
                  || (all[i].score == all[j].score && Text.Less(all[i].id, all[j].id)))
  {
    var ids := Ranked(t, WantedIds(t, pool, f));
    RankedIsSorted(t, WantedIds(t, pool, f));
    var all := AllWanted(t, pool, f);
    forall p
      ensures p in all <==> p.id in t && t[p.id].payload == p && Wanted(t[p.id], pool, f)
    {
      if p in all {
        var i :| 0 <= i < |all| && all[i] == p;
        assert ids[i] in ids && RowAgrees(ids[i], t[ids[i]]);
      }
      if p.id in t && t[p.id].payload == p && Wanted(t[p.id], pool, f) {
        assert p.id in ids;
        var i :| 0 <= i < |ids| && ids[i] == p.id;
        assert all[i] == p;
      }
    }
    forall i, j | 0 <= i < j < |all|
      ensures all[i].score > all[j].score || (all[i].score == all[j].score && Text.Less(all[i].id, all[j].id))
    {
      assert ids[i] in ids && ids[j] in ids;
      assert RowAgrees(ids[i], t[ids[i]]) && RowAgrees(ids[j], t[ids[j]]);
      assert Ahead(t, ids[i], ids[j]);
    }
  }

  // ---------------------------------------------------------------- what filters and query mean

  /** The query, without the spaces around it, stands in the host or in the id, in whatever case. */
  ghost predicate StandsIn(p: Proxy, query: string) {
    || (exists i :: Text.StandsAt(p.host, Text.Strip(query), i))
    || (exists i :: Text.StandsAt(p.id, Text.Strip(query), i))
  }

  /** No query, or one of nothing but spaces, finds everything; any other what it stands in. */
  lemma QueryMeans(p: Proxy, query: Option<string>)
    ensures QueryHits(p, query) <==> query == None || Text.Strip(query.value) == "" || StandsIn(p, query.value)
  {
    if query.Some? {
      Text.ContainsInAnyCase(p.host, Text.Strip(query.value));
      Text.ContainsInAnyCase(p.id, Text.Strip(query.value));
    }
  }

  /** A record passes filters when it agrees with every one that is given. */
  lemma FiltersMean(p: Proxy, f: Filters)
    ensures MatchesFilters(p, f) <==>
              && (f.scheme == None || f.scheme.value == p.scheme)
              && (f.anonymity == None || f.anonymity.value == p.anonymity)
              && (f.country == None || f.country == p.country) && (f.source == None || f.source.value == p.source)
              && (f.minScore == None || f.minScore.value <= p.score)
              && (f.query == None || Text.Strip(f.query.value) == "" || StandsIn(p, f.query.value))
  {
    QueryMeans(p, f.query);
  }

  /** What is on a page: the records of the slice in whose host or id the query stands. Without a limit there is
      no page, and an offset below zero is none. */
  lemma PageMeans(t: Table, pool: Option<Pool>, f: Filters, limit: int, offset: int, p: Proxy)
    requires Agrees(t)
    ensures limit <= 0 ==> ListFiltered(t, pool, f, limit, offset) == ([], 0)
    ensures limit > 0 ==>
              (p in ListFiltered(t, pool, f, limit, offset).0 <==>
                 && p in Slice(AllWanted(t, pool, f), if offset < 0 then 0 else offset, limit)
                 && (f.query == None || Text.Strip(f.query.value) == "" || StandsIn(p, f.query.value)))
  {
    if limit > 0 {
      var slice := Slice(AllWanted(t, pool, f), Max(offset, 0), limit);
      HitsMembers(slice, f.query);
      BlankPage(slice, f.query);
      QueryMeans(p, f.query);
    }
  }

  lemma BlankPage(slice: seq<Proxy>, query: Option<string>)
    ensures Blank(query) ==> Hits(slice, query) == slice
  {
    if Blank(query) {
      BlankHitsAll(slice, query);
    }
  }

  /** The rows that are listed: those of the pool that agree with all filters but the query. */
  lemma ListedMeans(t: Table, pool: Option<Pool>, f: Filters, p: Proxy)
    requires Agrees(t)
    ensures p in AllWanted(t, pool, f) <==>
              && p.id in t && t[p.id].payload == p && (pool == None || pool.value == p.status)
              && (f.scheme == None || f.scheme.value == p.scheme)
              && (f.anonymity == None || f.anonymity.value == p.anonymity)
              && (f.country == None || f.country == p.country) && (f.source == None || f.source.value == p.source)
              && (f.minScore == None || f.minScore.value <= p.score)
  {
    AllWantedIsExact(t, pool, f);
    FiltersMean(p, f.(query := None));
  }

  // ---------------------------------------------------------------- selection

  ghost predicate Eligible(t: Table, f: Filters, pool: Pool, p: Proxy) {
    p.id in t && t[p.id].payload == p && p.status == pool && MatchesFilters(p, f)
  }

  /** `p` is the matching record of its pool with the highest score, and among those the least id. */
  ghost predicate Tops(t: Table, f: Filters, pool: Pool, p: Proxy) {
    && Eligible(t, f, pool, p)
    && forall o :: Eligible(t, f, pool, o) ==>
         o == p || p.score > o.score || (p.score == o.score && Text.Less(p.id, o.id))
  }

  /** The first record of the list of matches tops its pool, and nothing else does. */
  lemma FirstTops(t: Table, f: Filters, pool: Pool)
    requires Agrees(t)
    ensures var all := AllWanted(t, Some(pool), f); var g := f.(query := None);
            if all == [] then forall p :: !Eligible(t, g, pool, p)
            else Tops(t, g, pool, all[0]) && forall p :: Tops(t, g, pool, p) ==> p == all[0]
  {
    AllWantedIsExact(t, Some(pool), f);
    var all := AllWanted(t, Some(pool), f);
    var g := f.(query := None);
    forall p | Eligible(t, g, pool, p) ensures p in all {}
    if all != [] {
      var top := all[0];
      assert top in all;
      forall o | Eligible(t, g, pool, o)
        ensures o == top || top.score > o.score || (top.score == o.score && Text.Less(top.id, o.id))
      {
        var j :| 0 <= j < |all| && all[j] == o;
      }
      assert Tops(t, g, pool, top);
      forall p | Tops(t, g, pool, p) ensures p == top {
        Text.LessIsStrict(p.id, top.id);
      }
    }
  }

  /** What a one-row listing of a pool returns: the top row by the column filters, if the query hits it. */
  lemma OneRow(t: Table, f: Filters, pool: Pool)
    requires Agrees(t)
    ensures var row := ListFiltered(t, Some(pool), f, 1, 0).0; var g := f.(query := None);
            && |row| <= 1
            && (row != [] ==> Tops(t, g, pool, row[0]) && QueryHits(row[0], f.query))
            && (row == [] ==> forall p :: Tops(t, g, pool, p) ==> !QueryHits(p, f.query))
            && (row == [] && Blank(f.query) ==> forall p :: !Eligible(t, g, pool, p))
  {
    FirstTops(t, f, pool);
    PageIsHits(t, Some(pool), f, 1, 0);
    var all := AllWanted(t, Some(pool), f);
    var page := Slice(all, 0, 1);
    if all != [] {
      assert page == [all[0]] && page[..0] == [];
    }
  }

  /** With a blank query the best proxy is the top elite match, else the top checked match, and there is
      none exactly when nothing in either pool matches. */
  lemma BestIsOptimal(t: Table, f: Filters)
    requires Agrees(t) && (f.query == None || Text.Strip(f.query.value) == "")
    ensures match Best(t, f)
            case None => forall p :: !Eligible(t, f, Elite, p) && !Eligible(t, f, Checked, p)
            case Some(b) => || Tops(t, f, Elite, b)
                            || (Tops(t, f, Checked, b) && forall p :: !Eligible(t, f, Elite, p))
  {
    OneRow(t, f, Elite);
    OneRow(t, f, Checked);
    var g := f.(query := None);
    forall p, pool ensures Eligible(t, g, pool, p) <==> Eligible(t, f, pool, p) {}
    assert forall p, pool :: Tops(t, g, pool, p) ==> Tops(t, f, pool, p);
  }

  /** With any query the answer still matches, and it is missing exactly when the query misses the top
      row of both pools. */
  lemma BestWithQuery(t: Table, f: Filters)
    requires Agrees(t)
    ensures var g := f.(query := None);
            match Best(t, f)
            case Some(b) => b.status in {Elite, Checked} && Eligible(t, f, b.status, b) && Tops(t, g, b.status, b)
            case None => forall p :: Tops(t, g, Elite, p) || Tops(t, g, Checked, p) ==> !QueryHits(p, f.query)
  {
    OneRow(t, f, Elite);
    OneRow(t, f, Checked);
  }

  ghost predicate AnyEligible(t: Table, f: Filters, pool: Pool) { exists p :: Eligible(t, f, pool, p) }

  /** The query hits the top row of the pool by the column filters, the one row the SELECT returns. */
  ghost predicate TopRowHits(t: Table, f: Filters, pool: Pool) {
    forall p :: Tops(t, f.(query := None), pool, p) ==> QueryHits(p, f.query)
  }

  /** The answer a caller expects: the top match in elite, else the top match in checked, else nothing. */
  ghost predicate RightAnswer(t: Table, f: Filters, best: Option<Proxy>) {
    if AnyEligible(t, f, Elite) then best.Some? && Tops(t, f, Elite, best.value)
    else if AnyEligible(t, f, Checked) then best.Some? && Tops(t, f, Checked, best.value)
    else best.None?
  }

  /** A one-row listing finds the top match of the pool exactly when the query hits the pool's top row. */
  lemma OneRowIsRight(t: Table, f: Filters, pool: Pool)
    requires Agrees(t)
    ensures var row := ListFiltered(t, Some(pool), f, 1, 0).0;
            && (row != [] ==> Tops(t, f, pool, row[0]))
            && (AnyEligible(t, f, pool) ==> (row != [] <==> TopRowHits(t, f, pool)))
  {
    var row := ListFiltered(t, Some(pool), f, 1, 0).0;
    var g := f.(query := None);
    OneRow(t, f, pool);
    FirstTops(t, f, pool);
    assert forall p :: Eligible(t, f, pool, p) <==> Eligible(t, g, pool, p) && QueryHits(p, f.query);
    if row != [] {
      assert Tops(t, f, pool, row[0]);
    }
    if p :| Eligible(t, f, pool, p) {
      assert Eligible(t, g, pool, p);
    }
  }

  /** With a query the answer is the right one exactly when the query hits the top row of the pool that holds
      a match: of elite if any elite record matches, else of checked if any checked one does. */
  lemma BestIsRightIff(t: Table, f: Filters)
    requires Agrees(t)
    ensures RightAnswer(t, f, Best(t, f)) <==>
              && (AnyEligible(t, f, Elite) ==> TopRowHits(t, f, Elite))
              && (!AnyEligible(t, f, Elite) && AnyEligible(t, f, Checked) ==> TopRowHits(t, f, Checked))
  {
    OneRowIsRight(t, f, Elite);
    OneRowIsRight(t, f, Checked);
  }

  /** A matching record can be missed: the top elite row by score does not contain the query, a lower one
      does, and the query is only applied to the one row the SELECT returned. */
  lemma QueryCanMissAMatch(top: Proxy, hit: Proxy, t: Table, f: Filters)
    requires top.id == "x" && top.host == "x" && top.score == 2 && top.status == Elite
    requires hit.id == "y" && hit.host == "y" && hit.score == 1 && hit.status == Elite
    requires t == map["x" := RowOf(Elite, top), "y" := RowOf(Elite, hit)]
    requires f == Filters(None, None, None, None, Some("y"), None)
    ensures Eligible(t, f, Elite, hit) && Best(t, f).None?
  {
    assert Text.Lower("y") == "y" && Text.Lower("x") == "x";
    assert QueryHits(hit, f.query);
    assert !QueryHits(top, f.query) by {
      assert !Text.Contains("x"[1..], "y");
    }
    TopRowsDecide(t, f, top);
  }

  lemma TopRowsDecide(t: Table, f: Filters, top: Proxy)
    requires Agrees(t) && Tops(t, f.(query := None), Elite, top) && !QueryHits(top, f.query)
    requires forall id :: id in t ==> t[id].pool == Elite
    ensures Best(t, f).None?
  {
    OneRow(t, f, Elite);
    OneRow(t, f, Checked);
    Text.LessIsStrict(top.id, top.id);
    forall p | Tops(t, f.(query := None), Elite, p) ensures p == top {
      Text.LessIsStrict(p.id, top.id);
    }
  }

  // ---------------------------------------------------------------- the listing of the services

  function CountOf(t: Table, pool: Pool): nat { |PoolIds(t, pool)| }

  /** list_proxies: the best `limit` records of a pool by score; equal scores come in any order. */
  ghost predicate IsListing(t: Table, pool: Pool, limit: int, s: seq<Proxy>) {
    && |s| == Min(Max(limit, 0), CountOf(t, pool))
    && (forall i :: 0 <= i < |s| ==> s[i].id in t && t[s[i].id].pool == pool && t[s[i].id].payload == s[i])
    && (forall i, j :: 0 <= i < j < |s| ==> s[i].id != s[j].id && s[i].score >= s[j].score)
    && (forall id, i :: id in PoolIds(t, pool) && 0 <= i < |s| && t[id].score > s[i].score ==> t[id].payload in s)
  }
}
