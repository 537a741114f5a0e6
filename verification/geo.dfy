/** Longest-prefix lookup of an address among CIDR records. */
module Geo {
  import opened Domain

  /** A parsed address; parsing itself is an oracle of the lookup. */
  datatype Ip = V4(value: nat) | V6(value: nat)

  /** A network as `strict=False` builds it: the host bits of `base` are cleared. */
  datatype Network = Network(v6: bool, prefixLen: nat, base: nat)

  datatype GeoRecord = GeoRecord(network: Network, country: Option<string>, asn: Option<string>)

  function Pow2(k: nat): (p: nat)
    ensures p > 0
  {
    if k == 0 then 1 else 2 * Pow2(k - 1)
  }

  function Width(v6: bool): nat { if v6 then 128 else 32 }

  /** The address with its `k` low bits cleared. */
  function Mask(x: nat, k: nat): int { x / Pow2(k) * Pow2(k) }

  predicate Holds(n: Network, ip: Ip) {
    n.v6 == ip.V6? && n.prefixLen <= Width(n.v6) && Mask(ip.value, Width(n.v6) - n.prefixLen) == n.base
  }

  // ---------------------------------------------------------------- masks nest

  lemma HalfAgain(x: nat, p: nat)
    requires p > 0
    ensures x / p / 2 == x / (2 * p)
  {
    var q, r := x / p, x % p;
    var s, b := q / 2, q % 2;
    assert x == q * p + r && q == 2 * s + b;
    assert (2 * s + b) * p == s * (2 * p) + b * p;
    assert x == s * (2 * p) + (b * p + r);
    assert 0 <= b * p + r < 2 * p by {
      assert b == 0 || b == 1;
    }
    QuotientIsUnique(x, 2 * p, s, b * p + r);
  }

  lemma {:induction false} MultiplesApart(a: nat, b: nat, d: nat)
    requires a < b
    ensures a * d + d <= b * d
    decreases b
  {
    assert b * d == (b - 1) * d + d;
    if a < b - 1 {
      MultiplesApart(a, b - 1, d);
    }
  }

  lemma {:induction false} QuotientIsUnique(x: nat, d: nat, q: nat, r: nat)
    requires d > 0 && x == q * d + r && r < d
    ensures x / d == q
  {
    var q' := x / d;
    assert q' * d <= x < q' * d + d;
    if q' < q {
      MultiplesApart(q', q, d);
    } else if q < q' {
      MultiplesApart(q, q', d);
    }
  }

  lemma {:induction false} CoarserMask(a: nat, b: nat, k: nat, more: nat)
    requires Mask(a, k) == Mask(b, k)
    ensures Mask(a, k + more) == Mask(b, k + more)
  {
    if more > 0 {
      CoarserMask(a, b, k, more - 1);
      var p := Pow2(k + more - 1);
      assert a / p == b / p;
      HalfAgain(a, p);
      HalfAgain(b, p);
    }
  }

  /** Of two networks that hold a common address the one with the longer prefix lies inside the other. */
  lemma LongerPrefixIsInside(inner: Network, outer: Network, common: Ip, ip: Ip)
    requires Holds(inner, common) && Holds(outer, common) && inner.prefixLen >= outer.prefixLen
    requires Holds(inner, ip)
    ensures Holds(outer, ip)
  {
    CoarserMask(ip.value, common.value, Width(inner.v6) - inner.prefixLen, inner.prefixLen - outer.prefixLen);
  }

  // ---------------------------------------------------------------- what a network holds

  lemma MaskRange(x: nat, d: nat, times: nat)
    requires d > 0
    ensures x / d * d == times * d <==> times * d <= x < times * d + d
  {
    var q := x / d;
    assert q * d <= x < q * d + d;
    if times * d <= x < times * d + d {
      QuotientIsUnique(x, d, times, x - times * d);
    }
  }

  /** The addresses of a network are those of its family from its base on, as many as its host bits can count;
      `size` is that number, and the base a multiple of it, as clearing the host bits leaves it. */
  lemma HoldsRange(n: Network, ip: Ip, size: nat, times: nat)
    requires n.prefixLen <= (if n.v6 then 128 else 32) && size == Pow2((if n.v6 then 128 else 32) - n.prefixLen)
    requires n.base == times * size
    ensures Holds(n, ip) <==> n.v6 == ip.V6? && n.base <= ip.value < n.base + size
  {
    MaskRange(ip.value, size, times);
  }

  /** Each host bit doubles the number. */
  lemma SizeDoubles(k: nat)
    ensures Pow2(0) == 1 && Pow2(k + 1) == 2 * Pow2(k)
  {}

  /** A prefix longer than the addresses of the family holds nothing. */
  lemma TooLongHoldsNothing(n: Network, ip: Ip)
    requires n.prefixLen > if n.v6 then 128 else 32
    ensures !Holds(n, ip)
  {}

  // ---------------------------------------------------------------- the sorted scan

  /** `sorted(..., reverse=True)`: longest prefix first, equal prefixes in their original order. */
  function Insert(r: GeoRecord, s: seq<GeoRecord>): seq<GeoRecord> {
    if s == [] || s[0].network.prefixLen <= r.network.prefixLen then [r] + s
    else [s[0]] + Insert(r, s[1..])
  }

  function StableSort(file: seq<GeoRecord>): seq<GeoRecord> {
    if file == [] then [] else Insert(file[0], StableSort(file[1..]))
  }

  predicate Descending(s: seq<GeoRecord>) {
    |s| >= 2 ==> s[0].network.prefixLen >= s[1].network.prefixLen && Descending(s[1..])
  }

  function FirstMatch(s: seq<GeoRecord>, ip: Ip): Option<GeoRecord> {
    if s == [] then None
    else if Holds(s[0].network, ip) then Some(s[0])
    else FirstMatch(s[1..], ip)
  }

  lemma {:induction false} DescendingMatch(s: seq<GeoRecord>, ip: Ip)
    requires Descending(s) && s != [] && FirstMatch(s, ip).Some?
    ensures FirstMatch(s, ip).value.network.prefixLen <= s[0].network.prefixLen
  {
    if !Holds(s[0].network, ip) {
      DescendingMatch(s[1..], ip);
    }
  }

  lemma {:induction false} InsertMatch(r: GeoRecord, s: seq<GeoRecord>, ip: Ip)
    requires Descending(s)
    ensures Descending(Insert(r, s))
    ensures var m := FirstMatch(s, ip);
            FirstMatch(Insert(r, s), ip)
            == if Holds(r.network, ip) && (m.None? || m.value.network.prefixLen <= r.network.prefixLen) then Some(r)
               else m
  {
    if s == [] || s[0].network.prefixLen <= r.network.prefixLen {
      assert ([r] + s)[1..] == s;
      if FirstMatch(s, ip).Some? {
        DescendingMatch(s, ip);
      }
    } else {
      InsertMatch(r, s[1..], ip);
      assert ([s[0]] + Insert(r, s[1..]))[1..] == Insert(r, s[1..]);
    }
  }

  /** Record `i` holds the address, no match has a longer prefix, and no earlier match an equal one. */
  ghost predicate LongestAt(file: seq<GeoRecord>, ip: Ip, i: int) {
    && 0 <= i < |file|
    && Holds(file[i].network, ip)
    && forall j :: 0 <= j < |file| && Holds(file[j].network, ip) ==>
         && file[j].network.prefixLen <= file[i].network.prefixLen
         && (j < i ==> file[j].network.prefixLen < file[i].network.prefixLen)
  }

  /** The first match of the sorted records is the longest match of the file, first in file order on ties. */
  lemma {:induction false} ScanFindsLongest(file: seq<GeoRecord>, ip: Ip)
    ensures Descending(StableSort(file))
    ensures match FirstMatch(StableSort(file), ip)
            case None => forall i :: 0 <= i < |file| ==> !Holds(file[i].network, ip)
            case Some(r) => exists i :: LongestAt(file, ip, i) && file[i] == r
  {
    if file != [] {
      ScanFindsLongest(file[1..], ip);
      InsertMatch(file[0], StableSort(file[1..]), ip);
      var found := FirstMatch(StableSort(file), ip);
      var m := FirstMatch(StableSort(file[1..]), ip);
      if found.Some? {
        if Holds(file[0].network, ip) && (m.None? || m.value.network.prefixLen <= file[0].network.prefixLen) {
          assert LongestAt(file, ip, 0) by {
            forall j | 0 <= j < |file| && Holds(file[j].network, ip)
              ensures file[j].network.prefixLen <= file[0].network.prefixLen
            {
              if j > 0 { assert file[1..][j - 1] == file[j]; }
            }
          }
        } else {
          var i :| LongestAt(file[1..], ip, i) && file[1..][i] == m.value;
          assert LongestAt(file, ip, i + 1) by {
            forall j | 0 <= j < |file| && Holds(file[j].network, ip)
              ensures file[j].network.prefixLen <= file[i + 1].network.prefixLen
              ensures j < i + 1 ==> file[j].network.prefixLen < file[i + 1].network.prefixLen
            {
              if j > 0 { assert file[1..][j - 1] == file[j]; }
            }
          }
        }
      } else {
        forall i | 0 <= i < |file| ensures !Holds(file[i].network, ip) {
          if i > 0 { assert file[1..][i - 1] == file[i]; }
        }
      }
    }
  }

  /** The network the lookup chooses is contained in every other matching network. */
  lemma LongestIsInnermost(file: seq<GeoRecord>, ip: Ip, i: int, j: int, other: Ip)
    requires LongestAt(file, ip, i) && 0 <= j < |file| && Holds(file[j].network, ip)
    requires Holds(file[i].network, other)
    ensures Holds(file[j].network, other)
  {
    LongerPrefixIsInside(file[i].network, file[j].network, ip, other);
  }

  /** What enrichment makes of a record whose host parses to `ip`. */
  function Enriched(file: seq<GeoRecord>, p: Proxy, ip: Option<Ip>): Proxy {
    if ip.None? then p
    else match FirstMatch(StableSort(file), ip.value)
      case None => p
      case Some(r) => p.(country := r.country, asn := r.asn)
  }

  predicate NoneHolds(file: seq<GeoRecord>, ip: Ip) {
    forall i :: 0 <= i < |file| ==> !Holds(file[i].network, ip)
  }

  /** Enrichment takes country and ASN from the longest match, and nothing without an address or a match. */
  lemma EnrichedFromLongest(file: seq<GeoRecord>, p: Proxy, ip: Option<Ip>)
    ensures ip == None || NoneHolds(file, ip.value) ==> Enriched(file, p, ip) == p
    ensures forall i :: ip.Some? && LongestAt(file, ip.value, i) ==>
              Enriched(file, p, ip) == p.(country := file[i].country, asn := file[i].asn)
  {
    if ip.Some? {
      ScanFindsLongest(file, ip.value);
    }
  }

  class GeoResolver {
    const file: seq<GeoRecord>
    const records: seq<GeoRecord>

    ghost predicate Valid() { records == StableSort(file) }

    constructor (file: seq<GeoRecord>)
      ensures Valid() && this.file == file
    {
      this.file := file;
      this.records := StableSort(file);
    }

    /** The linear scan; the record stays unchanged when the host is no address or nothing matches. */
    method Enrich(p: Proxy, ip: Option<Ip>) returns (enriched: Proxy)
      requires Valid()
      ensures enriched == Enriched(file, p, ip)
      ensures ip == None || NoneHolds(file, ip.value) ==> enriched == p
      ensures forall i :: ip.Some? && LongestAt(file, ip.value, i) ==>
                enriched == p.(country := file[i].country, asn := file[i].asn)
    {
      if ip.None? {
        return p;
      }
      ScanFindsLongest(file, ip.value);
      for k := 0 to |records|
        invariant FirstMatch(records, ip.value) == FirstMatch(records[k..], ip.value)
      {
        if Holds(records[k].network, ip.value) {
          return p.(country := records[k].country, asn := records[k].asn);
        }
      }
      enriched := p;
    }
  }
}
