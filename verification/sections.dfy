/** The section loop of the parallel search in src/service/collect-docs.cpp: the id space is cut
    into pieces of 0x4000 ids by a uint32 loop, and each piece becomes a query of its own. */
module Sections {
  import opened Basics
  import opened Ranking
  import opened Collection

  const SECTION := 0x4000

  /** `uLower` after `n` steps of `uLower += max_thread_section`. */
  function Lower(n: nat): (u: nat)
    ensures u < WORD32
  {
    if n == 0 then 0 else (Lower(n - 1) + SECTION) % WORD32
  }

  lemma {:induction false} LowerIsLinear(n: nat)
    requires n <= 0x3_FFFF
    ensures Lower(n) == n * SECTION
  {
    if n > 0 {
      LowerIsLinear(n - 1);
    }
  }

  lemma {:induction false} LowerIsAligned(n: nat)
    ensures Lower(n) % SECTION == 0 && Lower(n) <= 0xFFFF_C000
  {
    if n > 0 {
      LowerIsAligned(n - 1);
      if Lower(n - 1) == 0xFFFF_C000 {
        assert Lower(n) == 0;
      } else {
        assert Lower(n) == Lower(n - 1) + SECTION;
      }
    }
  }

  /** The loop `uLower < rBound` ends exactly for bounds up to 0xFFFFC000; above, `uLower` wraps to 0 for ever. */
  lemma LoopEndsExactly(rBound: nat)
    ensures (exists n :: Lower(n) >= rBound) <==> rBound <= 0xFFFF_C000
  {
    if rBound <= 0xFFFF_C000 {
      LowerIsLinear(0x3_FFFF);
      assert Lower(0x3_FFFF) >= rBound;
    } else {
      forall n ensures Lower(n) < rBound {
        LowerIsAligned(n);
      }
    }
  }

  // ---------------------------------------------------------------------------------------
  // Sub-queries
  // ---------------------------------------------------------------------------------------

  /** The hits with `lo <= id < hi`. */
  function Restrict(query: Query, lo: nat, hi: nat): seq<Hit> {
    var a, b := query.Seek(lo, 0), query.Seek(hi, 0);
    if a <= b then query.hits[a..b] else []
  }

  lemma SeekMonotone(query: Query, lo: nat, hi: nat)
    requires query.Valid() && lo <= hi
    ensures query.Seek(lo, 0) <= query.Seek(hi, 0)
  {
  }

  lemma RestrictIsFilter(query: Query, lo: nat, hi: nat, h: Hit)
    requires query.Valid() && lo <= hi
    ensures h in Restrict(query, lo, hi) <==> h in query.hits && lo <= h.id < hi
  {
  }

  lemma RestrictConcat(query: Query, lo: nat, mid: nat, hi: nat)
    requires query.Valid() && lo <= mid <= hi
    ensures Restrict(query, lo, mid) + Restrict(query, mid, hi) == Restrict(query, lo, hi)
  {
  }

  lemma RestrictAll(query: Query, hi: nat)
    requires query.Valid() && query.last <= hi
    ensures Restrict(query, 0, hi) == query.hits
  {
  }

  /** `Duplicate( { lo, hi } )`: the query restricted to a section; an empty one may come back as null. */
  method Duplicate(query: Query, lo: nat, hi: nat) returns (r: Option<Query>)
    requires query.Valid() && lo <= hi
    ensures r == None || r == Some(Query(Restrict(query, lo, hi), query.last))
    ensures r == None ==> Restrict(query, lo, hi) == []
    ensures r.Some? ==> r.value.Valid()
  {
    var none: bool := *;
    var hits := Restrict(query, lo, hi);
    SeekMonotone(query, lo, hi);
    r := if none && hits == [] then None else Some(Query(hits, query.last));
  }

  /** The hits of one aligned section of ids. */
  ghost predicate IsSection(query: Query, hits: seq<Hit>) {
    exists u: nat :: u % SECTION == 0 && hits == Restrict(query, u, u + SECTION)
  }

  ghost function Flatten(parts: seq<Query>): seq<Hit> {
    if parts == [] then [] else Flatten(parts[..|parts| - 1]) + parts[|parts| - 1].hits
  }

  lemma FlattenPush(parts: seq<Query>, part: Query)
    ensures Flatten(parts + [part]) == Flatten(parts) + part.hits
  {
  }

  lemma StartOfQuery(query: Query)
    requires query.Valid()
    ensures Restrict(query, 0, 0) == [] == Flatten([])
  {
  }

  /** The loop that shares the query: laid end to end, the sub-queries are the query. */
  method Share(query: Query) returns (parts: seq<Query>)
    requires query.Valid() && query.last <= 0xFFFF_C000
    ensures forall i :: 0 <= i < |parts| ==> parts[i].Valid() && IsSection(query, parts[i].hits)
    ensures Flatten(parts) == query.hits
  {
    hide Restrict, Flatten, Query.Valid;
    parts := [];
    var uLower := 0;
    StartOfQuery(query);
    RestrictAll(query, query.last);
    while uLower < query.last
      invariant uLower % SECTION == 0 && uLower <= 0xFFFF_C000
      invariant forall i :: 0 <= i < |parts| ==> parts[i].Valid() && IsSection(query, parts[i].hits)
      invariant Flatten(parts) == Restrict(query, 0, uLower)
      decreases 0xFFFF_C000 - uLower
    {
      var uUpper := (uLower + SECTION) % WORD32;
      var subQuery := Duplicate(query, uLower, uUpper);
      RestrictConcat(query, 0, uLower, uUpper);
      if subQuery.Some? {
        FlattenPush(parts, subQuery.value);
        assert IsSection(query, subQuery.value.hits) by {
          assert uUpper == uLower + SECTION;
        }
        parts := parts + [subQuery.value];
      }
      uLower := uUpper;
    }
    RestrictAll(query, uLower);
  }

  // ---------------------------------------------------------------------------------------
  // The hits of a set of parts
  // ---------------------------------------------------------------------------------------

  ghost function HitsOf(parts: seq<Query>): set<Hit> {
    set i, h | 0 <= i < |parts| && h in RatedOf(parts[i].hits) :: h
  }

  /** No hit is in two parts. */
  ghost predicate Apart(parts: seq<Query>) {
    forall i, j :: 0 <= i < j < |parts| ==> RatedOf(parts[i].hits) !! RatedOf(parts[j].hits)
  }

  lemma RatedConcat(s: seq<Hit>, t: seq<Hit>)
    ensures RatedOf(s + t) == RatedOf(s) + RatedOf(t)
  {
  }

  lemma HitsPush(parts: seq<Query>, part: Query)
    ensures HitsOf(parts + [part]) == HitsOf(parts) + RatedOf(part.hits)
  {
    var all := parts + [part];
    forall h ensures h in HitsOf(all) <==> h in HitsOf(parts) + RatedOf(part.hits) {
      if h in HitsOf(all) {
        var i :| 0 <= i < |all| && h in RatedOf(all[i].hits);
        assert i < |parts| ==> h in RatedOf(parts[i].hits);
      }
      if h in HitsOf(parts) {
        var i :| 0 <= i < |parts| && h in RatedOf(parts[i].hits);
        assert h in RatedOf(all[i].hits);
      }
      if h in RatedOf(part.hits) {
        assert h in RatedOf(all[|parts|].hits);
      }
    }
  }

  ghost predicate DistinctHits(hits: seq<Hit>) {
    forall i, j :: 0 <= i < j < |hits| ==> hits[i].id != hits[j].id
  }

  /** Every hit falls in exactly one part. */
  lemma {:induction false} PartsOfHits(parts: seq<Query>)
    requires DistinctHits(Flatten(parts))
    ensures HitsOf(parts) == RatedOf(Flatten(parts)) && Apart(parts)
  {
    if parts == [] {
    } else {
      var n := |parts| - 1;
      var init, last := parts[..n], parts[n];
      assert parts == init + [last];
      var f := Flatten(init);
      assert DistinctHits(f) by {
        assert forall i :: 0 <= i < |f| ==> f[i] == Flatten(parts)[i];
      }
      PartsOfHits(init);
      HitsPush(init, last);
      RatedConcat(f, last.hits);
      forall h | h in RatedOf(last.hits) ensures h !in RatedOf(f) {
        var j :| 0 <= j < |last.hits| && last.hits[j] == h;
        assert Flatten(parts)[|f| + j] == h;
        forall i | 0 <= i < |f| ensures f[i] != h {
          assert Flatten(parts)[i] == f[i];
        }
      }
      forall i, j | 0 <= i < j < |parts| ensures RatedOf(parts[i].hits) !! RatedOf(parts[j].hits) {
        if j < n {
          assert init[i] == parts[i] && init[j] == parts[j];
        } else {
          assert RatedOf(init[i].hits) <= HitsOf(init);
        }
      }
    }
  }

  /** Taking one part out of the pending ones. */
  lemma TakePart(parts: seq<Query>, k: nat)
    requires k < |parts| && Apart(parts)
    ensures var rest := parts[..k] + parts[k + 1..];
            && Apart(rest)
            && HitsOf(parts) == HitsOf(rest) + RatedOf(parts[k].hits)
            && HitsOf(rest) !! RatedOf(parts[k].hits)
  {
    var rest := parts[..k] + parts[k + 1..];
    assert forall i :: 0 <= i < |rest| ==> rest[i] == parts[if i < k then i else i + 1];
    forall i | 0 <= i < |rest| ensures RatedOf(rest[i].hits) !! RatedOf(parts[k].hits) {
      var j := if i < k then i else i + 1;
      assert RatedOf(parts[j].hits) !! RatedOf(parts[k].hits);
    }
    forall h | h in HitsOf(parts) ensures h in HitsOf(rest) + RatedOf(parts[k].hits) {
      var i :| 0 <= i < |parts| && h in RatedOf(parts[i].hits);
      if i != k {
        assert h in RatedOf(rest[if i < k then i else i - 1].hits);
      }
    }
    forall h | h in HitsOf(rest) ensures h in HitsOf(parts) {
      var i :| 0 <= i < |rest| && h in RatedOf(rest[i].hits);
      assert h in RatedOf(parts[if i < k then i else i + 1].hits);
    }
  }
}
