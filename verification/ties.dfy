/** Ties that reach across the end of the position arena: the simple condition under which all copies of an abstract are
    the same, and where it fails. */
module Ties {
  import opened Basics
  import opened Sorting
  import opened Quotes
  import opened Exchange

  // ---------------------------------------------------------------------------------------
  // Ties across the end of the arena
  // ---------------------------------------------------------------------------------------

  /** Takes the positions away from entries that do not start before `x`. */
  function Trim(x: nat): Entry -> Entry {
    (e: Entry) => if e.limits.uMin < x then e else Entry(e.limits, e.weight, [])
  }

  /** The number of positions of the entries that start before `x`. */
  function Below(es: seq<Entry>, x: nat): nat {
    Size(Map(Trim(x), es))
  }

  /** `e` has positions, other entries with its `uMin` have some, too, and together they begin within the arena and
      end beyond it. */
  predicate Crosses(kept: seq<Entry>, e: Entry) {
    var lo, hi := Below(kept, e.limits.uMin), Below(kept, e.limits.uMin + 1);
    lo < MAX_POSITIONS < hi && 0 < |e.positions| < hi - lo
  }

  predicate TieCrosses(kept: seq<Entry>) {
    exists e :: e in kept && Crosses(kept, e)
  }

  /** All copies of the source are the same up to ties, see `ToldCutsAgreeExactly`: fewer than four entries are never
      put in another order, and otherwise no tie reaches across the end of the arena. */
  predicate Determined(source: Abstract) {
    source.Rich? ==>
      var kept := Select(source.entries).kept;
      |kept| < MAX_ENTRIES || !TieCrosses(kept)
  }

  lemma BelowPermutes(s: seq<Entry>, t: seq<Entry>, x: nat)
    requires multiset(s) == multiset(t)
    ensures Below(s, x) == Below(t, x)
  {
    MapPermutes(Trim(x), s, t);
    TotalOfPermutation(Map(Trim(x), s), Map(Trim(x), t));
  }

  lemma {:induction false} TrimmedTotal(es: seq<Entry>, x: nat, i: nat)
    requires i <= |es|
    ensures Total(Map(Trim(x), es), i) <= Total(es, i)
    ensures (forall k :: 0 <= k < i ==> es[k].limits.uMin < x) ==> Total(Map(Trim(x), es), i) == Total(es, i)
  {
    if i > 0 {
      TrimmedTotal(es, x, i - 1);
    }
  }

  lemma {:induction false} NothingBehind(es: seq<Entry>, x: nat, i: nat, j: nat)
    requires i <= j <= |es| && forall k :: i <= k < |es| ==> es[k].limits.uMin >= x
    ensures Total(Map(Trim(x), es), j) == Total(Map(Trim(x), es), i)
    decreases j
  {
    if i < j {
      NothingBehind(es, x, i, j - 1);
    }
  }

  lemma MinsAround(order: seq<Entry>, i: nat)
    requires Ascending(Mins(order)) && i < |order|
    ensures forall k :: 0 <= k <= i ==> order[k].limits.uMin <= order[i].limits.uMin
    ensures forall k :: i <= k < |order| ==> order[k].limits.uMin >= order[i].limits.uMin
  {
    assert forall k :: 0 <= k < |order| ==> Mins(order)[k] == order[k].limits.uMin;
  }

  /** In an ordered set an entry begins behind all that start before it, and ends before all that start after it. */
  lemma Placed(order: seq<Entry>, i: nat)
    requires Ascending(Mins(order)) && i < |order|
    ensures Below(order, order[i].limits.uMin) <= Total(order, i)
    ensures Total(order, i + 1) <= Below(order, order[i].limits.uMin + 1)
  {
    hide Total, Mins, Ascending;
    var x := order[i].limits.uMin;
    MinsAround(order, i);
    NothingBehind(order, x, i, |order|);
    TrimmedTotal(order, x, i);
    TrimmedTotal(order, x + 1, i + 1);
    TotalGrows(Map(Trim(x + 1), order), i + 1, |order|);
  }

  /** How many positions an entry keeps if it comes first among those with its `uMin`. */
  function Fit(kept: seq<Entry>, e: Entry): (n: nat)
    ensures n <= |e.positions|
  {
    var lo := Below(kept, e.limits.uMin);
    Min(MAX_POSITIONS, lo + |e.positions|) - Min(MAX_POSITIONS, lo)
  }

  /** Neighbours of a tie lie within what their tie takes up. */
  lemma NeighboursWithinTie(kept: seq<Entry>, order: seq<Entry>, i: nat)
    requires multiset(order) == multiset(kept) && Ascending(Mins(order))
    requires i + 1 < |order| && MinOf(order[i]) == MinOf(order[i + 1]) && order[i + 1].positions != []
    requires order[i].positions != [] && Total(order, i) < MAX_POSITIONS < Total(order, i + 2)
    ensures Crosses(kept, order[i])
  {
    hide Below;
    var x := MinOf(order[i]);
    Placed(order, i);
    Placed(order, i + 1);
    BelowPermutes(order, kept, x);
    BelowPermutes(order, kept, x + 1);
    assert Total(order, i + 1) == Total(order, i) + |order[i].positions|;
    assert Total(order, i + 2) == Total(order, i + 1) + |order[i + 1].positions|;
  }

  /** Without a crossing tie a source is settled. */
  lemma DeterminedIsSettled(source: Abstract)
    requires Determined(source)
    ensures Settled(source)
  {
    hide Crosses, Select, Alike, Ascending;
    if source.Rich? && |Select(source.entries).kept| >= MAX_ENTRIES {
      var kept := Select(source.entries).kept;
      forall order, i | Ordered(kept, order) && 0 <= i < |order| - 1 && MinOf(order[i]) == MinOf(order[i + 1])
        ensures Indifferent(order[i], order[i + 1], Total(order, i))
      {
        NotAcross(kept, order, i);
      }
    }
  }

  lemma NotAcross(kept: seq<Entry>, order: seq<Entry>, i: nat)
    requires |kept| >= MAX_ENTRIES && Ordered(kept, order) && !TieCrosses(kept)
    requires i + 1 < |order| && MinOf(order[i]) == MinOf(order[i + 1])
    ensures Indifferent(order[i], order[i + 1], Total(order, i))
  {
    hide Crosses, Alike, Ascending;
    assert Total(order, i + 1) == Total(order, i) + |order[i].positions|;
    assert Total(order, i + 2) == Total(order, i + 1) + |order[i + 1].positions|;
    assert order[i] in multiset(kept);
    assert order[i] in kept;
    if order[i].positions != [] && order[i + 1].positions != []
      && Total(order, i) < MAX_POSITIONS < Total(order, i + 2) {
      NeighboursWithinTie(kept, order, i);
    }
  }

  /** Two cuts of one source agree unless a tie reaches across the end of the arena. */
  lemma CutsAgree(source: Abstract, a: Abstract, b: Abstract)
    requires IsCut(source, a) && IsCut(source, b)
    requires Determined(source)
    ensures Same(a, b)
  {
    hide IsCut, Same, Determined, Settled;
    DeterminedIsSettled(source);
    SettledCutsAgree(source, a, b);
  }

  /** All copies of one source, however often they were copied, are the same quote up to ties. */
  lemma CopiesAgree(source: Abstract, a: Abstract, b: Abstract)
    requires Faithful(source, a) && Faithful(source, b)
    requires Determined(source)
    ensures Same(a, b)
  {
    hide Faithful, Same, Determined, Settled;
    DeterminedIsSettled(source);
    SettledCopiesAgree(source, a, b);
  }

  // ---------------------------------------------------------------------------------------
  // Where a tie crosses, copies differ
  // ---------------------------------------------------------------------------------------

  /** `x` differs from `e` in its limits, its weight or its first `n` positions. */
  ghost predicate Unlike(e: Entry, n: nat, x: Entry)
    requires n <= |e.positions|
  {
    || x.limits != e.limits || x.weight != e.weight
    || |x.positions| < n || multiset(x.positions[..n]) != multiset(e.positions[..n])
  }

  /** What the `i`-th entry keeps when it comes first in its tie, no other entry can keep. */
  ghost predicate Lone(kept: seq<Entry>, i: nat)
    requires i < |kept|
  {
    forall k :: 0 <= k < |kept| && k != i ==> Unlike(kept[i], Fit(kept, kept[i]), kept[k])
  }

  /** The entries that start before `x` come first. */
  ghost predicate SplitAt(s: seq<Entry>, x: nat, p: nat) {
    && p <= |s|
    && (forall k :: 0 <= k < p ==> s[k].limits.uMin < x)
    && (forall k :: p <= k < |s| ==> s[k].limits.uMin >= x)
  }

  lemma {:induction false} SplitExists(s: seq<Entry>, x: nat) returns (p: nat)
    requires Ascending(Mins(s))
    ensures SplitAt(s, x, p)
  {
    p := 0;
    if s != [] {
      var n := |s| - 1;
      assert forall k :: 0 <= k < |s| ==> Mins(s)[k] == s[k].limits.uMin;
      assert Mins(s[..n]) == Mins(s)[..n];
      p := SplitExists(s[..n], x);
      if s[n].limits.uMin < x {
        p := |s|;
      }
    }
  }

  lemma SplitTotal(es: seq<Entry>, x: nat, p: nat)
    requires SplitAt(es, x, p)
    ensures Total(es, p) == Below(es, x)
  {
    TrimmedTotal(es, x, p);
    NothingBehind(es, x, p, |es|);
  }

  function With(s: seq<Entry>, p: nat, e: Entry): seq<Entry>
    requires p <= |s|
  {
    s[..p] + [e] + s[p..]
  }

  /** `e` put among sorted entries, at the first place or the last one of its tie. */
  lemma WithOrdered(s: seq<Entry>, p: nat, e: Entry)
    requires Ascending(Mins(s)) && (SplitAt(s, e.limits.uMin, p) || SplitAt(s, e.limits.uMin + 1, p))
    ensures Ascending(Mins(With(s, p, e))) && multiset(With(s, p, e)) == multiset(s) + multiset{e}
  {
    assert s == s[..p] + s[p..];
    AscendingWith(Mins(s), p, e.limits.uMin) by {
      assert forall k :: 0 <= k < |s| ==> Mins(s)[k] == s[k].limits.uMin;
    }
    assert Mins(With(s, p, e)) == Mins(s)[..p] + [e.limits.uMin] + Mins(s)[p..];
  }

  lemma AscendingWith(s: seq<nat>, p: nat, x: nat)
    requires Ascending(s) && p <= |s|
    requires (forall k :: 0 <= k < p ==> s[k] <= x) && (forall k :: p <= k < |s| ==> x <= s[k])
    ensures Ascending(s[..p] + [x] + s[p..])
  {
  }

  /** Where the entry begins when it comes first in its tie, and where it ends when it comes last. */
  lemma WithTotals(s: seq<Entry>, e: Entry, x: nat, p: nat)
    requires SplitAt(s, x, p)
    ensures e.limits.uMin >= x ==> Total(With(s, p, e), p) == Below(With(s, p, e), x)
    ensures e.limits.uMin < x ==> Total(With(s, p, e), p + 1) == Below(With(s, p, e), x)
    ensures Total(With(s, p, e), p + 1) == Total(With(s, p, e), p) + |e.positions|
  {
    var o := With(s, p, e);
    var n := if e.limits.uMin < x then p + 1 else p;
    assert forall k :: p < k < |o| ==> o[k] == s[k - 1];
    assert SplitAt(o, x, n);
    SplitTotal(o, x, n);
  }

  /** First in its tie the entry keeps more positions than last. */
  lemma FirstKeepsMore(kept: seq<Entry>, s: seq<Entry>, e: Entry, p: nat, q: nat)
    requires Ascending(Mins(s)) && multiset(kept) == multiset(s) + multiset{e} && Crosses(kept, e)
    requires SplitAt(s, e.limits.uMin, p) && SplitAt(s, e.limits.uMin + 1, q)
    ensures var oa, ob := With(s, p, e), With(s, q, e);
            Fit(kept, e) == Used(oa, p + 1) - Used(oa, p) > Used(ob, q + 1) - Used(ob, q)
  {
    hide Below, Total, Ascending, With;
    var x := e.limits.uMin;
    WithOrdered(s, p, e);
    WithOrdered(s, q, e);
    BelowPermutes(With(s, p, e), kept, x);
    BelowPermutes(With(s, q, e), kept, x + 1);
    WithTotals(s, e, x, p);
    WithTotals(s, e, x + 1, q);
  }

  /** What `e` keeps tells the two cuts apart, because no other entry can be taken for it. */
  lemma CoresDiffer(s: seq<Entry>, e: Entry, p: nat, q: nat, a: seq<Entry>, b: seq<Entry>, n: nat)
    requires p <= |s| && q <= |s| && Packed(With(s, p, e), a) && Packed(With(s, q, e), b)
    requires n <= |e.positions| && forall x :: x in s ==> Unlike(e, n, x)
    requires n == Used(With(s, p, e), p + 1) - Used(With(s, p, e), p)
    requires n != Used(With(s, q, e), q + 1) - Used(With(s, q, e), q)
    ensures multiset(Cores(a)) != multiset(Cores(b))
  {
    hide Used, Packed;
    var oa, ob := With(s, p, e), With(s, q, e);
    PackedSize(oa, a);
    PackedSize(ob, b);
    PackedCore(oa, a, p, n);
    var c := Cores(a)[p];
    assert c in multiset(Cores(a));
    forall k | 0 <= k < |b| ensures Cores(b)[k] != c {
      PackedCore(ob, b, k, KeptOf(ob, k));
      assert k != q ==> ob[k] in s;
    }
    assert c !in Cores(b);
  }

  lemma PackedSize(order: seq<Entry>, out: seq<Entry>)
    requires Packed(order, out)
    ensures |out| == |order|
  {
  }

  function KeptOf(order: seq<Entry>, i: nat): (n: nat)
    requires i < |order|
    ensures n == Used(order, i + 1) - Used(order, i)
  {
    TotalGrows(order, i, i + 1);
    Used(order, i + 1) - Used(order, i)
  }

  function Without(kept: seq<Entry>, i: nat): seq<Entry>
    requires i < |kept|
  {
    kept[..i] + kept[i + 1..]
  }

  lemma WithoutLone(kept: seq<Entry>, i: nat)
    requires i < |kept| && Lone(kept, i)
    ensures multiset(kept) == multiset(Without(kept, i)) + multiset{kept[i]}
    ensures forall x :: x in Without(kept, i) ==> Unlike(kept[i], Fit(kept, kept[i]), x)
  {
    assert kept == kept[..i] + [kept[i]] + kept[i + 1..];
  }

  /** All entries but the `i`-th, sorted. */
  lemma SortedRest(kept: seq<Entry>, i: nat) returns (s: seq<Entry>)
    requires i < |kept| && Lone(kept, i)
    ensures Ascending(Mins(s)) && multiset(kept) == multiset(s) + multiset{kept[i]}
    ensures forall x :: x in s ==> Unlike(kept[i], Fit(kept, kept[i]), x)
  {
    hide Lone, Without, Ascending, Unlike;
    var rest := Without(kept, i);
    WithoutLone(kept, i);
    SortByKey(MinOf, rest);
    s := Sort(ByKey(MinOf), rest);
    forall x | x in s ensures x in rest {
      assert x in multiset(rest);
    }
  }

  lemma PacksDiffer(kept: seq<Entry>, i: nat) returns (oa: seq<Entry>, a: seq<Entry>, ob: seq<Entry>, b: seq<Entry>)
    requires |kept| == MAX_ENTRIES && i < MAX_ENTRIES && Crosses(kept, kept[i]) && Lone(kept, i)
    ensures Ordered(kept, oa) && Packed(oa, a) && Ordered(kept, ob) && Packed(ob, b)
    ensures multiset(Cores(a)) != multiset(Cores(b))
  {
    hide Crosses, Lone, Packed, Used, Mins, With, Cores, Unlike, Fit;
    var e := kept[i];
    var s := SortedRest(kept, i);
    var p := SplitExists(s, e.limits.uMin);
    var q := SplitExists(s, e.limits.uMin + 1);
    WithOrdered(s, p, e);
    WithOrdered(s, q, e);
    oa, ob := With(s, p, e), With(s, q, e);
    a := PackExists(oa);
    b := PackExists(ob);
    FirstKeepsMore(kept, s, e, p, q);
    CoresDiffer(s, e, p, q, a, b, Fit(kept, e));
  }

  /** A tie across the end of the arena, with an entry that can be told from the others: there are two cuts that keep
      different positions of it. */
  lemma CutsDiffer(source: Abstract, i: nat) returns (a: Abstract, b: Abstract)
    requires source.Rich? && |Select(source.entries).kept| == MAX_ENTRIES && i < MAX_ENTRIES
    requires Crosses(Select(source.entries).kept, Select(source.entries).kept[i])
    requires Lone(Select(source.entries).kept, i)
    ensures IsCut(source, a) && IsCut(source, b) && !Same(a, b)
  {
    hide Select, Crosses, Lone, Packed, Ordered;
    var oa, ea, ob, eb := PacksDiffer(Select(source.entries).kept, i);
    a, b := Rich(source.nWords, ea), Rich(source.nWords, eb);
  }

  /** If a tie crosses, one of its entries can be told from all others. */
  ghost predicate Told(kept: seq<Entry>) {
    TieCrosses(kept) ==> exists i :: 0 <= i < |kept| && Crosses(kept, kept[i]) && Lone(kept, i)
  }

  /** If one entry of a crossing tie can be told from all others, all cuts of a source agree if and only if it keeps
      fewer than four entries or no tie reaches across the end of the arena. */
  lemma ToldCutsAgreeExactly(source: Abstract)
    requires !Determined(source) ==> Told(Select(source.entries).kept)
    ensures (forall a, b :: IsCut(source, a) && IsCut(source, b) ==> Same(a, b)) <==> Determined(source)
    ensures Settled(source) <==> Determined(source)
  {
    hide IsCut, Same, Crosses, Lone, Settled;
    CutsAgreeExactly(source);
    if Determined(source) {
      DeterminedIsSettled(source);
    } else {
      var kept := Select(source.entries).kept;
      var i :| 0 <= i < |kept| && Crosses(kept, kept[i]) && Lone(kept, i);
      var a, b := CutsDiffer(source, i);
    }
  }

  // ---------------------------------------------------------------------------------------
  // An example
  // ---------------------------------------------------------------------------------------

  function Hundred(word: nat): seq<Position> {
    seq(100, _ => Position(word, 0))
  }

  /** Two entries that start at 0, with a hundred positions each. */
  function Torn(first: Entry, second: Entry): Abstract {
    Rich(7, [first, second, Entry(Limits(1, 1), 3.0, []), Entry(Limits(2, 2), 4.0, [])])
  }

  lemma TornCrosses(first: Entry, second: Entry)
    requires first.limits.uMin == 0 == second.limits.uMin && |first.positions| == 100 == |second.positions|
    ensures Select(Torn(first, second).entries).kept == Torn(first, second).entries
    ensures Crosses(Torn(first, second).entries, first)
  {
    var es := Torn(first, second).entries;
    ShortIsKept(es);
    FourTotals(Map(Trim(0), es));
    FourTotals(Map(Trim(1), es));
  }

  lemma FourTotals(es: seq<Entry>)
    requires |es| == 4
    ensures Size(es) == |es[0].positions| + |es[1].positions| + |es[2].positions| + |es[3].positions|
  {
    assert Total(es, 1) == |es[0].positions|;
    assert Total(es, 2) == Total(es, 1) + |es[1].positions|;
    assert Total(es, 3) == Total(es, 2) + |es[2].positions|;
  }

  /** A source with two cuts that are different quotes. */
  lemma TornExample() returns (a: Abstract, b: Abstract)
    ensures var source := Torn(Entry(Limits(0, 1), 1.0, Hundred(0)), Entry(Limits(0, 2), 2.0, Hundred(1)));
            IsCut(source, a) && IsCut(source, b) && !Same(a, b)
  {
    var first, second := Entry(Limits(0, 1), 1.0, Hundred(0)), Entry(Limits(0, 2), 2.0, Hundred(1));
    TornCrosses(first, second);
    a, b := CutsDiffer(Torn(first, second), 0);
  }

  /** If the two are the very same entry, all cuts agree although the tie reaches across the end. */
  lemma TwinsAgree(twin: Entry, a: Abstract, b: Abstract)
    requires twin.limits.uMin == 0 && |twin.positions| == 100
    requires IsCut(Torn(twin, twin), a) && IsCut(Torn(twin, twin), b)
    ensures !Determined(Torn(twin, twin)) && Same(a, b)
  {
    hide Crosses, Select, PackedAt, Packed, Ordered, Mins;
    var es := Torn(twin, twin).entries;
    TornCrosses(twin, twin);
    var oa :| Ordered(es, oa) && Packed(oa, a.entries);
    var ob :| Ordered(es, ob) && Packed(ob, b.entries);
    TornOrder(twin, oa);
    TornOrder(twin, ob);
    EqualPacksAgree(es, a.entries, b.entries);
    PackedMins(es, a.entries);
    PackedMins(es, b.entries);
  }

  lemma TornOrder(twin: Entry, order: seq<Entry>)
    requires twin.limits.uMin == 0 && Ordered(Torn(twin, twin).entries, order)
    ensures order == Torn(twin, twin).entries
  {
    hide Ordered;
    var es := Torn(twin, twin).entries;
    assert Mins(es) == [0, 0, 1, 2];
    OnlyOrder(es, order);
  }

  lemma OnlyOrder(es: seq<Entry>, order: seq<Entry>)
    requires |es| == MAX_ENTRIES && Ordered(es, order) && Ascending(Mins(es))
    requires forall x, y :: x in es && y in es && x.limits.uMin == y.limits.uMin ==> x == y
    ensures order == es
  {
    OrderedSize(es, order);
    MapPermutes(MinOf, es, order);
    AscendingIsUnique(Mins(es), Mins(order));
    forall k | 0 <= k < |es| ensures order[k] == es[k] {
      assert order[k] in multiset(es);
      assert Mins(order)[k] == Mins(es)[k];
    }
  }

  // ---------------------------------------------------------------------------------------
  // No ties
  // ---------------------------------------------------------------------------------------

  ghost predicate Distinct(s: seq<nat>) {
    forall i, j :: 0 <= i < j < |s| ==> s[i] != s[j]
  }

  /** Without ties, copies that are the same up to ties are identical. */
  lemma SameWithoutTies(a: Abstract, b: Abstract)
    requires Same(a, b) && Compact(a) && Compact(b)
    requires a.Rich? ==> Distinct(Mins(a.entries)) &&
                         forall i :: 0 <= i < |a.entries| ==> Distinct(Offsets(a.entries[i].positions))
    ensures a == b
  {
    if a.Rich? {
      var ea, eb := a.entries, b.entries;
      forall i, j | 0 <= i < j < |ea| ensures Cores(ea)[i].limits.uMin != Cores(ea)[j].limits.uMin {
        assert Mins(ea)[i] != Mins(ea)[j];
      }
      CoreKeys(ea);
      CoreKeys(eb);
      KeyedIsUnique(CoreMin, Cores(ea), Cores(eb));
      forall i | 0 <= i < |ea| ensures ea[i] == eb[i] {
        assert Cores(ea)[i] == Cores(eb)[i];
        var p, q := ea[i].positions, eb[i].positions;
        MapPermutes(OffsetOf, p, q);
        AscendingIsUnique(Offsets(p), Offsets(q));
        forall k, m | 0 <= k < m < |p| ensures OffsetOf(p[k]) != OffsetOf(p[m]) {
          assert Offsets(p)[k] != Offsets(p)[m];
        }
        KeyedIsUnique(OffsetOf, p, q);
      }
    }
  }

  ghost function CoreMin(c: Core): nat { c.limits.uMin }

  lemma CoreKeys(es: seq<Entry>)
    ensures Map(CoreMin, Cores(es)) == Mins(es)
  {
  }
}
