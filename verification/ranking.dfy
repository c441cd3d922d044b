/** Ranked documents, the comparators of src/service/collect-docs.cpp, and what it means
    for a set of documents to be the best ones under a comparator. */
module Ranking {
  import opened Basics

  const WORD32 := 0x1_0000_0000

  /** A document in the result buffer: its index and its rank. */
  datatype Entity = Entity(id: nat, weight: real)

  /** A three-way comparator of (id, weight) pairs, as `DifferFn`. */
  type Differ = (nat, real, nat, real) -> Int32

  // ---------------------------------------------------------------------------------------
  // Comparator arithmetic
  // ---------------------------------------------------------------------------------------

  function ToWord32(x: int): nat {
    x % WORD32
  }

  function ToInt32(w: nat): Int32
    requires w < WORD32
  {
    if w < 0x8000_0000 then w else w - WORD32
  }

  /** `res != 0 ? res : d1 - d2`: the conditional has type uint32, the result is an int again. */
  function TieById(res: Int32, d1: nat, d2: nat): Int32 {
    ToInt32(if res != 0 then ToWord32(res) else ToWord32(d1 - d2))
  }

  function WrapDiffer(user: Differ): Differ {
    (d1, f1, d2, f2) => TieById(user(d1, f1, d2, f2), d1, d2)
  }

  function ByWeight(d1: nat, f1: real, d2: nat, f2: real): Int32 {
    (if f1 < f2 then 1 else 0) - (if f1 > f2 then 1 else 0)
  }

  function CompareByRange(d1: nat, f1: real, d2: nat, f2: real): Int32 {
    TieById(ByWeight(d1, f1, d2, f2), d1, d2)
  }

  function Cmp(differ: Differ, a: Entity, b: Entity): Int32 {
    differ(a.id, a.weight, b.id, b.weight)
  }

  predicate Before(differ: Differ, a: Entity, b: Entity) {
    Cmp(differ, a, b) < 0
  }

  /** What a caller of `SetOrder` supplies: any three-way comparator whose ties are consistent. */
  ghost predicate WeakOrder(user: Differ) {
    && (forall a, b :: Cmp(user, a, b) < 0 <==> Cmp(user, b, a) > 0)
    && (forall a, b, c :: Cmp(user, a, b) <= 0 && Cmp(user, b, c) <= 0 ==> Cmp(user, a, c) <= 0)
  }

  /** `differ` orders all documents with ids below `bound` strictly, and separates distinct ids. */
  ghost predicate StrictOrder(differ: Differ, bound: nat) {
    && (forall a: Entity, b: Entity :: a.id < bound && b.id < bound && Before(differ, a, b) ==> !Before(differ, b, a))
    && (forall a: Entity, b: Entity {:trigger Before(differ, a, b)} ::
          a.id < bound && b.id < bound && a.id != b.id ==> Before(differ, a, b) || Before(differ, b, a))
    && (forall a: Entity, b: Entity, c: Entity ::
          a.id < bound && b.id < bound && c.id < bound && Before(differ, a, b) && Before(differ, b, c)
          ==> Before(differ, a, c))
  }

  /** On a tie the wrapped comparator follows the id order exactly while the difference is an int32. */
  lemma TieFollowsIds(d1: nat, d2: nat)
    requires d1 < WORD32 && d2 < WORD32
    ensures (TieById(0, d1, d2) < 0 <==> d1 < d2) && (TieById(0, d1, d2) > 0 <==> d1 > d2)
            <==> -0x8000_0000 <= d1 - d2 < 0x8000_0000
    ensures TieById(0, d1, d2) == 0 <==> d1 == d2
  {
  }

  /** The sign of the caller's comparator survives the trip through uint32. */
  lemma SignSurvives(res: Int32, d1: nat, d2: nat)
    requires res != 0
    ensures TieById(res, d1, d2) == res
  {
  }

  lemma WrappedCmp(user: Differ, a: Entity, b: Entity)
    requires a.id < 0x8000_0000 && b.id < 0x8000_0000
    ensures Before(WrapDiffer(user), a, b) <==> Cmp(user, a, b) < 0 || (Cmp(user, a, b) == 0 && a.id < b.id)
  {
  }

  /** Any consistent caller comparator, wrapped, strictly orders the documents with ids below 2^31. */
  lemma WrappedIsStrict(user: Differ)
    requires WeakOrder(user)
    ensures StrictOrder(WrapDiffer(user), 0x8000_0000)
  {
    var d := WrapDiffer(user);
    forall a: Entity, b: Entity | a.id < 0x8000_0000 && b.id < 0x8000_0000
      ensures Before(d, a, b) ==> !Before(d, b, a)
      ensures a.id != b.id ==> Before(d, a, b) || Before(d, b, a)
    {
      WrappedCmp(user, a, b);
      WrappedCmp(user, b, a);
    }
    forall a: Entity, b: Entity, c: Entity
      | a.id < 0x8000_0000 && b.id < 0x8000_0000 && c.id < 0x8000_0000 && Before(d, a, b) && Before(d, b, c)
      ensures Before(d, a, c)
    {
      WrappedCmp(user, a, b);
      WrappedCmp(user, b, c);
      WrappedCmp(user, a, c);
      assert Cmp(user, a, c) <= 0;
      if Cmp(user, a, c) == 0 {
        assert Cmp(user, c, a) == 0;
        assert Cmp(user, b, a) <= 0 && Cmp(user, c, b) <= 0;
      }
    }
  }

  lemma ByWeightIsWeak()
    ensures WeakOrder(ByWeight)
  {
  }

  /** The default comparator puts heavier documents first, and documents of equal weight in id order. */
  lemma RangeOrderIs(a: Entity, b: Entity)
    requires a.id < 0x8000_0000 && b.id < 0x8000_0000
    ensures Before(CompareByRange, a, b) <==> a.weight > b.weight || (a.weight == b.weight && a.id < b.id)
  {
  }

  /** The default comparator is a strict order on all ids below `bound` exactly when `bound` is at most 2^31. */
  lemma RangeOrderExactly(bound: nat)
    requires bound <= WORD32
    ensures StrictOrder(CompareByRange, bound) <==> bound <= 0x8000_0000
  {
    if bound <= 0x8000_0000 {
      ByWeightIsWeak();
      WrappedIsStrict(ByWeight);
      forall a: Entity, b: Entity
        ensures Before(CompareByRange, a, b) == Before(WrapDiffer(ByWeight), a, b)
      {
      }
    } else {
      var a, b := Entity(0, 0.0), Entity(0x8000_0000, 0.0);
      TieFollowsIds(a.id, b.id);
      TieFollowsIds(b.id, a.id);
      assert Cmp(CompareByRange, a, b) == TieById(0, a.id, b.id) == -0x8000_0000;
      assert Cmp(CompareByRange, b, a) == TieById(0, b.id, a.id) == -0x8000_0000;
      assert Before(CompareByRange, a, b) && Before(CompareByRange, b, a);
    }
  }

  /** Far-apart ids of equal rank can even form a cycle. */
  lemma FarIdsCycle()
    ensures var a, b, c := Entity(1, 0.0), Entity(0x8000_0000, 0.0), Entity(0xFFFF_FFFE, 0.0);
            Before(CompareByRange, a, b) && Before(CompareByRange, b, c) && Before(CompareByRange, c, a)
  {
  }

  // ---------------------------------------------------------------------------------------
  // The best documents
  // ---------------------------------------------------------------------------------------

  ghost predicate IdsBelow(s: set<Entity>, bound: nat) {
    forall e :: e in s ==> e.id < bound
  }

  ghost predicate UniqueIds(s: set<Entity>) {
    forall a, b :: a in s && b in s && a.id == b.id ==> a == b
  }

  ghost predicate SortedBy(differ: Differ, s: seq<Entity>) {
    forall i, j :: 0 <= i < j < |s| ==> Before(differ, s[i], s[j])
  }

  ghost function Elems(s: seq<Entity>): set<Entity> {
    set e | e in s
  }

  /** `best` are the `k` best documents of `all` (all of them if there are fewer). */
  ghost predicate IsBest(differ: Differ, all: set<Entity>, best: set<Entity>, k: nat) {
    && best <= all
    && |best| == Min(|all|, k)
    && forall t, s :: t in best && s in all && s !in best ==> Before(differ, t, s)
  }

  lemma SwapPair<T>(a: set<T>, b: set<T>) returns (x: T, y: T)
    requires |a| == |b| && a != b
    ensures x in a && x !in b && y in b && y !in a
  {
    if a <= b { SubsetSize(a, b); }
    if b <= a { SubsetSize(b, a); }
    x :| x in a && x !in b;
    y :| y in b && y !in a;
  }

  /** There is only one such set, so two collectors that both hold it hold the same. */
  lemma BestIsUnique(differ: Differ, bound: nat, all: set<Entity>, b1: set<Entity>, b2: set<Entity>, k: nat)
    requires StrictOrder(differ, bound) && IdsBelow(all, bound)
    requires IsBest(differ, all, b1, k) && IsBest(differ, all, b2, k)
    ensures b1 == b2
  {
    if b1 != b2 {
      var x, y := SwapPair(b1, b2);
    }
  }

  /** Streaming step into a buffer that is not yet full. */
  lemma BestGrows(differ: Differ, all: set<Entity>, best: set<Entity>, k: nat, e: Entity)
    requires IsBest(differ, all, best, k) && |best| < k && e !in all
    ensures IsBest(differ, all + {e}, best + {e}, k)
  {
    SubsetSize(best, all);
  }

  /** Streaming step into a full buffer: `e` pushes out the worst document. */
  lemma BestReplaces(differ: Differ, bound: nat, all: set<Entity>, best: set<Entity>, k: nat, e: Entity, worst: Entity)
    requires StrictOrder(differ, bound) && IdsBelow(all + {e}, bound)
    requires IsBest(differ, all, best, k) && |best| == k && e !in all
    requires worst in best && forall t :: t in best && t != worst ==> Before(differ, t, worst)
    requires Before(differ, e, worst)
    ensures IsBest(differ, all + {e}, best - {worst} + {e}, k)
  {
    var best' := best - {worst} + {e};
    SubsetSize(best, all);
    assert |best'| == k;
    forall t, s | t in best' && s in all + {e} && s !in best'
      ensures Before(differ, t, s)
    {
      if s != worst {
        assert s in all && s !in best;
        assert Before(differ, worst, s);
        assert t == e ==> Before(differ, e, s);
      }
    }
  }

  /** Streaming step into a full buffer: `e` is worse than everything held. */
  lemma BestStays(differ: Differ, all: set<Entity>, best: set<Entity>, k: nat, e: Entity)
    requires IsBest(differ, all, best, k) && |best| == k && e !in all
    requires forall t :: t in best ==> Before(differ, t, e)
    ensures IsBest(differ, all + {e}, best, k)
  {
  }

  /** A full set of best documents stays best when only worse ones are added. */
  lemma BestIgnores(differ: Differ, all: set<Entity>, rest: set<Entity>, best: set<Entity>, k: nat)
    requires IsBest(differ, all, best, k) && |best| == k
    requires forall t, s :: t in best && s in rest ==> Before(differ, t, s)
    ensures IsBest(differ, all + rest, best, k)
  {
    SubsetSize(best, all + rest);
  }

  /** The best of two bests is the best of everything: the reason why merging partial results is enough. */
  lemma BestOfParts(differ: Differ, bound: nat, a: set<Entity>, b: set<Entity>, ta: set<Entity>, tb: set<Entity>,
                    t: set<Entity>, k: nat)
    requires StrictOrder(differ, bound) && IdsBelow(a + b, bound)
    requires a !! b
    requires IsBest(differ, a, ta, k) && IsBest(differ, b, tb, k) && IsBest(differ, ta + tb, t, k)
    ensures IsBest(differ, a + b, t, k)
  {
    assert ta !! tb;
    assert |a + b| == |a| + |b|;
    assert |ta + tb| == |ta| + |tb|;
    forall x, s | x in t && s in a + b && s !in t
      ensures Before(differ, x, s)
    {
      if s in ta + tb {
      } else if s in a {
        BestBeatsLeftover(differ, bound, a, b, ta, tb, t, k, x, s);
      } else {
        assert ta + tb == tb + ta && a + b == b + a;
        BestBeatsLeftover(differ, bound, b, a, tb, ta, t, k, x, s);
      }
    }
  }

  lemma BestBeatsLeftover(differ: Differ, bound: nat, a: set<Entity>, b: set<Entity>, ta: set<Entity>, tb: set<Entity>,
                          t: set<Entity>, k: nat, x: Entity, s: Entity)
    requires StrictOrder(differ, bound) && IdsBelow(a + b, bound)
    requires IsBest(differ, a, ta, k) && tb <= b && IsBest(differ, ta + tb, t, k)
    requires s in a && s !in ta && x in t
    ensures Before(differ, x, s)
  {
    SubsetSize(ta, a);
    assert |ta| == k;
    if x !in ta {
      SubsetSize(ta, ta + tb);
      assert |t| == k;
      if ta <= t {
        SubsetSize(ta, t);
      } else {
        var y :| y in ta && y !in t;
        assert Before(differ, x, y) && Before(differ, y, s);
      }
    }
  }

  // ---------------------------------------------------------------------------------------
  // Sequences of distinct documents
  // ---------------------------------------------------------------------------------------

  ghost predicate DistinctIds(s: seq<Entity>) {
    forall i, j :: 0 <= i < j < |s| ==> s[i].id != s[j].id
  }

  lemma {:induction false} DistinctCount(s: seq<Entity>)
    requires DistinctIds(s)
    ensures |Elems(s)| == |s|
  {
    if s != [] {
      var n := |s| - 1;
      DistinctCount(s[..n]);
      assert Elems(s) == Elems(s[..n]) + {s[n]};
      assert s[n] !in s[..n];
    }
  }

  /** A strictly ordered sequence is determined by its set. */
  lemma {:induction false} SortedIsUnique(differ: Differ, bound: nat, s: seq<Entity>, t: seq<Entity>)
    requires StrictOrder(differ, bound) && IdsBelow(Elems(s), bound)
    requires SortedBy(differ, s) && SortedBy(differ, t) && Elems(s) == Elems(t)
    ensures s == t
    decreases |s|
  {
    assert t != [] ==> t[0] in Elems(s);
    assert forall i :: 0 <= i < |t| ==> t[i] in Elems(t);
    if s == [] {
    } else {
      assert s[0] in Elems(t) && t != [];
      assert t[0] in Elems(s);
      assert s[0] in t && t[0] in s;
      assert s[0] == t[0];
      var x := s[0];
      forall i | 0 < i < |s| ensures s[i] != x {
        assert Before(differ, s[0], s[i]) && s[0] in Elems(s) && s[i] in Elems(s);
      }
      forall i | 0 < i < |t| ensures t[i] != x {
        assert Before(differ, t[0], t[i]) && t[0] in Elems(t) && t[i] in Elems(t);
      }
      assert Elems(s[1..]) == Elems(s) - {x};
      assert Elems(t[1..]) == Elems(t) - {x};
      SortedIsUnique(differ, bound, s[1..], t[1..]);
    }
  }

  /** The ranking of a set of documents: all of them, best first. */
  ghost predicate IsRanking(differ: Differ, all: set<Entity>, ranking: seq<Entity>) {
    SortedBy(differ, ranking) && Elems(ranking) == all && |ranking| == |all|
  }

  /** The first `k` documents of the ranking are the best ones. */
  lemma PrefixIsBest(differ: Differ, bound: nat, all: set<Entity>, ranking: seq<Entity>, k: nat)
    requires StrictOrder(differ, bound) && IdsBelow(all, bound)
    requires IsRanking(differ, all, ranking)
    ensures var p := ranking[..Min(|ranking|, k)];
            SortedBy(differ, p) && |Elems(p)| == |p| && IsBest(differ, all, Elems(p), k)
  {
    hide StrictOrder, Before;
    var p := ranking[..Min(|ranking|, k)];
    assert Elems(p) <= all;
    SortedCount(differ, bound, p);
    forall t, e | t in Elems(p) && e in all && e !in Elems(p)
      ensures Before(differ, t, e)
    {
      PrefixComesFirst(differ, ranking, |p|, t, e);
    }
  }

  lemma PrefixComesFirst(differ: Differ, ranking: seq<Entity>, n: nat, t: Entity, e: Entity)
    requires SortedBy(differ, ranking) && n <= |ranking|
    requires t in ranking[..n] && e in ranking && e !in ranking[..n]
    ensures Before(differ, t, e)
  {
    var i :| 0 <= i < n && ranking[i] == t;
    var j :| 0 <= j < |ranking| && ranking[j] == e;
    forall m | 0 <= m < n ensures ranking[m] != e {
      assert ranking[m] in ranking[..n];
    }
  }

  /** The best `k` documents, sorted, are the first `k` of the ranking. */
  lemma BestIsPrefix(differ: Differ, bound: nat, all: set<Entity>, ranking: seq<Entity>, s: seq<Entity>, k: nat)
    requires StrictOrder(differ, bound) && IdsBelow(all, bound)
    requires IsRanking(differ, all, ranking)
    requires SortedBy(differ, s) && |Elems(s)| == |s| && IsBest(differ, all, Elems(s), k)
    ensures s == ranking[..Min(|ranking|, k)]
  {
    hide StrictOrder, IsBest;
    var p := ranking[..Min(|ranking|, k)];
    PrefixIsBest(differ, bound, all, ranking, k);
    BestIsUnique(differ, bound, all, Elems(s), Elems(p), k);
    assert Elems(s) <= all by { BestIsWithin(differ, all, Elems(s), k); }
    SortedIsUnique(differ, bound, s, p);
  }

  lemma BestIsWithin(differ: Differ, all: set<Entity>, best: set<Entity>, k: nat)
    requires IsBest(differ, all, best, k)
    ensures best <= all
  {
  }

  lemma {:induction false} SortedCount(differ: Differ, bound: nat, s: seq<Entity>)
    requires StrictOrder(differ, bound) && IdsBelow(Elems(s), bound)
    requires SortedBy(differ, s)
    ensures |Elems(s)| == |s|
  {
    if s != [] {
      var n := |s| - 1;
      assert Elems(s) == Elems(s[..n]) + {s[n]};
      SortedCount(differ, bound, s[..n]);
      forall i | 0 <= i < n ensures s[i] != s[n] {
        assert s[i] in Elems(s) && s[n] in Elems(s) && Before(differ, s[i], s[n]);
      }
      assert s[n] !in s[..n];
    }
  }
}
