/** Permutations and sorting. `std::sort` is an insertion sort here; nothing is used of it but that its result is
    a sorted permutation, and, where it is said, that the same range is always sorted alike. */
module Sorting {
  import opened Basics

  // ---------------------------------------------------------------------------------------
  // Permutations
  // ---------------------------------------------------------------------------------------

  lemma TailMultiset<A>(s: seq<A>)
    requires s != []
    ensures multiset(s[1..]) == multiset(s) - multiset{s[0]}
  {
    assert s == [s[0]] + s[1..];
  }

  lemma SameSize<A>(s: seq<A>, t: seq<A>)
    requires multiset(s) == multiset(t)
    ensures |s| == |t|
  {
    assert |multiset(s)| == |multiset(t)|;
  }

  /** The head of one permutation, found in the other. */
  lemma RemoveHead<A>(s: seq<A>, t: seq<A>) returns (i: nat)
    requires multiset(s) == multiset(t) && s != []
    ensures i < |t| && t[i] == s[0]
    ensures multiset(s[1..]) == multiset(t[..i] + t[i + 1..])
    ensures t == t[..i] + ([s[0]] + t[i + 1..])
  {
    TailMultiset(s);
    assert s[0] in multiset(t);
    i :| 0 <= i < |t| && t[i] == s[0];
    assert t == t[..i] + ([s[0]] + t[i + 1..]);
    assert multiset(t) == multiset(t[..i]) + (multiset{s[0]} + multiset(t[i + 1..]));
    assert multiset(t[..i] + t[i + 1..]) == multiset(t) - multiset{s[0]};
  }

  lemma MapInsert<A, B>(f: A -> B, x: A, l: seq<A>, r: seq<A>)
    ensures multiset(Map(f, l + ([x] + r))) == multiset(Map(f, l + r)) + multiset{f(x)}
  {
    assert Map(f, l + ([x] + r)) == Map(f, l) + ([f(x)] + Map(f, r));
    assert Map(f, l + r) == Map(f, l) + Map(f, r);
  }

  /** Mapping a function over two permutations gives permutations. */
  lemma {:induction false} MapPermutes<A, B>(f: A -> B, s: seq<A>, t: seq<A>)
    requires multiset(s) == multiset(t)
    ensures multiset(Map(f, s)) == multiset(Map(f, t))
    decreases |s|
  {
    SameSize(s, t);
    if s == [] {
      assert Map(f, s) == Map(f, t);
    } else {
      var i := RemoveHead(s, t);
      var l, r := t[..i], t[i + 1..];
      MapPermutes(f, s[1..], l + r);
      MapInsert(f, s[0], l, r);
      MapInsert(f, s[0], [], s[1..]);
      assert s == [] + ([s[0]] + s[1..]) && [] + s[1..] == s[1..];
    }
  }

  ghost predicate Ascending(s: seq<nat>) {
    forall i, j :: 0 <= i < j < |s| ==> s[i] <= s[j]
  }

  lemma AscendingHead(s: seq<nat>, t: seq<nat>)
    requires Ascending(s) && Ascending(t) && multiset(s) == multiset(t) && s != [] && t != []
    ensures s[0] == t[0]
  {
    assert s[0] in multiset(t) && t[0] in multiset(s);
    assert s[0] in t && t[0] in s;
  }

  /** Ascending permutations are equal. */
  lemma {:induction false} AscendingIsUnique(s: seq<nat>, t: seq<nat>)
    requires Ascending(s) && Ascending(t) && multiset(s) == multiset(t)
    ensures s == t
    decreases |s|
  {
    SameSize(s, t);
    if s != [] {
      AscendingHead(s, t);
      TailMultiset(s);
      TailMultiset(t);
      AscendingIsUnique(s[1..], t[1..]);
      assert s == [s[0]] + s[1..] && t == [t[0]] + t[1..];
    }
  }

  /** Permutations that agree on an injective ascending key are equal. */
  lemma KeyedIsUnique<A>(key: A -> nat, s: seq<A>, t: seq<A>)
    requires multiset(s) == multiset(t)
    requires Map(key, s) == Map(key, t)
    requires forall i, j :: 0 <= i < j < |s| ==> key(s[i]) != key(s[j])
    ensures s == t
  {
    forall i | 0 <= i < |s| ensures s[i] == t[i] {
      assert t[i] in multiset(s);
      assert t[i] in s;
      var j :| 0 <= j < |s| && s[j] == t[i];
      assert Map(key, s)[i] == Map(key, t)[i];
      assert key(s[j]) == key(s[i]);
    }
  }

  // ---------------------------------------------------------------------------------------
  // Sorting
  // ---------------------------------------------------------------------------------------

  function Place<T>(before: (T, T) -> bool, s: seq<T>, x: T): seq<T> {
    if s == [] || before(x, s[0]) then [x] + s else [s[0]] + Place(before, s[1..], x)
  }

  function Sort<T>(before: (T, T) -> bool, s: seq<T>): seq<T> {
    if s == [] then [] else Place(before, Sort(before, s[1..]), s[0])
  }

  ghost predicate SortedUnder<T>(before: (T, T) -> bool, s: seq<T>) {
    forall i, j :: 0 <= i < j < |s| ==> before(s[i], s[j])
  }

  /** `before` decides for any two of `all`, and is transitive on them. */
  ghost predicate Comparable<T(!new)>(before: (T, T) -> bool, all: multiset<T>) {
    && (forall a, b :: a in all && b in all && a != b ==> before(a, b) || before(b, a))
    && (forall a :: all[a] >= 2 ==> before(a, a))
    && (forall a, b, c :: a in all && b in all && c in all && before(a, b) && before(b, c) ==> before(a, c))
  }

  lemma {:induction false} PlaceAdds<T>(before: (T, T) -> bool, s: seq<T>, x: T)
    ensures multiset(Place(before, s, x)) == multiset(s) + multiset{x}
  {
    if s != [] && !before(x, s[0]) {
      PlaceAdds(before, s[1..], x);
      assert s == [s[0]] + s[1..];
    }
  }

  lemma InPlace<T>(before: (T, T) -> bool, s: seq<T>, x: T, e: T)
    requires e in Place(before, s, x)
    ensures e == x || e in s
  {
    PlaceAdds(before, s, x);
    assert e in multiset(Place(before, s, x));
  }

  lemma ComparablePart<T(!new)>(before: (T, T) -> bool, all: multiset<T>, part: multiset<T>)
    requires Comparable(before, all) && part <= all
    ensures Comparable(before, part)
  {
  }

  /** What precedes the head of a sorted sequence precedes all of it. */
  lemma HeadFirst<T(!new)>(before: (T, T) -> bool, s: seq<T>, x: T)
    requires SortedUnder(before, s) && Comparable(before, multiset(s) + multiset{x})
    requires s != [] && before(x, s[0])
    ensures SortedUnder(before, [x] + s)
  {
    forall i | 0 <= i < |s| ensures before(x, s[i]) {
      assert i > 0 ==> before(s[0], s[i]);
      assert s[0] in multiset(s) && s[i] in multiset(s);
    }
  }

  lemma HeadOrNot<T(!new)>(before: (T, T) -> bool, s: seq<T>, x: T)
    requires Comparable(before, multiset(s) + multiset{x}) && s != []
    ensures before(x, s[0]) || before(s[0], x)
  {
    assert s[0] in multiset(s);
    if s[0] == x {
      assert (multiset(s) + multiset{x})[x] >= 2;
    }
  }

  lemma {:induction false} PlaceSorts<T(!new)>(before: (T, T) -> bool, s: seq<T>, x: T)
    requires SortedUnder(before, s) && Comparable(before, multiset(s) + multiset{x})
    ensures SortedUnder(before, Place(before, s, x))
  {
    hide Comparable;
    if s == [] {
    } else if before(x, s[0]) {
      HeadFirst(before, s, x);
    } else {
      HeadOrNot(before, s, x);
      TailMultiset(s);
      ComparablePart(before, multiset(s) + multiset{x}, multiset(s[1..]) + multiset{x});
      PlaceSorts(before, s[1..], x);
      var t := Place(before, s[1..], x);
      forall j | 0 <= j < |t| ensures before(s[0], t[j]) {
        InPlace(before, s[1..], x, t[j]);
      }
    }
  }

  lemma {:induction false} SortSorts<T(!new)>(before: (T, T) -> bool, s: seq<T>)
    requires Comparable(before, multiset(s))
    ensures multiset(Sort(before, s)) == multiset(s) && SortedUnder(before, Sort(before, s))
  {
    hide Comparable, SortedUnder;
    if s == [] {
      SortedNothing(before);
    } else {
      var t := Sort(before, s[1..]);
      TailMultiset(s);
      ComparablePart(before, multiset(s), multiset(s[1..]));
      SortSorts(before, s[1..]);
      assert multiset(t) + multiset{s[0]} == multiset(s);
      PlaceSorts(before, t, s[0]);
      PlaceAdds(before, t, s[0]);
    }
  }

  lemma SortedNothing<T>(before: (T, T) -> bool)
    ensures SortedUnder(before, [])
  {
  }

  function ByKey<T>(key: T -> nat): (T, T) -> bool {
    (a, b) => key(a) <= key(b)
  }

  lemma SortByKey<T(!new)>(key: T -> nat, s: seq<T>)
    ensures multiset(Sort(ByKey(key), s)) == multiset(s)
    ensures Ascending(Map(key, Sort(ByKey(key), s)))
  {
    SortSorts(ByKey(key), s);
    var t := Sort(ByKey(key), s);
    forall i, j | 0 <= i < j < |t| ensures key(t[i]) <= key(t[j]) {
      assert ByKey(key)(t[i], t[j]);
    }
  }
}
