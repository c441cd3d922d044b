/** Two copies of one abstract. `std::sort` leaves the order of entries with the same `uMin` open, and what is cut off
    at the end of the position arena may depend on that order. All copies are the same, for any source, exactly if
    neighbours of a tie can be exchanged wherever the end of the arena falls into the two of them. */
module Exchange {
  import opened Basics
  import opened Sorting
  import opened Quotes

  // ---------------------------------------------------------------------------------------
  // Copies exist
  // ---------------------------------------------------------------------------------------

  ghost function Fitting(order: seq<Entry>, i: nat): seq<Position>
    requires i < |order|
  {
    TotalGrows(order, i, i + 1);
    order[i].positions[..Used(order, i + 1) - Used(order, i)]
  }

  ghost function PackedEntry(order: seq<Entry>, i: nat): Entry
    requires i < |order|
  {
    Entry(order[i].limits, order[i].weight, Sort(ByKey(OffsetOf), Fitting(order, i)))
  }

  lemma PackExists(order: seq<Entry>) returns (out: seq<Entry>)
    ensures Packed(order, out)
  {
    out := seq(|order|, i requires 0 <= i < |order| => PackedEntry(order, i));
    forall i | 0 <= i < |order| ensures PackedAt(order, out, i) {
      TotalGrows(order, i, i + 1);
      SortByKey(OffsetOf, Fitting(order, i));
      assert out[i] == PackedEntry(order, i);
    }
  }

  lemma OrderExists(kept: seq<Entry>) returns (order: seq<Entry>)
    ensures Ordered(kept, order)
  {
    SortByKey(MinOf, kept);
    order := if |kept| < MAX_ENTRIES then kept else Sort(ByKey(MinOf), kept);
  }

  /** Every abstract has a cut. */
  lemma CutExists(source: Abstract) returns (q: Abstract)
    ensures IsCut(source, q)
  {
    match source
    case Blank(n) => q := Blank(n);
    case BM25(n, fs) => q := BM25(n, fs[..Min(|fs|, MAX_TERMS)]);
    case Rich(n, es) =>
      hide Ordered, Packed;
      var order := OrderExists(Select(es).kept);
      var out := PackExists(order);
      q := Rich(n, out);
  }

  // ---------------------------------------------------------------------------------------
  // The condition
  // ---------------------------------------------------------------------------------------

  ghost function First(e: Entry, n: nat): multiset<Position> {
    multiset(e.positions[..Min(|e.positions|, n)])
  }

  /** With `room` positions left, two entries are stored alike, whichever comes first. */
  ghost predicate Alike(e: Entry, f: Entry, room: nat) {
    var n := Min(|e.positions|, room);
    && e.limits == f.limits && e.weight == f.weight
    && n == Min(|f.positions|, room)
    && First(e, n) == First(f, n)
    && First(e, room - n) == First(f, room - n)
  }

  /** Two neighbours, the first of them at `at`, can be exchanged: the end of the arena does not fall into the positions
      of the two, or they look alike. */
  ghost predicate Indifferent(e: Entry, f: Entry, at: nat) {
    e.positions != [] && f.positions != [] && at < MAX_POSITIONS < at + |e.positions| + |f.positions|
    ==> Alike(e, f, MAX_POSITIONS - at)
  }

  ghost predicate NeighboursIndifferent(kept: seq<Entry>) {
    forall order, i :: Ordered(kept, order) && 0 <= i < |order| - 1 && MinOf(order[i]) == MinOf(order[i + 1])
                       ==> Indifferent(order[i], order[i + 1], Total(order, i))
  }

  /** Fewer than four entries are not sorted; in a full set all neighbours of a tie can be exchanged. */
  ghost predicate Settled(source: Abstract) {
    source.Rich? ==>
      var kept := Select(source.entries).kept;
      |kept| < MAX_ENTRIES || NeighboursIndifferent(kept)
  }

  // ---------------------------------------------------------------------------------------
  // What is stored, as a bag
  // ---------------------------------------------------------------------------------------

  /** How many positions fit of an entry that begins at `at`. */
  function Keep(e: Entry, at: nat): (n: nat)
    ensures n <= |e.positions|
  {
    Min(MAX_POSITIONS, at + |e.positions|) - Min(MAX_POSITIONS, at)
  }

  ghost function Stored(e: Entry, at: nat): Core {
    Core(e.limits, e.weight, multiset(e.positions[..Keep(e, at)]))
  }

  /** What is stored of the entries of `order`, laid out from `at` on. */
  ghost function Bag(order: seq<Entry>, at: nat): multiset<Core> {
    if order == [] then multiset{}
    else multiset{Stored(order[0], at)} + Bag(order[1..], at + |order[0].positions|)
  }

  lemma SizeOfHead(s: seq<Entry>)
    requires s != []
    ensures Size(s) == |s[0].positions| + Size(s[1..])
  {
    assert s == [s[0]] + s[1..];
    TotalOfConcat([s[0]], s[1..]);
    SizeOfOne(s[0]);
  }

  lemma {:induction false} BagConcat(s: seq<Entry>, t: seq<Entry>, at: nat)
    ensures Bag(s + t, at) == Bag(s, at) + Bag(t, at + Size(s))
    decreases |s|
  {
    hide Bag, Stored, Size;
    if s == [] {
      assert s + t == t;
      SizeOfNone();
      BagOfNone(at);
    } else {
      assert (s + t)[1..] == s[1..] + t && (s + t)[0] == s[0];
      BagConcat(s[1..], t, at + |s[0].positions|);
      SizeOfHead(s);
      BagStep(s, at);
      BagStep(s + t, at);
    }
  }

  lemma BagStep(s: seq<Entry>, at: nat)
    requires s != []
    ensures Bag(s, at) == multiset{Stored(s[0], at)} + Bag(s[1..], at + |s[0].positions|)
  {
  }

  lemma BagOfNone(at: nat)
    ensures Bag([], at) == multiset{}
  {
  }

  lemma SizeOfNone()
    ensures Size([]) == 0
  {
  }

  lemma SizeOfOne(e: Entry)
    ensures Size([e]) == |e.positions|
  {
    assert Total([e], 1) == Total([e], 0) + |e.positions|;
  }

  lemma BagOfOne(e: Entry, at: nat)
    ensures Bag([e], at) == multiset{Stored(e, at)}
  {
    assert Bag([], at + |e.positions|) == multiset{};
  }

  /** The core of an entry of which `n` positions were kept. */
  lemma PackedCore(order: seq<Entry>, out: seq<Entry>, i: nat, n: nat)
    requires Packed(order, out) && i < |order| && n == Used(order, i + 1) - Used(order, i)
    ensures n <= |order[i].positions|
    ensures CoreOf(out[i]) == Core(order[i].limits, order[i].weight, multiset(order[i].positions[..n]))
    ensures |CoreOf(out[i]).positions| == n
  {
    assert PackedAt(order, out, i);
    SameSize(out[i].positions, order[i].positions[..n]);
  }

  lemma PackedStored(order: seq<Entry>, out: seq<Entry>, i: nat)
    requires Packed(order, out) && i < |order|
    ensures i < |out| && CoreOf(out[i]) == Stored(order[i], Total(order, i))
  {
    PackedCore(order, out, i, Keep(order[i], Total(order, i)));
  }

  /** A packed set holds the bag of its order. */
  lemma {:induction false} PackedBag(order: seq<Entry>, out: seq<Entry>, n: nat)
    requires Packed(order, out) && n <= |order| == |out|
    ensures multiset(Cores(out[..n])) == Bag(order[..n], 0)
  {
    hide Packed, Stored, Total, Bag, Cores;
    if n > 0 {
      var i := n - 1;
      PackedBag(order, out, i);
      assert order[..n] == order[..i] + [order[i]];
      BagConcat(order[..i], [order[i]], 0);
      BagOfOne(order[i], Size(order[..i]));
      TotalOfPrefix(order, order[..i], i);
      PackedStored(order, out, i);
      CoresStep(out, i);
    } else {
      BagOfNone(0);
      NoCores(out[..0]);
    }
  }

  lemma NoCores(out: seq<Entry>)
    requires out == []
    ensures multiset(Cores(out)) == multiset{}
  {
    assert Cores(out) == [];
  }

  lemma CoresStep(out: seq<Entry>, i: nat)
    requires i < |out|
    ensures Cores(out[..i + 1]) == Cores(out[..i]) + [CoreOf(out[i])]
  {
  }

  // ---------------------------------------------------------------------------------------
  // Exchanging neighbours
  // ---------------------------------------------------------------------------------------

  ghost function PairBag(e: Entry, f: Entry, at: nat): multiset<Core> {
    multiset{Stored(e, at), Stored(f, at + |e.positions|)}
  }

  lemma PairsEqual<T>(x: T, y: T, z: T, w: T)
    ensures multiset{x, y} == multiset{z, w} <==> (x == z && y == w) || (x == w && y == z)
  {
    var a, b := multiset{x, y}, multiset{z, w};
    if a == b {
      assert x in b && y in b;
      if x == z {
        assert a - multiset{x} == multiset{y} && b - multiset{z} == multiset{w};
        assert y in multiset{w};
      } else {
        assert a - multiset{x} == multiset{y} && b - multiset{w} == multiset{z};
        assert y in multiset{z};
      }
    }
  }

  /** The end of the arena falls into the two: an entry keeps fewer positions as the second than as the first. */
  lemma SecondKeepsLess(e: Entry, f: Entry, at: nat)
    requires e.positions != [] && f.positions != [] && at < MAX_POSITIONS < at + |e.positions| + |f.positions|
    ensures Stored(e, at) != Stored(e, at + |f.positions|)
  {
    assert |Stored(e, at).positions| == Keep(e, at);
    assert |Stored(e, at + |f.positions|).positions| == Keep(e, at + |f.positions|);
  }

  lemma FirstsAlike(e: Entry, f: Entry, at: nat)
    requires at < MAX_POSITIONS
    ensures Stored(e, at) == Stored(f, at) <==>
            var room := MAX_POSITIONS - at;
            var n := Min(|e.positions|, room);
            && e.limits == f.limits && e.weight == f.weight
            && n == Min(|f.positions|, room) && First(e, n) == First(f, n)
  {
    assert |Stored(e, at).positions| == Keep(e, at);
    assert |Stored(f, at).positions| == Keep(f, at);
  }

  lemma SecondsAlike(e: Entry, f: Entry, at: nat)
    requires at < MAX_POSITIONS < at + |e.positions| + |f.positions|
    requires e.limits == f.limits && e.weight == f.weight
    requires Min(|e.positions|, MAX_POSITIONS - at) == Min(|f.positions|, MAX_POSITIONS - at)
    ensures Stored(f, at + |e.positions|) == Stored(e, at + |f.positions|) <==>
            var room := MAX_POSITIONS - at;
            var n := Min(|e.positions|, room);
            First(e, room - n) == First(f, room - n)
  {
  }

  lemma FarPairs(e: Entry, f: Entry, at: nat)
    requires e.positions == [] || f.positions == [] || at >= MAX_POSITIONS
             || at + |e.positions| + |f.positions| <= MAX_POSITIONS
    ensures Stored(e, at) == Stored(e, at + |f.positions|) && Stored(f, at + |e.positions|) == Stored(f, at)
  {
  }

  /** Exchanging two entries leaves the bag as it is, exactly if they are indifferent. */
  lemma PairExactly(e: Entry, f: Entry, at: nat)
    ensures PairBag(e, f, at) == PairBag(f, e, at) <==> Indifferent(e, f, at)
  {
    hide Stored, First, Min;
    PairsEqual(Stored(e, at), Stored(f, at + |e.positions|), Stored(f, at), Stored(e, at + |f.positions|));
    if e.positions != [] && f.positions != [] && at < MAX_POSITIONS < at + |e.positions| + |f.positions| {
      SecondKeepsLess(e, f, at);
      FirstsAlike(e, f, at);
      if Stored(e, at) == Stored(f, at) {
        SecondsAlike(e, f, at);
      }
    } else {
      FarPairs(e, f, at);
    }
  }

  function Exchanged(order: seq<Entry>, i: nat): seq<Entry>
    requires i + 1 < |order|
  {
    order[..i] + [order[i + 1], order[i]] + order[i + 2..]
  }

  lemma BagAround(order: seq<Entry>, i: nat, e: Entry, f: Entry)
    requires i + 1 < |order|
    ensures Bag(order[..i] + [e, f] + order[i + 2..], 0) ==
            Bag(order[..i], 0) + PairBag(e, f, Total(order, i))
            + Bag(order[i + 2..], Total(order, i) + |e.positions| + |f.positions|)
  {
    hide Stored, Total, Bag;
    var p, t := order[..i], order[i + 2..];
    TotalOfPrefix(order, p, i);
    assert p + [e, f] + t == p + ([e, f] + t);
    BagConcat(p, [e, f] + t, 0);
    BagStep([e, f] + t, Size(p));
    assert ([e, f] + t)[1..] == [f] + t;
    BagStep([f] + t, Size(p) + |e.positions|);
    assert ([f] + t)[1..] == t;
  }

  /** Exchanging neighbours of a tie in a sorted set. */
  lemma ExchangeExactly(kept: seq<Entry>, order: seq<Entry>, i: nat)
    requires |kept| >= MAX_ENTRIES && Ordered(kept, order)
    requires i + 1 < |order| && MinOf(order[i]) == MinOf(order[i + 1])
    ensures Ordered(kept, Exchanged(order, i))
    ensures |order| == |kept|
    ensures Bag(Exchanged(order, i), 0) == Bag(order, 0) <==> Indifferent(order[i], order[i + 1], Total(order, i))
  {
    hide Indifferent, Total, Stored, Bag, PairBag;
    var e, f := order[i], order[i + 1];
    OrderedSize(kept, order);
    ExchangedOrdered(kept, order, i);
    assert order == order[..i] + [e, f] + order[i + 2..];
    BagAround(order, i, e, f);
    BagAround(order, i, f, e);
    PairExactly(e, f, Total(order, i));
    var at := Total(order, i);
    CancelAround(Bag(order[..i], 0), PairBag(e, f, at), PairBag(f, e, at),
                 Bag(order[i + 2..], at + |e.positions| + |f.positions|));
  }

  lemma CancelAround<T>(a: multiset<T>, x: multiset<T>, y: multiset<T>, c: multiset<T>)
    ensures a + x + c == a + y + c <==> x == y
  {
    assert a + x + c - a - c == x && a + y + c - a - c == y;
  }

  lemma ExchangedOrdered(kept: seq<Entry>, order: seq<Entry>, i: nat)
    requires |kept| >= MAX_ENTRIES && Ordered(kept, order)
    requires i + 1 < |order| && MinOf(order[i]) == MinOf(order[i + 1])
    ensures Ordered(kept, Exchanged(order, i))
  {
    hide Ascending;
    var p, e, f, t := order[..i], order[i], order[i + 1], order[i + 2..];
    assert order == p + [e, f] + t;
    assert Mins(Exchanged(order, i)) == Mins(order);
  }

  // ---------------------------------------------------------------------------------------
  // From one sorted order to any other
  // ---------------------------------------------------------------------------------------

  function MovedFirst(o: seq<Entry>, k: nat): seq<Entry>
    requires k < |o|
  {
    [o[k]] + o[..k] + o[k + 1..]
  }

  /** An entry of the leading tie moves to the front, neighbour by neighbour. */
  lemma {:induction false} MoveFirst(kept: seq<Entry>, p: seq<Entry>, o: seq<Entry>, k: nat)
    requires |kept| >= MAX_ENTRIES && NeighboursIndifferent(kept) && Ordered(kept, p + o) && k < |o|
    requires forall j :: 0 <= j <= k ==> MinOf(o[j]) == MinOf(o[k])
    ensures Ordered(kept, p + MovedFirst(o, k)) && Bag(p + MovedFirst(o, k), 0) == Bag(p + o, 0)
    decreases k
  {
    hide Ordered, Indifferent, Bag, Exchanged, MovedFirst, Total;
    if k == 0 {
      MoveOver(p, o, 0);
    } else {
      var order, i := p + o, |p| + k - 1;
      assert order[i] == o[k - 1] && order[i + 1] == o[k];
      assert Indifferent(order[i], order[i + 1], Total(order, i)) by {
        assert MinOf(o[k - 1]) == MinOf(o[k]);
      }
      ExchangeExactly(kept, order, i);
      MoveOver(p, o, k);
      MoveFirst(kept, p, Exchanged(o, k - 1), k - 1);
    }
  }

  lemma MoveOver(p: seq<Entry>, o: seq<Entry>, k: nat)
    requires k < |o|
    ensures k == 0 ==> MovedFirst(o, 0) == o
    ensures k > 0 ==>
              var o' := Exchanged(o, k - 1);
              && |o'| == |o| && o'[k - 1] == o[k] && (forall j :: 0 <= j < k - 1 ==> o'[j] == o[j])
              && Exchanged(p + o, |p| + k - 1) == p + o'
              && MovedFirst(o', k - 1) == MovedFirst(o, k)
  {
  }

  /** Two sorted orders that begin alike store the same. */
  lemma {:induction false} OrdersStoreSame(kept: seq<Entry>, p: seq<Entry>, oa: seq<Entry>, ob: seq<Entry>)
    requires |kept| >= MAX_ENTRIES && NeighboursIndifferent(kept)
    requires Ordered(kept, p + oa) && Ordered(kept, p + ob)
    ensures Bag(p + oa, 0) == Bag(p + ob, 0)
    decreases |ob|
  {
    hide Bag, NeighboursIndifferent;
    OrderedSize(kept, p + oa);
    OrderedSize(kept, p + ob);
    CancelPrefix(p, oa, ob);
    SameSize(oa, ob);
    if ob == [] {
      assert oa == ob;
    } else {
      var k := LeadingTie(p, oa, ob);
      MoveFirst(kept, p, oa, k);
      var rest := oa[..k] + oa[k + 1..];
      assert p + MovedFirst(oa, k) == p + [ob[0]] + rest;
      assert p + ob == p + [ob[0]] + ob[1..];
      OrdersStoreSame(kept, p + [ob[0]], rest, ob[1..]);
    }
  }

  lemma CancelPrefix(p: seq<Entry>, s: seq<Entry>, t: seq<Entry>)
    requires multiset(p + s) == multiset(p + t)
    ensures multiset(s) == multiset(t)
  {
    assert multiset(s) == multiset(p + s) - multiset(p) && multiset(t) == multiset(p + t) - multiset(p);
  }

  /** The head of one sorted order belongs to the leading tie of the other. */
  lemma LeadingTie(p: seq<Entry>, oa: seq<Entry>, ob: seq<Entry>) returns (k: nat)
    requires Ascending(Mins(p + oa)) && Ascending(Mins(p + ob)) && multiset(oa) == multiset(ob) && ob != []
    ensures k < |oa| && oa[k] == ob[0] && forall j :: 0 <= j <= k ==> MinOf(oa[j]) == MinOf(oa[k])
  {
    assert ob[0] in multiset(oa);
    k :| 0 <= k < |oa| && oa[k] == ob[0];
    forall j | 0 <= j <= k ensures MinOf(oa[j]) == MinOf(oa[k]) {
      assert Mins(p + oa)[|p| + j] == MinOf(oa[j]) && Mins(p + oa)[|p| + k] == MinOf(oa[k]);
      assert oa[j] in multiset(ob);
      var m :| 0 <= m < |ob| && ob[m] == oa[j];
      assert Mins(p + ob)[|p| + m] == MinOf(ob[m]) && Mins(p + ob)[|p|] == MinOf(ob[0]);
    }
  }

  // ---------------------------------------------------------------------------------------
  // The copies
  // ---------------------------------------------------------------------------------------

  lemma EqualPacksAgree(order: seq<Entry>, a: seq<Entry>, b: seq<Entry>)
    requires Packed(order, a) && Packed(order, b)
    ensures Cores(a) == Cores(b)
  {
    forall i | 0 <= i < |order| ensures CoreOf(a[i]) == CoreOf(b[i]) {
      assert PackedAt(order, a, i) && PackedAt(order, b, i);
    }
  }

  lemma OrdersHaveSameMins(kept: seq<Entry>, oa: seq<Entry>, ob: seq<Entry>)
    requires |kept| <= MAX_ENTRIES && Ordered(kept, oa) && Ordered(kept, ob)
    ensures Mins(oa) == Mins(ob)
  {
    OrderedSize(kept, oa);
    OrderedSize(kept, ob);
    MapPermutes(MinOf, oa, ob);
    if |kept| == MAX_ENTRIES {
      AscendingIsUnique(Mins(oa), Mins(ob));
    }
  }

  lemma SettledPacksAgree(kept: seq<Entry>, oa: seq<Entry>, a: seq<Entry>, ob: seq<Entry>, b: seq<Entry>)
    requires |kept| == MAX_ENTRIES && NeighboursIndifferent(kept)
    requires Ordered(kept, oa) && Packed(oa, a) && Ordered(kept, ob) && Packed(ob, b)
    ensures multiset(Cores(a)) == multiset(Cores(b))
  {
    hide NeighboursIndifferent, Bag, Packed, Ordered, Cores;
    WholeBag(oa, a);
    WholeBag(ob, b);
    assert [] + oa == oa && [] + ob == ob;
    OrdersStoreSame(kept, [], oa, ob);
  }

  lemma SettledCutsAgree(source: Abstract, a: Abstract, b: Abstract)
    requires IsCut(source, a) && IsCut(source, b) && Settled(source)
    ensures Same(a, b)
  {
    hide NeighboursIndifferent, Packed, Mins, Select;
    if source.Rich? {
      var kept := Select(source.entries).kept;
      var oa :| Ordered(kept, oa) && Packed(oa, a.entries);
      var ob :| Ordered(kept, ob) && Packed(ob, b.entries);
      OrdersHaveSameMins(kept, oa, ob);
      PackedMins(oa, a.entries);
      PackedMins(ob, b.entries);
      if |kept| < MAX_ENTRIES {
        EqualPacksAgree(kept, a.entries, b.entries);
      } else {
        hide Ordered;
        SettledPacksAgree(kept, oa, a.entries, ob, b.entries);
      }
    }
  }

  lemma WholeBag(order: seq<Entry>, out: seq<Entry>)
    requires Packed(order, out)
    ensures multiset(Cores(out)) == Bag(order, 0)
  {
    hide Bag;
    PackedBag(order, out, |order|);
    assert order[..|order|] == order && out[..|out|] == out;
  }

  lemma UnsettledCuts(source: Abstract) returns (a: Abstract, b: Abstract)
    requires !Settled(source)
    ensures IsCut(source, a) && IsCut(source, b) && !Same(a, b)
  {
    hide Indifferent, Bag, Packed, Ordered, Select;
    var kept := Select(source.entries).kept;
    var order, i :| Ordered(kept, order) && 0 <= i < |order| - 1 && MinOf(order[i]) == MinOf(order[i + 1])
                    && !Indifferent(order[i], order[i + 1], Total(order, i));
    ExchangeExactly(kept, order, i);
    var ea := PackExists(order);
    var eb := PackExists(Exchanged(order, i));
    WholeBag(order, ea);
    WholeBag(Exchanged(order, i), eb);
    a, b := Rich(source.nWords, ea), Rich(source.nWords, eb);
  }

  /** All cuts of a source agree if and only if it is settled. */
  lemma CutsAgreeExactly(source: Abstract)
    ensures (forall a, b :: IsCut(source, a) && IsCut(source, b) ==> Same(a, b)) <==> Settled(source)
  {
    hide IsCut, Same, Settled;
    if Settled(source) {
      forall a, b | IsCut(source, a) && IsCut(source, b) ensures Same(a, b) {
        SettledCutsAgree(source, a, b);
      }
    } else {
      var a, b := UnsettledCuts(source);
    }
  }

  /** All copies of a settled source, however often they were copied, are the same quote up to ties. */
  lemma SettledCopiesAgree(source: Abstract, a: Abstract, b: Abstract)
    requires Faithful(source, a) && Faithful(source, b) && Settled(source)
    ensures Same(a, b)
  {
    hide IsCut, Settled;
    var ca :| IsCut(source, ca) && Same(ca, a);
    var cb :| IsCut(source, cb) && Same(cb, b);
    SettledCutsAgree(source, ca, cb);
    SameIsSymmetric(ca, a);
    SameIsTransitive(a, ca, cb);
    SameIsTransitive(a, cb, b);
  }

  // ---------------------------------------------------------------------------------------
  // One sort
  // ---------------------------------------------------------------------------------------

  /** The order that the entries are put in, as a function of the kept entries. */
  type Sorter = seq<Entry> -> seq<Entry>

  ghost predicate Sorts(sorter: Sorter) {
    forall kept :: Ordered(kept, sorter(kept))
  }

  /** A cut in which `sorter` ordered the entries. */
  ghost predicate CutBy(sorter: Sorter, source: Abstract, out: Abstract) {
    match source
    case Rich(n, es) => out.Rich? && out.nWords == n && Packed(sorter(Select(es).kept), out.entries)
    case _ => IsCut(source, out)
  }

  /** `q` is a copy of such a cut, made once or several times over, with whatever order of ties. */
  ghost predicate CopyBy(sorter: Sorter, source: Abstract, q: Abstract) {
    Compact(q) && exists cut :: CutBy(sorter, source, cut) && Same(cut, q)
  }

  lemma CutByIsCut(sorter: Sorter, source: Abstract, out: Abstract)
    requires Sorts(sorter) && CutBy(sorter, source, out)
    ensures IsCut(source, out)
  {
    if source.Rich? {
      var kept := Select(source.entries).kept;
      assert Ordered(kept, sorter(kept));
    }
  }

  lemma FirstCopyBy(sorter: Sorter, source: Abstract, out: Abstract)
    requires Sorts(sorter) && CutBy(sorter, source, out)
    ensures CopyBy(sorter, source, out)
  {
    hide CutBy, IsCut;
    CutByIsCut(sorter, source, out);
    CutIsCompact(source, out);
    assert Same(out, out);
  }

  lemma LaterCopyBy(sorter: Sorter, source: Abstract, q: Abstract, r: Abstract)
    requires CopyBy(sorter, source, q) && IsCut(q, r)
    ensures CopyBy(sorter, source, r)
  {
    hide CutBy, IsCut, Same;
    CutIsCompact(q, r);
    CutOfCompact(q, r);
    var cut :| CutBy(sorter, source, cut) && Same(cut, q);
    SameIsTransitive(cut, q, r);
  }

  lemma CutsByAgree(sorter: Sorter, source: Abstract, a: Abstract, b: Abstract)
    requires CutBy(sorter, source, a) && CutBy(sorter, source, b)
    ensures Same(a, b)
  {
    if source.Rich? {
      var order := sorter(Select(source.entries).kept);
      EqualPacksAgree(order, a.entries, b.entries);
      PackedMins(order, a.entries);
      PackedMins(order, b.entries);
    }
  }

  /** If the entries are ordered by one and the same sort, all copies of a source are the same up to ties, settled or
      not. */
  lemma CopiesByAgree(sorter: Sorter, source: Abstract, a: Abstract, b: Abstract)
    requires CopyBy(sorter, source, a) && CopyBy(sorter, source, b)
    ensures Same(a, b)
  {
    hide CutBy, Same;
    var ca :| CutBy(sorter, source, ca) && Same(ca, a);
    var cb :| CutBy(sorter, source, cb) && Same(cb, b);
    CutsByAgree(sorter, source, ca, cb);
    SameIsSymmetric(ca, a);
    SameIsTransitive(a, ca, cb);
    SameIsTransitive(a, cb, b);
  }
}
