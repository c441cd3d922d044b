/** Abstracts (quote sources) of found documents, and what it means to cut one down for storage:
    the specification of `CopyAbstract` in src/service/collect-quotes.cpp. */
module Quotes {
  import opened Basics
  import opened Sorting

  const MAX_TERMS := 0x20
  const MAX_ENTRIES := 4
  const MAX_POSITIONS := 0x80

  datatype Position = Position(word: nat, offset: nat)
  datatype Term = Term(idf: real, occurs: nat)
  datatype Limits = Limits(uMin: nat, uMax: nat)
  datatype Entry = Entry(limits: Limits, weight: real, positions: seq<Position>)

  datatype Abstract =
    | Blank(nWords: nat)
    | BM25(nWords: nat, factors: seq<Term>)
    | Rich(nWords: nat, entries: seq<Entry>)

  // ---------------------------------------------------------------------------------------
  // Selection: four slots and the index of a lightest one
  // ---------------------------------------------------------------------------------------

  datatype Slots = Slots(kept: seq<Entry>, worst: nat)

  /** The scan that runs after a slot was overwritten: from slot `i` on, move to every lighter slot. */
  function Rescan(kept: seq<Entry>, worst: nat, i: nat): (w: nat)
    requires worst < |kept| && i <= |kept|
    ensures w < |kept|
    ensures kept[w].weight <= kept[worst].weight
    ensures forall j :: i <= j < |kept| ==> kept[w].weight <= kept[j].weight
    decreases |kept| - i
  {
    if i == |kept| then worst
    else Rescan(kept, if kept[i].weight < kept[worst].weight then i else worst, i + 1)
  }

  /** One more source entry is seen. */
  function Offer(s: Slots, e: Entry): Slots
    requires s.kept == [] || s.worst < |s.kept|
  {
    if |s.kept| < MAX_ENTRIES then
      Slots(s.kept + [e], if |s.kept| == 0 || s.kept[s.worst].weight <= e.weight then s.worst else |s.kept|)
    else if e.weight > s.kept[s.worst].weight then
      var kept := s.kept[s.worst := e];
      Slots(kept, Rescan(kept, s.worst, 0))
    else s
  }

  /** `worst` is a lightest slot. */
  ghost predicate WorstIsLightest(s: Slots) {
    && (s.kept == [] || s.worst < |s.kept|)
    && (forall i :: 0 <= i < |s.kept| ==> s.kept[s.worst].weight <= s.kept[i].weight)
    && (s.kept == [] ==> s.worst == 0)
  }

  function Select(entries: seq<Entry>): (s: Slots)
    ensures WorstIsLightest(s)
    ensures |s.kept| == Min(|entries|, MAX_ENTRIES)
  {
    if entries == [] then Slots([], 0)
    else
      var s := Select(entries[..|entries| - 1]);
      var e := entries[|entries| - 1];
      OfferKeepsLightest(s, e);
      Offer(s, e)
  }

  lemma OfferKeepsLightest(s: Slots, e: Entry)
    requires WorstIsLightest(s)
    ensures WorstIsLightest(Offer(s, e))
  {
  }

  lemma SelectStep(entries: seq<Entry>, init: seq<Entry>, e: Entry)
    requires entries == init + [e]
    ensures Select(entries) == Offer(Select(init), e)
    ensures multiset(entries) == multiset(init) + multiset{e}
  {
  }

  /** Of several lightest slots the first one. */
  ghost predicate FirstLightest(kept: seq<Entry>, w: nat) {
    && w < |kept|
    && (forall j :: 0 <= j < |kept| ==> kept[w].weight <= kept[j].weight)
    && (forall j :: 0 <= j < w ==> kept[j].weight > kept[w].weight)
  }

  /** Where the scan ends up: it stays if no slot is lighter, and otherwise ends on the first of the lightest. */
  ghost predicate ScanEnds(kept: seq<Entry>, worst: nat, w: nat)
    requires worst < |kept|
  {
    if forall j :: 0 <= j < |kept| ==> kept[worst].weight <= kept[j].weight then w == worst else FirstLightest(kept, w)
  }

  lemma {:induction false} RescanFrom(kept: seq<Entry>, worst: nat, i: nat)
    requires worst < |kept| && i <= |kept|
    ensures var w := Rescan(kept, worst, i);
            if forall j :: i <= j < |kept| ==> kept[worst].weight <= kept[j].weight then w == worst
            else i <= w && forall j :: i <= j < w ==> kept[j].weight > kept[w].weight
    decreases |kept| - i
  {
    if i < |kept| {
      RescanFrom(kept, if kept[i].weight < kept[worst].weight then i else worst, i + 1);
    }
  }

  /** The scan compares strictly: of equally light slots it takes the first, and it does not leave a lightest one. */
  lemma RescanExactly(kept: seq<Entry>, worst: nat)
    requires worst < |kept|
    ensures ScanEnds(kept, worst, Rescan(kept, worst, 0))
  {
    RescanFrom(kept, worst, 0);
  }

  /** `r` are the slots after one more entry, if `s` were those before. */
  ghost predicate Takes(s: Slots, e: Entry, r: Slots) {
    if |s.kept| < 4 then
      && r.kept == s.kept + [e]
      && FirstLightest(r.kept, r.worst)
    else if s.worst < |s.kept| && e.weight > s.kept[s.worst].weight then
      && r.kept == s.kept[s.worst := e]
      && ScanEnds(r.kept, s.worst, r.worst)
    else r == s
  }

  lemma OfferTakes(s: Slots, e: Entry)
    requires WorstIsLightest(s) && |s.kept| <= MAX_ENTRIES
    requires 0 < |s.kept| < MAX_ENTRIES ==> FirstLightest(s.kept, s.worst)
    ensures Takes(s, e, Offer(s, e))
  {
    if |s.kept| == MAX_ENTRIES && e.weight > s.kept[s.worst].weight {
      hide Rescan;
      RescanExactly(s.kept[s.worst := e], s.worst);
    }
  }

  lemma {:induction false} FillingKnowsFirst(entries: seq<Entry>)
    requires 0 < |entries| <= MAX_ENTRIES
    ensures FirstLightest(Select(entries).kept, Select(entries).worst)
  {
    hide Rescan, Offer;
    var init, e := entries[..|entries| - 1], entries[|entries| - 1];
    if init != [] {
      FillingKnowsFirst(init);
    }
    SelectStep(entries, init, e);
    OfferTakes(Select(init), e);
  }

  /** The selection entry by entry, ties included: a full set gives up its worst entry only for a heavier one, and the
      worst slot is the first of the lightest, or the one just written if none is lighter. */
  lemma SelectTakes(entries: seq<Entry>, e: Entry)
    ensures Takes(Select(entries), e, Select(entries + [e]))
  {
    hide Rescan, Offer;
    SelectStep(entries + [e], entries, e);
    if 0 < |entries| < MAX_ENTRIES {
      FillingKnowsFirst(entries);
    }
    OfferTakes(Select(entries), e);
  }

  /** Of entries that all weigh the same the first four are kept. */
  lemma {:induction false} EqualsKeepFirst(entries: seq<Entry>)
    requires forall i, j :: 0 <= i < j < |entries| ==> entries[i].weight == entries[j].weight
    ensures Select(entries).kept == entries[..Min(|entries|, 4)]
  {
    if |entries| <= 4 {
      ShortIsKept(entries);
    } else {
      hide Select;
      var init, e := entries[..|entries| - 1], entries[|entries| - 1];
      assert entries == init + [e];
      EqualsKeepFirst(init);
      SelectTakes(init, e);
      WorstIsASlot(Select(init));
    }
  }

  /** Up to four entries are all kept, in source order. */
  lemma {:induction false} ShortIsKept(entries: seq<Entry>)
    requires |entries| <= MAX_ENTRIES
    ensures Select(entries).kept == entries
  {
    hide Rescan, Offer;
    if entries != [] {
      var init, e := entries[..|entries| - 1], entries[|entries| - 1];
      ShortIsKept(init);
      SelectStep(entries, init, e);
      OfferShort(Select(init), e);
      assert entries == init + [e];
    }
  }

  lemma OfferShort(s: Slots, e: Entry)
    requires WorstIsLightest(s) && |s.kept| < MAX_ENTRIES
    ensures Offer(s, e).kept == s.kept + [e]
  {
  }

  /** What was not kept. */
  ghost function Dropped(entries: seq<Entry>): multiset<Entry> {
    multiset(entries) - multiset(Select(entries).kept)
  }

  ghost predicate NoneHeavier(dropped: multiset<Entry>, weight: real) {
    forall d :: d in dropped ==> d.weight <= weight
  }

  /** `all` was seen, and the slots hold a heaviest part of it. */
  ghost predicate HoldsHeaviest(all: multiset<Entry>, s: Slots) {
    && WorstIsLightest(s)
    && multiset(s.kept) <= all
    && (s.kept != [] ==> NoneHeavier(all - multiset(s.kept), s.kept[s.worst].weight))
  }

  lemma ReplacedMultiset(s: seq<Entry>, i: nat, e: Entry)
    requires i < |s|
    ensures s[i] in multiset(s) && multiset(s[i := e]) == multiset(s) - multiset{s[i]} + multiset{e}
  {
    assert s == s[..i] + [s[i]] + s[i + 1..];
    assert s[i := e] == s[..i] + [e] + s[i + 1..];
  }

  /** `e` takes the place of `out`: what is dropped now is what was dropped before, and `out`. */
  lemma DroppedNow(all: multiset<Entry>, kept: multiset<Entry>, out: Entry, e: Entry, low: real, high: real)
    requires kept <= all && out in kept && out.weight == low <= high && NoneHeavier(all - kept, low)
    ensures kept - multiset{out} + multiset{e} <= all + multiset{e}
    ensures NoneHeavier(all + multiset{e} - (kept - multiset{out} + multiset{e}), high)
  {
    forall d | d in all + multiset{e} - (kept - multiset{out} + multiset{e}) ensures d.weight <= high {
      assert d in all - kept || d == out;
    }
  }

  lemma DroppedToo(all: multiset<Entry>, kept: multiset<Entry>, e: Entry, low: real)
    requires kept <= all && NoneHeavier(all - kept, low) && e.weight <= low
    ensures kept <= all + multiset{e} && NoneHeavier(all + multiset{e} - kept, low)
  {
    forall d | d in all + multiset{e} - kept ensures d.weight <= low {
      assert d in all - kept || d == e;
    }
  }

  lemma OfferHoldsHeaviest(all: multiset<Entry>, s: Slots, e: Entry)
    requires HoldsHeaviest(all, s) && |s.kept| == MAX_ENTRIES
    ensures HoldsHeaviest(all + multiset{e}, Offer(s, e))
  {
    hide NoneHeavier, WorstIsLightest;
    WorstIsASlot(s);
    OfferKeepsLightest(s, e);
    var out := s.kept[s.worst];
    if e.weight > out.weight {
      var r := Offer(s, e);
      ReplacedMultiset(s.kept, s.worst, e);
      DroppedNow(all, multiset(s.kept), out, e, out.weight, r.kept[r.worst].weight) by {
        ReplacedIsHeavier(s, e);
      }
    } else {
      DroppedToo(all, multiset(s.kept), e, out.weight);
    }
  }

  lemma WorstIsASlot(s: Slots)
    requires WorstIsLightest(s)
    ensures s.kept != [] ==> s.worst < |s.kept|
  {
  }

  lemma ReplacedIsHeavier(s: Slots, e: Entry)
    requires WorstIsLightest(s) && |s.kept| == MAX_ENTRIES && e.weight > s.kept[s.worst].weight
    ensures var r := Offer(s, e); r.worst < |r.kept| && s.kept[s.worst].weight <= r.kept[r.worst].weight
  {
  }

  lemma ShortHolds(entries: seq<Entry>)
    requires |entries| <= MAX_ENTRIES
    ensures HoldsHeaviest(multiset(entries), Select(entries))
  {
    ShortIsKept(entries);
    assert Dropped(entries) == multiset{};
  }

  /** The kept entries come from the source, and no dropped entry outweighs the lightest kept one. */
  lemma {:induction false} KeepsHeaviest(entries: seq<Entry>)
    ensures HoldsHeaviest(multiset(entries), Select(entries))
  {
    hide HoldsHeaviest, Offer;
    if |entries| <= MAX_ENTRIES {
      ShortHolds(entries);
    } else {
      var init, e := entries[..|entries| - 1], entries[|entries| - 1];
      KeepsHeaviest(init);
      SelectStep(entries, init, e);
      OfferHoldsHeaviest(multiset(init), Select(init), e);
    }
  }

  /** No dropped entry outweighs any kept one. */
  lemma DroppedAreLighter(entries: seq<Entry>, d: Entry, k: Entry)
    requires d in Dropped(entries) && k in Select(entries).kept
    ensures d.weight <= k.weight
  {
    KeepsHeaviest(entries);
  }

  function MinOf(e: Entry): nat { e.limits.uMin }
  function OffsetOf(p: Position): nat { p.offset }

  function Mins(es: seq<Entry>): seq<nat> { Map(MinOf, es) }
  function Offsets(ps: seq<Position>): seq<nat> { Map(OffsetOf, ps) }

  /** An entry without the order of its positions. */
  datatype Core = Core(limits: Limits, weight: real, positions: multiset<Position>)

  ghost function CoreOf(e: Entry): Core {
    Core(e.limits, e.weight, multiset(e.positions))
  }

  ghost function Cores(es: seq<Entry>): seq<Core> {
    Map(CoreOf, es)
  }

  // ---------------------------------------------------------------------------------------
  // The cut
  // ---------------------------------------------------------------------------------------

  /** Number of positions in the first `i` entries. */
  function Total(es: seq<Entry>, i: nat): nat
    requires i <= |es|
  {
    if i == 0 then 0 else Total(es, i - 1) + |es[i - 1].positions|
  }

  /** Where the `i`-th entry starts in the arena. */
  function Used(es: seq<Entry>, i: nat): nat
    requires i <= |es|
  {
    Min(Total(es, i), MAX_POSITIONS)
  }

  /** `order` is the order in which the kept entries are stored: a full set is sorted, a short one is not. */
  ghost predicate Ordered(kept: seq<Entry>, order: seq<Entry>) {
    if |kept| < MAX_ENTRIES then order == kept
    else multiset(order) == multiset(kept) && Ascending(Mins(order))
  }

  /** Each entry keeps the positions that still fit in the arena, sorted by offset. */
  ghost predicate PackedAt(order: seq<Entry>, out: seq<Entry>, i: nat)
    requires i < |order| && i < |out|
  {
    var n := Used(order, i + 1) - Used(order, i);
    && 0 <= n <= |order[i].positions|
    && out[i].limits == order[i].limits
    && out[i].weight == order[i].weight
    && multiset(out[i].positions) == multiset(order[i].positions[..n])
    && Ascending(Offsets(out[i].positions))
  }

  ghost predicate Packed(order: seq<Entry>, out: seq<Entry>) {
    |out| == |order| && forall i :: 0 <= i < |order| ==> PackedAt(order, out, i)
  }

  ghost predicate IsRichCut(source: seq<Entry>, out: seq<Entry>) {
    exists order :: Ordered(Select(source).kept, order) && Packed(order, out)
  }

  /** `out` is a possible result of copying `source` into a slot of the store. */
  ghost predicate IsCut(source: Abstract, out: Abstract) {
    match source
    case Blank(n) => out == Blank(n)
    case BM25(n, fs) => out == BM25(n, fs[..Min(|fs|, MAX_TERMS)])
    case Rich(n, es) => out.Rich? && out.nWords == n && IsRichCut(es, out.entries)
  }

  // ---------------------------------------------------------------------------------------
  // Properties of the cut
  // ---------------------------------------------------------------------------------------

  /** The shape every stored abstract has. */
  ghost predicate Compact(a: Abstract) {
    match a
    case Blank(_) => true
    case BM25(_, fs) => |fs| <= MAX_TERMS
    case Rich(_, es) =>
      && |es| <= MAX_ENTRIES
      && Total(es, |es|) <= MAX_POSITIONS
      && (|es| == MAX_ENTRIES ==> Ascending(Mins(es)))
      && forall i :: 0 <= i < |es| ==> Ascending(Offsets(es[i].positions))
  }

  /** Equal up to the order of entries with the same `uMin` and of positions with the same `offset`. */
  ghost predicate Same(a: Abstract, b: Abstract) {
    match a
    case Rich(n, es) =>
      b.Rich? && b.nWords == n && multiset(Cores(es)) == multiset(Cores(b.entries)) && Mins(es) == Mins(b.entries)
    case _ => a == b
  }

  lemma {:induction false} TotalGrows(es: seq<Entry>, i: nat, j: nat)
    requires i <= j <= |es|
    ensures Total(es, i) <= Total(es, j)
    decreases j
  {
    if i < j {
      TotalGrows(es, i, j - 1);
    }
  }

  lemma {:induction false} PackedTotal(order: seq<Entry>, out: seq<Entry>, i: nat)
    requires Packed(order, out) && i <= |out|
    ensures Total(out, i) == Used(order, i)
  {
    if i > 0 {
      PackedTotal(order, out, i - 1);
      assert PackedAt(order, out, i - 1);
      SameSize(out[i - 1].positions, order[i - 1].positions[..Used(order, i) - Used(order, i - 1)]);
    }
  }

  lemma PackedMins(order: seq<Entry>, out: seq<Entry>)
    requires Packed(order, out)
    ensures Mins(out) == Mins(order)
  {
    forall i | 0 <= i < |out| ensures Mins(out)[i] == Mins(order)[i] {
      assert PackedAt(order, out, i);
    }
  }

  lemma OrderedSize(kept: seq<Entry>, order: seq<Entry>)
    requires Ordered(kept, order)
    ensures |order| == |kept| && multiset(order) == multiset(kept)
    ensures |kept| >= MAX_ENTRIES ==> Ascending(Mins(order))
  {
    if |kept| >= MAX_ENTRIES {
      SameSize(kept, order);
    }
  }

  /** Whatever is stored fits its slot: at most 4 entries, 128 positions or 32 terms, in order. */
  lemma CutIsCompact(source: Abstract, out: Abstract)
    requires IsCut(source, out)
    ensures Compact(out)
  {
    if source.Rich? {
      var order :| Ordered(Select(source.entries).kept, order) && Packed(order, out.entries);
      OrderedSize(Select(source.entries).kept, order);
      PackedTotal(order, out.entries, |order|);
      PackedMins(order, out.entries);
      forall i | 0 <= i < |out.entries| ensures Ascending(Offsets(out.entries[i].positions)) {
        assert PackedAt(order, out.entries, i);
      }
    }
  }

  /** What a stored entry shows of an entry `e` of the source: its limits, its weight and its first positions, sorted by
      offset; all of them, unless the arena is full. */
  ghost predicate Shows(out: seq<Entry>, i: nat, e: Entry)
    requires i < |out|
  {
    var n := |out[i].positions|;
    && out[i].limits == e.limits && out[i].weight == e.weight
    && n <= |e.positions| && multiset(out[i].positions) == multiset(e.positions[..n])
    && (forall j, k :: 0 <= j < k < n ==> out[i].positions[j].offset <= out[i].positions[k].offset)
    && (n < |e.positions| ==> Total(out, i + 1) == 128)
  }

  ghost predicate ShowsOneOf(out: seq<Entry>, i: nat, es: seq<Entry>)
    requires i < |out|
  {
    exists e :: e in es && Shows(out, i, e)
  }

  lemma PackedShows(order: seq<Entry>, out: seq<Entry>, i: nat)
    requires Packed(order, out) && i < |out|
    ensures |out| == |order| && Shows(out, i, order[i])
  {
    assert PackedAt(order, out, i);
    var n := Used(order, i + 1) - Used(order, i);
    SameSize(out[i].positions, order[i].positions[..n]);
    PackedTotal(order, out, i + 1);
    assert forall j :: 0 <= j < |out[i].positions| ==> Offsets(out[i].positions)[j] == out[i].positions[j].offset;
  }

  /** What a copy shows of its source: as many words; of BM25 terms the first 32; of a Rich source with fewer than four
      entries all of them in their order, and otherwise four of them. */
  lemma CutShows(source: Abstract, out: Abstract)
    requires IsCut(source, out)
    ensures out.nWords == source.nWords
    ensures (out.Blank? <==> source.Blank?) && (out.BM25? <==> source.BM25?) && (out.Rich? <==> source.Rich?)
    ensures source.BM25? ==> |out.factors| == Min(|source.factors|, 32)
                             && forall i :: 0 <= i < |out.factors| ==> out.factors[i] == source.factors[i]
    ensures source.Rich? ==> |out.entries| == Min(|source.entries|, 4)
    ensures source.Rich? ==> forall i :: 0 <= i < |out.entries| ==> ShowsOneOf(out.entries, i, source.entries)
    ensures source.Rich? && |source.entries| < 4 ==>
              forall i :: 0 <= i < |out.entries| ==> Shows(out.entries, i, source.entries[i])
  {
    hide Shows, Select;
    if source.Rich? {
      var kept := Select(source.entries).kept;
      var order: seq<Entry> :| Ordered(kept, order) && Packed(order, out.entries);
      OrderedSize(kept, order);
      if |source.entries| < 4 {
        ShortIsKept(source.entries);
      }
      forall i | 0 <= i < |out.entries|
        ensures i < |order| && Shows(out.entries, i, order[i]) && ShowsOneOf(out.entries, i, source.entries)
      {
        PackedShows(order, out.entries, i);
        assert order[i] in multiset(kept);
        KeptAreFromSource(source.entries, order[i]);
      }
    }
  }

  function LimitsOf(e: Entry): Limits { e.limits }

  ghost predicate EquallyHeavy(es: seq<Entry>) {
    forall i, j :: 0 <= i < j < |es| ==> es[i].weight == es[j].weight
  }

  /** Of entries that all weigh the same the first four are stored. */
  lemma EqualsStoreFirst(es: seq<Entry>, out: seq<Entry>)
    requires IsRichCut(es, out) && EquallyHeavy(es)
    ensures multiset(Map(LimitsOf, out)) == multiset(Map(LimitsOf, es[..Min(|es|, 4)]))
  {
    hide Select;
    var kept := Select(es).kept;
    var order: seq<Entry> :| Ordered(kept, order) && Packed(order, out);
    OrderedSize(kept, order);
    EqualsKeepFirst(es);
    MapPermutes(LimitsOf, order, kept);
    forall i | 0 <= i < |order| ensures LimitsOf(out[i]) == LimitsOf(order[i]) {
      assert PackedAt(order, out, i);
    }
    assert Map(LimitsOf, out) == Map(LimitsOf, order);
  }

  /** The number of stored positions: all of them, or as many as the arena holds. */
  lemma CutLength(source: Abstract, out: Abstract)
    requires IsCut(source, out) && source.Rich?
    ensures var kept := Select(source.entries).kept;
            Total(out.entries, |out.entries|) == Min(MAX_POSITIONS, Total(kept, |kept|))
  {
    var kept := Select(source.entries).kept;
    var order :| Ordered(kept, order) && Packed(order, out.entries);
    OrderedSize(kept, order);
    PackedTotal(order, out.entries, |order|);
    TotalOfPermutation(kept, order);
  }

  function Size(es: seq<Entry>): nat {
    Total(es, |es|)
  }

  lemma {:induction false} TotalOfPrefix(es: seq<Entry>, fs: seq<Entry>, i: nat)
    requires i <= |es| && i <= |fs| && es[..i] == fs[..i]
    ensures Total(es, i) == Total(fs, i)
  {
    if i > 0 {
      assert es[..i - 1] == es[..i][..i - 1] && fs[..i - 1] == fs[..i][..i - 1];
      assert es[i - 1] == es[..i][i - 1] && fs[i - 1] == fs[..i][i - 1];
      TotalOfPrefix(es, fs, i - 1);
    }
  }

  lemma {:induction false} TotalOfConcat(es: seq<Entry>, fs: seq<Entry>)
    ensures Size(es + fs) == Size(es) + Size(fs)
    decreases |fs|
  {
    if fs == [] {
      assert es + fs == es;
    } else {
      var n := |fs| - 1;
      assert es + fs == (es + fs[..n]) + [fs[n]];
      TotalOfConcat(es, fs[..n]);
      TotalOfPrefix(es + fs, es + fs[..n], |es| + n);
      TotalOfPrefix(fs, fs[..n], n);
    }
  }

  lemma {:induction false} TotalOfPermutation(s: seq<Entry>, t: seq<Entry>)
    requires multiset(s) == multiset(t)
    ensures Size(s) == Size(t)
    decreases |s|
  {
    SameSize(s, t);
    if s != [] {
      var i := RemoveHead(s, t);
      TotalOfPermutation(s[1..], t[..i] + t[i + 1..]);
      assert s == [s[0]] + s[1..];
      TotalOfConcat([s[0]], s[1..]);
      TotalOfConcat(t[..i], [s[0]] + t[i + 1..]);
      TotalOfConcat([s[0]], t[i + 1..]);
      TotalOfConcat(t[..i], t[i + 1..]);
    }
  }

  /** When the arena is large enough every entry keeps all its positions. */
  lemma RoomyPack(order: seq<Entry>, out: seq<Entry>)
    requires Packed(order, out) && Size(order) <= MAX_POSITIONS
    ensures Cores(out) == Cores(order)
  {
    forall i | 0 <= i < |order| ensures CoreOf(out[i]) == CoreOf(order[i]) {
      assert PackedAt(order, out, i);
      TotalGrows(order, i, |order|);
      TotalGrows(order, i + 1, |order|);
      assert order[i].positions[..|order[i].positions|] == order[i].positions;
    }
  }

  /** Copying a stored abstract again changes nothing. */
  lemma CutOfCompact(a: Abstract, out: Abstract)
    requires Compact(a) && IsCut(a, out)
    ensures Same(a, out)
  {
    match a
    case Blank(_) =>
    case BM25(_, fs) => assert fs[..|fs|] == fs;
    case Rich(_, es) =>
      ShortIsKept(es);
      var order :| Ordered(es, order) && Packed(order, out.entries);
      OrderedSize(es, order);
      TotalOfPermutation(es, order);
      RoomyPack(order, out.entries);
      MapPermutes(CoreOf, es, order);
      PackedMins(order, out.entries);
      if |es| == MAX_ENTRIES {
        MapPermutes(MinOf, es, order);
        AscendingIsUnique(Mins(es), Mins(order));
      }
  }

  lemma SameIsSymmetric(a: Abstract, b: Abstract)
    requires Same(a, b)
    ensures Same(b, a)
  {
  }

  lemma SameIsTransitive(a: Abstract, b: Abstract, c: Abstract)
    requires Same(a, b) && Same(b, c)
    ensures Same(a, c)
  {
  }

  /** `q` is a copy of `source`, made once or several times over. */
  ghost predicate Faithful(source: Abstract, q: Abstract) {
    Compact(q) && exists cut :: IsCut(source, cut) && Same(cut, q)
  }

  lemma CutIsFaithful(source: Abstract, q: Abstract)
    requires IsCut(source, q)
    ensures Faithful(source, q)
  {
    CutIsCompact(source, q);
    assert Same(q, q);
  }

  /** Copying twice, or any number of times, is copying once. */
  lemma CopyTwice(source: Abstract, q: Abstract, r: Abstract)
    requires Faithful(source, q) && IsCut(q, r)
    ensures Faithful(source, r) && Same(q, r)
  {
    CutIsCompact(q, r);
    CutOfCompact(q, r);
    var cut :| IsCut(source, cut) && Same(cut, q);
    SameIsTransitive(cut, q, r);
  }

  // ---------------------------------------------------------------------------------------
  // The rank of an abstract
  // ---------------------------------------------------------------------------------------

  ghost predicate HasWeight(es: seq<Entry>, w: real) {
    exists i :: 0 <= i < |es| && es[i].weight == w
  }

  ghost predicate Bounded(es: seq<Entry>, w: real) {
    forall i :: 0 <= i < |es| ==> es[i].weight <= w
  }

  /** `r` is the weight of a heaviest entry, or 0.0 if there is none. */
  ghost predicate IsRange(es: seq<Entry>, r: real) {
    if es == [] then r == 0.0 else HasWeight(es, r) && Bounded(es, r)
  }

  ghost predicate WeightsWithin(s: seq<Entry>, t: seq<Entry>) {
    forall i :: 0 <= i < |s| ==> HasWeight(t, s[i].weight)
  }

  lemma RangeWithin(s: seq<Entry>, t: seq<Entry>, r: real)
    requires WeightsWithin(s, t) && WeightsWithin(t, s) && IsRange(s, r)
    ensures IsRange(t, r)
  {
    assert |t| > 0 ==> HasWeight(s, t[0].weight);
    if s != [] {
      var i :| 0 <= i < |s| && s[i].weight == r;
      assert HasWeight(t, s[i].weight);
      forall j | 0 <= j < |t| ensures t[j].weight <= r {
        assert HasWeight(s, t[j].weight);
      }
    }
  }

  lemma CoresWithin(s: seq<Entry>, t: seq<Entry>)
    requires multiset(Cores(s)) == multiset(Cores(t))
    ensures WeightsWithin(s, t)
  {
    forall i | 0 <= i < |s| ensures HasWeight(t, s[i].weight) {
      assert Cores(s)[i] in multiset(Cores(t));
      var j :| 0 <= j < |t| && Cores(t)[j] == Cores(s)[i];
    }
  }

  lemma PackedWithin(order: seq<Entry>, out: seq<Entry>)
    requires Packed(order, out)
    ensures WeightsWithin(order, out) && WeightsWithin(out, order)
  {
    forall i | 0 <= i < |out| ensures HasWeight(out, order[i].weight) && HasWeight(order, out[i].weight) {
      assert PackedAt(order, out, i);
    }
  }

  lemma KeptAreFromSource(es: seq<Entry>, k: Entry)
    requires k in Select(es).kept
    ensures k in es
  {
    hide Offer, NoneHeavier;
    KeepsHeaviest(es);
    assert k in multiset(Select(es).kept);
    assert k in multiset(es);
  }

  /** No source entry outweighs all kept ones. */
  lemma SomeKeptIsAsHeavy(es: seq<Entry>, e: Entry) returns (k: Entry)
    requires e in es
    ensures k in Select(es).kept && e.weight <= k.weight
  {
    hide Offer;
    var kept := Select(es).kept;
    if e in kept {
      k := e;
    } else {
      k := kept[0];
      assert e in multiset(es) && e !in multiset(kept);
      DroppedAreLighter(es, e, k);
    }
  }

  /** The heaviest entry is among the kept ones. */
  lemma SelectionKeepsRange(es: seq<Entry>, r: real)
    requires IsRange(es, r)
    ensures IsRange(Select(es).kept, r)
  {
    hide Select;
    if es != [] {
      var kept := Select(es).kept;
      forall j | 0 <= j < |kept| ensures kept[j].weight <= r {
        KeptAreFromSource(es, kept[j]);
      }
      var i :| 0 <= i < |es| && es[i].weight == r;
      var k := SomeKeptIsAsHeavy(es, es[i]);
      var j :| 0 <= j < |kept| && kept[j] == k;
      assert kept[j].weight == r;
    }
  }

  /** The rank of a Rich abstract survives any number of copies. */
  lemma RangeSurvives(source: Abstract, q: Abstract, r: real)
    requires source.Rich? && Faithful(source, q) && IsRange(source.entries, r)
    ensures q.Rich? && IsRange(q.entries, r)
  {
    var cut :| IsCut(source, cut) && Same(cut, q);
    var kept := Select(source.entries).kept;
    var order: seq<Entry> :| Ordered(kept, order) && Packed(order, cut.entries);
    OrderedSize(kept, order);
    SelectionKeepsRange(source.entries, r);
    MapPermutes(CoreOf, kept, order);
    CoresWithin(kept, order);
    CoresWithin(order, kept);
    RangeWithin(kept, order, r);
    PackedWithin(order, cut.entries);
    RangeWithin(order, cut.entries, r);
    CoresWithin(cut.entries, q.entries);
    CoresWithin(q.entries, cut.entries);
    RangeWithin(cut.entries, q.entries, r);
  }
}
