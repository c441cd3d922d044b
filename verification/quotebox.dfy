/** The store of abstracts beside the result buffer: `CopyAbstract` and `Abstracts`
    of src/service/collect-quotes.cpp, in place over preallocated blocks. */
module QuoteBox {
  import opened Basics
  import opened Sorting
  import opened Quotes
  import opened Exchange

  /** A pair of position pointers: into somebody else's memory, or into the block's own arena. */
  datatype Spread = Foreign(cells: seq<Position>) | Own(lo: nat, hi: nat)

  datatype Slot = Slot(limits: Limits, weight: real, spread: Spread)

  function FromEntry(e: Entry): Slot {
    Slot(e.limits, e.weight, Foreign(e.positions))
  }

  /** What a reader of the slot sees. */
  function ToEntry(slot: Slot, arena: seq<Position>): Entry {
    Entry(slot.limits, slot.weight,
          match slot.spread
          case Foreign(cells) => cells
          case Own(lo, hi) => if lo <= hi <= |arena| then arena[lo..hi] else [])
  }

  function View(slots: seq<Slot>, arena: seq<Position>): seq<Entry> {
    Map(s => ToEntry(s, arena), slots)
  }

  function SlotMin(s: Slot): nat { s.limits.uMin }

  /** The spreads are consecutive slices of the block's own arena, starting at its beginning. */
  ghost predicate ConsecutiveSlices(slots: seq<Slot>) {
    forall i :: 0 <= i < |slots| ==>
      && slots[i].spread.Own?
      && slots[i].spread.lo <= slots[i].spread.hi <= MAX_POSITIONS
      && slots[i].spread.lo == if i == 0 then 0 else SliceEnd(slots, i - 1)
  }

  ghost function SliceEnd(slots: seq<Slot>, i: nat): nat
    requires i < |slots|
  {
    if slots[i].spread.Own? then slots[i].spread.hi else 0
  }

  // ---------------------------------------------------------------------------------------
  // Sorting a range
  // ---------------------------------------------------------------------------------------

  /** Sorts `a[lo..hi]` by `key` and touches nothing else; the same range is always sorted alike. */
  method SortRange<T(!new)>(key: T -> nat, a: array<T>, lo: nat, hi: nat)
    requires lo <= hi <= a.Length
    modifies a
    ensures multiset(a[lo..hi]) == multiset(old(a[lo..hi]))
    ensures Ascending(Map(key, a[lo..hi])) && a[lo..hi] == Sort(ByKey(key), old(a[lo..hi]))
    ensures forall i :: 0 <= i < lo || hi <= i < a.Length ==> a[i] == old(a[i])
  {
    var s := Sort(ByKey(key), a[lo..hi]);
    SortByKey(key, a[lo..hi]);
    SameSize(s, a[lo..hi]);
    forall i | lo <= i < hi {
      a[i] := s[i - lo];
    }
    assert a[lo..hi] == s;
  }

  // ---------------------------------------------------------------------------------------
  // One preallocated block
  // ---------------------------------------------------------------------------------------

  datatype Mode = ModeBlank | ModeBM25 | ModeRich

  class Item {
    var udocid: nat
    var mode: Mode
    var nWords: nat
    var nTerms: nat
    var nEntries: nat
    const terms: array<Term>
    const slots: array<Slot>
    const arena: array<Position>

    ghost function Repr(): set<object> {
      {this, terms, slots, arena}
    }

    ghost predicate Shaped()
      reads this
    {
      && terms.Length == MAX_TERMS && slots.Length == MAX_ENTRIES && arena.Length == MAX_POSITIONS
      && nTerms <= MAX_TERMS && nEntries <= MAX_ENTRIES
    }

    /** The stored abstract, as a reader sees it. */
    function Value(): Abstract
      reads this, Repr()
      requires Shaped()
    {
      match mode
      case ModeBlank => Blank(nWords)
      case ModeBM25 => BM25(nWords, terms[..nTerms])
      case ModeRich => Rich(nWords, View(slots[..nEntries], arena[..]))
    }

    /** No stored entry refers to positions outside the block. */
    ghost predicate SelfContained()
      reads this, Repr()
      requires Shaped()
    {
      mode == ModeRich ==> ConsecutiveSlices(slots[..nEntries])
    }

    constructor ()
      ensures Shaped() && SelfContained() && fresh(Repr())
    {
      udocid, mode, nWords, nTerms, nEntries := 0, ModeBlank, 0, 0, 0;
      terms, slots, arena := new Term[MAX_TERMS], new Slot[MAX_ENTRIES], new Position[MAX_POSITIONS];
    }

    /** `CopyAbstract`: stores a cut of `source` in this block. */
    method CopyAbstract(source: Abstract)
      requires Shaped()
      modifies Repr()
      ensures Shaped() && SelfContained() && udocid == old(udocid)
      ensures IsCut(source, Value()) && CutBy(StoredOrder, source, Value())
      ensures source.Rich? && EquallyHeavy(source.entries) ==>
                multiset(Map(LimitsOf, Value().entries))
                == multiset(Map(LimitsOf, source.entries[..Min(|source.entries|, 4)]))
    {
      nWords := source.nWords;
      match source {
        case BM25(_, factors) =>
          var n := Min(|factors|, MAX_TERMS);
          forall i | 0 <= i < n {
            terms[i] := factors[i];
          }
          assert terms[..n] == factors[..n];
          mode, nTerms := ModeBM25, n;
        case Rich(_, entries) =>
          hide Packed, Ordered, StoredOrder, Select, Sort, EquallyHeavy;
          var n := CopyEntries(entries);
          mode, nEntries := ModeRich, n;
        case Blank(_) =>
          mode := ModeBlank;
      }
    }

    /** The Rich branch. */
    method CopyEntries(entries: seq<Entry>) returns (n: nat)
      requires slots.Length == MAX_ENTRIES && arena.Length == MAX_POSITIONS
      modifies slots, arena
      ensures n <= MAX_ENTRIES && ConsecutiveSlices(slots[..n])
      ensures IsRichCut(entries, View(slots[..n], arena[..]))
      ensures Packed(StoredOrder(Select(entries).kept), View(slots[..n], arena[..]))
      ensures EquallyHeavy(entries) ==> multiset(Map(LimitsOf, View(slots[..n], arena[..])))
                                        == multiset(Map(LimitsOf, entries[..Min(|entries|, 4)]))
    {
      hide Packed, Ordered, StoredOrder, ConsecutiveSlices, Sort;
      n := SelectEntries(entries);
      ghost var order := StoredOrder(Select(entries).kept);
      SortEntries(n, Select(entries).kept);
      PackPositions(n, order);
      assert Ordered(Select(entries).kept, order);
      if EquallyHeavy(entries) {
        EqualsStoreFirst(entries, View(slots[..n], arena[..]));
      }
    }

    /** Fills the slots with source entries, then lets heavier entries replace a lightest one. */
    method SelectEntries(source: seq<Entry>) returns (n: nat)
      requires slots.Length == MAX_ENTRIES
      modifies slots
      ensures n == |Select(source).kept|
      ensures slots[..n] == Map(FromEntry, Select(source).kept)
      ensures (forall i, j :: 0 <= i < j < |source| ==> source[i].weight == source[j].weight)
              ==> n == Min(|source|, 4) && slots[..n] == Map(FromEntry, source[..n])
    {
      var src, worst;
      src, worst := FillSlots(source);
      n := src;
      while src < |source|
        invariant src <= |source| && (src < |source| ==> n == MAX_ENTRIES)
        invariant Holds(n, worst, Select(source[..src]))
      {
        SelectStep(source[..src + 1], source[..src], source[src]);
        worst := OfferSlot(Select(source[..src]), source[src], worst);
        src := src + 1;
      }
      assert source[..src] == source;
      if forall i, j :: 0 <= i < j < |source| ==> source[i].weight == source[j].weight {
        EqualsKeepFirst(source);
      }
    }

    /** The used slots and the index of a lightest one are those of the selection `s`. */
    ghost predicate Holds(n: nat, worst: nat, s: Slots)
      reads this, slots
    {
      n <= slots.Length && n == |s.kept| && slots[..n] == Map(FromEntry, s.kept) && worst == s.worst
    }

    method FillSlots(source: seq<Entry>) returns (n: nat, worst: nat)
      requires slots.Length == MAX_ENTRIES
      modifies slots
      ensures n == Min(|source|, MAX_ENTRIES) && Holds(n, worst, Select(source[..n]))
    {
      hide Offer, Rescan;
      n, worst := 0, 0;
      while n < |source| && n < MAX_ENTRIES
        invariant n <= |source| && n <= MAX_ENTRIES
        invariant Holds(n, worst, Select(source[..n]))
      {
        SelectStep(source[..n + 1], source[..n], source[n]);
        worst := FillSlot(Select(source[..n]), source[n], n, worst);
        n := n + 1;
      }
    }

    method FillSlot(ghost s: Slots, e: Entry, n: nat, worst: nat) returns (w: nat)
      requires slots.Length == MAX_ENTRIES && n < MAX_ENTRIES && WorstIsLightest(s) && Holds(n, worst, s)
      modifies slots
      ensures Holds(n + 1, w, Offer(s, e))
    {
      hide Offer;
      FillStep(s, e, slots[..n]);
      slots[n] := FromEntry(e);
      assert slots[..n + 1] == slots[..n] + [FromEntry(e)];
      w := worst;
      if slots[n].weight < slots[worst].weight {
        w := n;
      }
      assert n > 0 ==> slots[worst] == slots[..n][worst];
    }

    method OfferSlot(ghost s: Slots, e: Entry, worst: nat) returns (w: nat)
      requires slots.Length == MAX_ENTRIES && WorstIsLightest(s) && Holds(MAX_ENTRIES, worst, s)
      modifies slots
      ensures Holds(MAX_ENTRIES, w, Offer(s, e))
    {
      w := worst;
      assert slots[worst] == slots[..MAX_ENTRIES][worst];
      assert slots[..] == slots[..MAX_ENTRIES];
      if e.weight > slots[worst].weight {
        w := ReplaceWorst(s, e, worst);
        assert slots[..] == slots[..MAX_ENTRIES];
      }
    }

    /** Overwrites the lightest slot and looks for the lightest one again. */
    method ReplaceWorst(ghost s: Slots, e: Entry, worst: nat) returns (w: nat)
      requires slots.Length == MAX_ENTRIES == |s.kept| && worst < MAX_ENTRIES && worst == s.worst
      requires slots[..] == Map(FromEntry, s.kept) && e.weight > slots[worst].weight
      modifies slots
      ensures slots[..] == Map(FromEntry, Offer(s, e).kept)
      ensures w == Offer(s, e).worst
      ensures slots[..] == old(slots[..])[worst := FromEntry(e)]
      ensures if forall j :: 0 <= j < 4 ==> e.weight <= slots[j].weight then w == worst
              else && w < 4
                   && (forall j :: 0 <= j < 4 ==> slots[w].weight <= slots[j].weight)
                   && (forall j :: 0 <= j < w ==> slots[j].weight > slots[w].weight)
    {
      ghost var kept := s.kept[worst := e];
      slots[worst] := FromEntry(e);
      assert slots[..] == Map(FromEntry, kept);
      w := worst;
      var p := 0;
      while p < MAX_ENTRIES
        invariant p <= MAX_ENTRIES && w < MAX_ENTRIES
        invariant slots[..] == Map(FromEntry, kept)
        invariant Rescan(kept, w, p) == Rescan(kept, worst, 0)
      {
        assert slots[p] == slots[..][p] && slots[w] == slots[..][w];
        if slots[p].weight < slots[w].weight {
          w := p;
        }
        p := p + 1;
      }
      ScanOfSlots(slots[..], kept, worst);
    }

    /** Orders a full set by `uMin`; a short one stays in source order. */
    method SortEntries(n: nat, ghost kept: seq<Entry>)
      requires slots.Length == MAX_ENTRIES && n == |kept| <= MAX_ENTRIES
      requires slots[..n] == Map(FromEntry, kept)
      modifies slots
      ensures |StoredOrder(kept)| == n && Ordered(kept, StoredOrder(kept))
      ensures slots[..n] == Map(FromEntry, StoredOrder(kept))
    {
      StoredOrderSorts(kept);
      if n == MAX_ENTRIES {
        assert slots[0..MAX_ENTRIES] == slots[..n];
        SortRange(SlotMin, slots, 0, MAX_ENTRIES);
        PermutedSlots(kept, slots[0..MAX_ENTRIES]);
        assert slots[..n] == slots[0..MAX_ENTRIES];
      }
    }

    /** Moves the positions of the stored entries into the arena, as many as fit. */
    method PackPositions(n: nat, ghost order: seq<Entry>)
      requires slots.Length == MAX_ENTRIES && arena.Length == MAX_POSITIONS
      requires n == |order| <= MAX_ENTRIES && slots[..n] == Map(FromEntry, order)
      modifies slots, arena
      ensures ConsecutiveSlices(slots[..n])
      ensures Packed(order, View(slots[..n], arena[..]))
    {
      var ent, pos := 0, 0;
      while ent < n
        invariant ent <= n && pos == Used(order, ent)
        invariant forall j :: ent <= j < n ==> slots[j] == FromEntry(order[j])
        invariant forall j :: 0 <= j < ent ==> slots[j] == PackedSlot(order, j)
        invariant forall j :: 0 <= j < ent ==> PackedCells(order, arena[..], j)
      {
        ghost var before := arena[..];
        pos := PackOne(ent, pos, order);
        forall j | 0 <= j < ent ensures PackedCells(order, arena[..], j) {
          CellsStay(order, before, arena[..], j, ent);
        }
        ent := ent + 1;
      }
      PackedView(order, slots[..n], arena[..]);
    }

    /** Packs one entry; earlier parts of the arena are not touched. */
    method PackOne(ent: nat, from: nat, ghost order: seq<Entry>) returns (pos: nat)
      requires slots.Length == MAX_ENTRIES && arena.Length == MAX_POSITIONS
      requires ent < |order| && ent < MAX_ENTRIES && from == Used(order, ent)
      requires slots[ent] == FromEntry(order[ent])
      modifies slots, arena
      ensures pos == Used(order, ent + 1)
      ensures slots[ent] == PackedSlot(order, ent)
      ensures forall j :: 0 <= j < MAX_ENTRIES && j != ent ==> slots[j] == old(slots[j])
      ensures arena[..from] == old(arena[..from])
      ensures PackedCells(order, arena[..], ent)
    {
      hide Sort, Used, Ascending, PackedCells;
      Fits(order, ent);
      pos := CopyCells(slots[ent].spread.cells, from);
      slots[ent] := slots[ent].(spread := Own(from, pos));
      assert arena[from..pos] == order[ent].positions[..pos - from];
      SortRange(OffsetOf, arena, from, pos);
      assert arena[..][from..pos] == arena[from..pos];
      CellsPacked(order, arena[..], ent);
    }

    /** Copies cells into the arena from `from` on, until either runs out. */
    method CopyCells(cells: seq<Position>, from: nat) returns (pos: nat)
      requires arena.Length == MAX_POSITIONS && from <= MAX_POSITIONS
      modifies arena
      ensures pos == Min(from + |cells|, MAX_POSITIONS)
      ensures arena[from..pos] == cells[..pos - from]
      ensures arena[..from] == old(arena[..from])
    {
      var k := 0;
      pos := from;
      while k < |cells| && pos < MAX_POSITIONS
        invariant k <= |cells| && pos == from + k <= MAX_POSITIONS
        invariant arena[from..pos] == cells[..k]
        invariant arena[..from] == old(arena[..from])
      {
        arena[pos] := cells[k];
        pos, k := pos + 1, k + 1;
      }
    }
  }

  lemma Fits(order: seq<Entry>, j: nat)
    requires j < |order|
    ensures Used(order, j) <= MAX_POSITIONS
    ensures Used(order, j + 1) == Min(Used(order, j) + |order[j].positions|, MAX_POSITIONS)
  {
  }

  ghost function PackedSlot(order: seq<Entry>, j: nat): Slot
    requires j < |order|
  {
    Slot(order[j].limits, order[j].weight, Own(Used(order, j), Used(order, j + 1)))
  }

  ghost predicate PackedCells(order: seq<Entry>, arena: seq<Position>, j: nat)
    requires j < |order|
  {
    var lo, hi := Used(order, j), Used(order, j + 1);
    && lo <= hi <= |arena| && hi - lo <= |order[j].positions|
    && multiset(arena[lo..hi]) == multiset(order[j].positions[..hi - lo])
    && Ascending(Offsets(arena[lo..hi]))
  }

  lemma CellsPacked(order: seq<Entry>, arena: seq<Position>, j: nat)
    requires j < |order| && |arena| == MAX_POSITIONS
    requires var lo, hi := Used(order, j), Used(order, j + 1);
             && lo <= hi <= MAX_POSITIONS && hi - lo <= |order[j].positions|
             && multiset(arena[lo..hi]) == multiset(order[j].positions[..hi - lo])
             && Ascending(Map(OffsetOf, arena[lo..hi]))
    ensures PackedCells(order, arena, j)
  {
  }

  lemma CellsStay(order: seq<Entry>, arena: seq<Position>, arena': seq<Position>, j: nat, i: nat)
    requires j < i < |order| && |arena| == |arena'| == MAX_POSITIONS
    requires arena[..Used(order, i)] == arena'[..Used(order, i)]
    requires PackedCells(order, arena, j)
    ensures PackedCells(order, arena', j)
  {
    TotalGrows(order, j + 1, i);
    var lo, hi, top := Used(order, j), Used(order, j + 1), Used(order, i);
    assert lo <= hi <= top;
    SliceOfPrefix(arena, lo, hi, top);
    SliceOfPrefix(arena', lo, hi, top);
  }

  lemma SliceOfPrefix<T>(s: seq<T>, lo: nat, hi: nat, top: nat)
    requires lo <= hi <= top <= |s|
    ensures s[lo..hi] == s[..top][lo..hi]
  {
  }

  lemma PackedView(order: seq<Entry>, slots: seq<Slot>, arena: seq<Position>)
    requires |slots| == |order| && |arena| == MAX_POSITIONS
    requires forall j :: 0 <= j < |order| ==> slots[j] == PackedSlot(order, j)
    requires forall j :: 0 <= j < |order| ==> PackedCells(order, arena, j)
    ensures ConsecutiveSlices(slots) && Packed(order, View(slots, arena))
  {
    forall i | 0 <= i < |order|
      ensures PackedAt(order, View(slots, arena), i)
      ensures slots[i].spread == Own(Used(order, i), Used(order, i + 1)) && Used(order, i) <= Used(order, i + 1)
    {
      assert slots[i] == PackedSlot(order, i);
      assert PackedCells(order, arena, i);
    }
  }

  lemma FillStep(s: Slots, e: Entry, slots: seq<Slot>)
    requires WorstIsLightest(s) && |s.kept| < MAX_ENTRIES && slots == Map(FromEntry, s.kept)
    ensures slots + [FromEntry(e)] == Map(FromEntry, Offer(s, e).kept)
    ensures Offer(s, e).worst == if s.kept != [] && e.weight < s.kept[s.worst].weight then |s.kept| else s.worst
  {
  }

  function Back(slot: Slot): Entry {
    ToEntry(slot, [])
  }

  /** The order of the stored entries, as the sort of the slots yields it. */
  function StoredOrder(kept: seq<Entry>): seq<Entry> {
    if |kept| < MAX_ENTRIES then kept else Map(Back, Sort(ByKey(SlotMin), Map(FromEntry, kept)))
  }

  lemma ScanOfSlots(slots: seq<Slot>, kept: seq<Entry>, worst: nat)
    requires slots == Map(FromEntry, kept) && |kept| == 4 && worst < 4
    ensures var w := Rescan(kept, worst, 0);
            if forall j :: 0 <= j < 4 ==> kept[worst].weight <= slots[j].weight then w == worst
            else && w < 4
                 && (forall j :: 0 <= j < 4 ==> slots[w].weight <= slots[j].weight)
                 && (forall j :: 0 <= j < w ==> slots[j].weight > slots[w].weight)
  {
    hide Rescan;
    RescanExactly(kept, worst);
    assert forall j :: 0 <= j < 4 ==> slots[j].weight == kept[j].weight;
  }

  /** Sorted slots hold a sorted permutation of the entries. */
  lemma PermutedSlots(kept: seq<Entry>, sorted: seq<Slot>)
    requires multiset(sorted) == multiset(Map(FromEntry, kept)) && Ascending(Map(SlotMin, sorted))
    ensures var order := Map(Back, sorted);
            && multiset(order) == multiset(kept) && |order| == |kept| && Ascending(Mins(order))
            && sorted == Map(FromEntry, order)
  {
    var order := Map(Back, sorted);
    MapPermutes(Back, sorted, Map(FromEntry, kept));
    assert Map(Back, Map(FromEntry, kept)) == kept;
    SameSize(order, kept);
    forall i | 0 <= i < |sorted| ensures sorted[i] == FromEntry(order[i]) {
      assert sorted[i] in multiset(sorted);
      assert sorted[i] in Map(FromEntry, kept);
    }
    assert Mins(order) == Map(SlotMin, sorted);
  }

  lemma StoredOrderSorts(kept: seq<Entry>)
    ensures Ordered(kept, StoredOrder(kept)) && |StoredOrder(kept)| == |kept|
  {
    if |kept| >= MAX_ENTRIES {
      SortByKey(SlotMin, Map(FromEntry, kept));
      PermutedSlots(kept, Sort(ByKey(SlotMin), Map(FromEntry, kept)));
    }
  }

  /** The store's sort is one function of the kept entries. */
  lemma StoreSorts()
    ensures Sorts(StoredOrder)
  {
    forall kept ensures Ordered(kept, StoredOrder(kept)) {
      StoredOrderSorts(kept);
    }
  }

  // ---------------------------------------------------------------------------------------
  // The store
  // ---------------------------------------------------------------------------------------

  datatype Card = Card(id: nat, quote: Abstract)

  /** Index of the first card with this id, or the number of cards. */
  function FirstIndex(cards: seq<Card>, id: nat): (i: nat)
    ensures i <= |cards|
    ensures i < |cards| ==> cards[i].id == id
    ensures forall j :: 0 <= j < i ==> cards[j].id != id
  {
    if cards == [] || cards[0].id == id then 0 else 1 + FirstIndex(cards[1..], id)
  }

  const NO_DOCUMENT: nat := 0xFFFF_FFFF

  class Abstracts {
    const limit: nat
    const items: seq<Item>
    var count: nat
    ghost var cards: seq<Card>
    ghost const Repr: set<object>

    ghost predicate Separate()
    {
      && |items| == limit && this in Repr
      && (forall i :: 0 <= i < limit ==> items[i].Repr() <= Repr && this !in items[i].Repr())
      && (forall i, j :: 0 <= i < j < limit ==> items[i].Repr() !! items[j].Repr())
    }

    ghost predicate Valid()
      reads this, Repr
    {
      && Separate()
      && count == |cards| <= limit
      && (forall i :: 0 <= i < limit ==> items[i] in Repr && items[i].Repr() <= Repr && items[i].Shaped())
      && (forall i :: 0 <= i < count ==> items[i].SelfContained())
      && (forall i :: 0 <= i < count ==> cards[i] == Card(items[i].udocid, items[i].Value()))
    }

    constructor (maxcount: nat)
      ensures Valid() && fresh(Repr) && limit == maxcount && cards == []
    {
      var all: seq<Item> := [];
      ghost var repr: set<object> := {};
      while |all| < maxcount
        invariant |all| <= maxcount && fresh(repr)
        invariant forall i :: 0 <= i < |all| ==> all[i].Repr() <= repr && all[i].Shaped()
        invariant forall i, j :: 0 <= i < j < |all| ==> all[i].Repr() !! all[j].Repr()
      {
        var item := new Item();
        all := all + [item];
        repr := repr + item.Repr();
      }
      limit, items, count, cards := maxcount, all, 0, [];
      Repr := repr + {this};
    }

    /** Stores a copy of `source` as `newid`, in the place of `oldid` or in a new place.
        `ok` is false where the program throws "Abstracts storage overflow". */
    method Set(newid: nat, source: Abstract, oldid: nat) returns (ok: bool, ghost quote: Abstract)
      requires Valid()
      modifies Repr
      ensures Valid()
      ensures ok <==> FirstIndex(old(cards), oldid) < |old(cards)| || |old(cards)| < limit
      ensures ok ==> IsCut(source, quote) && CutBy(StoredOrder, source, quote)
      ensures cards == if !ok then old(cards)
                       else if FirstIndex(old(cards), oldid) < |old(cards)|
                       then old(cards)[FirstIndex(old(cards), oldid) := Card(newid, quote)]
                       else old(cards) + [Card(newid, quote)]
    {
      hide IsCut, CutBy, Valid;
      ok, quote := true, source;
      var p := Find(oldid);
      if p != count {
        quote := SetAt(p, newid, source);
      } else if count < limit {
        quote := SetNew(newid, source);
      } else {
        ok := false;
      }
    }

    method SetAt(p: nat, newid: nat, source: Abstract) returns (ghost quote: Abstract)
      requires Valid() && p < count
      modifies Repr
      ensures Valid() && IsCut(source, quote) && CutBy(StoredOrder, source, quote)
      ensures cards == old(cards)[p := Card(newid, quote)]
    {
      hide IsCut, CutBy, Item.SelfContained, Item.Value;
      quote := Fill(p, newid, source);
      cards := cards[p := Card(newid, quote)];
    }

    method SetNew(newid: nat, source: Abstract) returns (ghost quote: Abstract)
      requires Valid() && count < limit
      modifies Repr
      ensures Valid() && IsCut(source, quote) && CutBy(StoredOrder, source, quote)
      ensures cards == old(cards) + [Card(newid, quote)]
    {
      hide IsCut, CutBy, Item.SelfContained, Item.Value;
      quote := Fill(count, newid, source);
      count := count + 1;
      cards := cards + [Card(newid, quote)];
    }

    /** Overwrites one block and leaves all others alone. */
    method Fill(p: nat, newid: nat, source: Abstract) returns (ghost quote: Abstract)
      requires Valid() && p < limit
      modifies items[p].Repr()
      ensures Separate()
      ensures forall i :: 0 <= i < limit ==> items[i] in Repr && items[i].Repr() <= Repr && items[i].Shaped()
      ensures forall i :: (0 <= i < count && i != p) ==>
                items[i].SelfContained() && cards[i] == Card(items[i].udocid, items[i].Value())
      ensures items[p].SelfContained() && items[p].udocid == newid && items[p].Value() == quote
      ensures IsCut(source, quote) && CutBy(StoredOrder, source, quote)
    {
      items[p].CopyAbstract(source);
      items[p].udocid := newid;
      quote := items[p].Value();
      forall i | 0 <= i < limit && i != p
        ensures items[i].Repr() !! items[p].Repr()
      {
        assert i < p || p < i;
      }
    }

    method Find(id: nat) returns (p: nat)
      requires Valid()
      ensures p == FirstIndex(cards, id) && count == |cards| <= limit
    {
      p := 0;
      while p < count && items[p].udocid != id
        invariant p <= count
        invariant forall j :: 0 <= j < p ==> cards[j].id != id
      {
        p := p + 1;
      }
    }

    /** The stored abstract of a document, if there is one. */
    method Get(getid: nat) returns (r: Option<Abstract>)
      requires Valid()
      ensures var i := FirstIndex(cards, getid);
              r == if i < |cards| then Some(cards[i].quote) else None
    {
      var p := Find(getid);
      r := if p < count then Some(items[p].Value()) else None;
    }
  }
}
