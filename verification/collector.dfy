/** The document collector `Documents::impl` of src/service/collect-docs.cpp: a buffer of `nLimit` documents
    updated in place, a lazily known worst document, and the quote box beside it. */
module Collecting {
  import opened Basics
  import opened Sorting
  import opened Ranking
  import opened Quotes
  import opened Exchange
  import opened QuoteBox
  import opened Collection
  import opened Sections

  // ---------------------------------------------------------------------------------------
  // Sorting the buffer
  // ---------------------------------------------------------------------------------------

  function InOrder(differ: Differ): (Entity, Entity) -> bool {
    (a, b) => Before(differ, a, b)
  }

  lemma {:induction false} SingleIds(s: seq<Entity>, e: Entity)
    requires DistinctIds(s)
    ensures multiset(s)[e] <= 1
  {
    if s != [] {
      var n := |s| - 1;
      assert s == s[..n] + [s[n]];
      SingleIds(s[..n], e);
      assert s[n] !in multiset(s[..n]);
    }
  }

  lemma SortSortsBuffer(differ: Differ, bound: nat, s: seq<Entity>)
    requires StrictOrder(differ, bound) && IdsBelow(Elems(s), bound) && DistinctIds(s)
    ensures var t := Sort(InOrder(differ), s); SortedBy(differ, t) && Elems(t) == Elems(s) && |t| == |s|
  {
    var t := Sort(InOrder(differ), s);
    assert forall e :: e in multiset(s) ==> e in Elems(s);
    forall e ensures multiset(s)[e] < 2 {
      SingleIds(s, e);
    }
    SortSorts(InOrder(differ), s);
    SameSize(t, s);
    assert forall e :: e in Elems(t) <==> e in multiset(t);
    assert forall e :: e in Elems(s) <==> e in multiset(s);
    forall i, j | 0 <= i < j < |t| ensures Before(differ, t[i], t[j]) {
      assert InOrder(differ)(t[i], t[j]);
    }
  }

  lemma SortedDistinct(differ: Differ, bound: nat, s: seq<Entity>, t: seq<Entity>)
    requires StrictOrder(differ, bound) && IdsBelow(Elems(s), bound) && DistinctIds(s)
    requires SortedBy(differ, t) && Elems(t) == Elems(s) && |t| == |s|
    ensures DistinctIds(t) && IdsOf(t) == IdsOf(s)
  {
    forall i, j | 0 <= i < j < |t| ensures t[i].id != t[j].id {
      assert t[i] in Elems(s) && t[j] in Elems(s) && Before(differ, t[i], t[j]);
      var a :| 0 <= a < |s| && s[a] == t[i];
      var b :| 0 <= b < |s| && s[b] == t[j];
    }
    forall id ensures id in IdsOf(t) <==> id in IdsOf(s) {
      assert forall e :: e in t <==> e in Elems(t);
      assert forall e :: e in s <==> e in Elems(s);
    }
  }

  /** A collection stays one when its buffer is sorted. */
  lemma SortedCollected(rules: Rules, seen: set<Hit>, s: Holding)
    requires rules.Sound() && GoodHits(rules.bound, seen) && Collected(rules, seen, s)
    ensures var t := Sort(InOrder(rules.differ), s.ents);
            && |t| == |s.ents| && SortedBy(rules.differ, t) && Elems(t) == Elems(s.ents)
            && Collected(rules, seen, s.(ents := t))
  {
    hide StrictOrder, GoodHits, SortedBy, QuotesFaithful;
    CollectedIds(rules, seen, s);
    SortSortsBuffer(rules.differ, rules.bound, s.ents);
    SortedDistinct(rules.differ, rules.bound, s.ents, Sort(InOrder(rules.differ), s.ents));
  }

  // ---------------------------------------------------------------------------------------
  // The default ranker
  // ---------------------------------------------------------------------------------------

  /** `GetRange` for a Rich abstract. */
  method GetRange(entries: seq<Entry>) returns (weight: real)
    ensures IsRange(entries, weight)
  {
    weight := 0.0;
    var best: Option<nat> := None;
    for p := 0 to |entries|
      invariant best == None <==> p == 0
      invariant best == None ==> weight == 0.0
      invariant best.Some? ==> best.value < p && weight == entries[best.value].weight
      invariant best.Some? ==> forall i :: 0 <= i < p ==> entries[i].weight <= weight
    {
      if best == None || entries[best.value].weight < entries[p].weight {
        best := Some(p);
        weight := entries[p].weight;
      }
    }
    assert best.Some? ==> entries[best.value].weight == weight;
  }

  // ---------------------------------------------------------------------------------------
  // The collector
  // ---------------------------------------------------------------------------------------

  /** One line of the report. */
  datatype Line = Line(index: nat, range: real, quoted: Option<Abstract>)

  /** `page` is absent when the first requested position lies beyond the documents found. */
  datatype Report = Report(first: nat, found: nat, page: Option<seq<Line>>)

  class Collector {
    const rules: Rules
    const nFirst: nat
    const buffer: array<Entity>
    const quoBox: Abstracts
    var nCount: nat
    var nFound: nat
    var pWorst: Option<nat>
    ghost var seen: set<Hit>
    ghost const Repr: set<object>

    ghost predicate Linked() {
      && buffer.Length == rules.limit == quoBox.limit
      && this in Repr && buffer in Repr && quoBox in Repr && quoBox.Repr <= Repr
      && this !in quoBox.Repr && buffer !in quoBox.Repr
      && rules.Sound() && 1 <= nFirst <= rules.limit + 1
    }

    /** Everything but the worst pointer, which sorting makes stale. */
    ghost predicate Intact()
      reads this, Repr, buffer, quoBox, quoBox.Repr
    {
      && Linked() && quoBox.Valid() && nCount <= rules.limit
      && GoodHits(rules.bound, seen)
      && Collected(rules, seen, Contents())
      && QuotesBy(StoredOrder, seen, quoBox.cards)
    }

    ghost predicate Valid()
      reads this, Repr, buffer, quoBox, quoBox.Repr
    {
      && Intact()
      && (pWorst.Some? ==> nCount == rules.limit && IsWorst(rules.differ, buffer[..nCount], pWorst.value))
    }

    ghost function Contents(): Holding
      reads this, buffer, quoBox
      requires nCount <= buffer.Length
    {
      Holding(buffer[..nCount], nFound, quoBox.cards)
    }

    /** `Create`: the buffer has room for the pages up to and including the requested one. */
    constructor (nfirst: nat, ncount: nat, differ: Differ, ranker: Ranker, bound: nat)
      requires nfirst >= 1 && nfirst + ncount >= 2
      requires bound <= NO_DOCUMENT && StrictOrder(differ, bound)
      ensures Valid() && fresh(Repr) && seen == {} && Contents() == EMPTY
      ensures nFirst == nfirst && rules == Rules(differ, ranker, nfirst + ncount - 1, bound)
    {
      nFirst := nfirst;
      rules := Rules(differ, ranker, nfirst + ncount - 1, bound);
      var ents := new Entity[nfirst + ncount - 1];
      var box := new Abstracts(nfirst + ncount - 1);
      buffer, quoBox, Repr := ents, box, {this, ents} + box.Repr;
      nCount, nFound, pWorst, seen := 0, 0, None, {};
      new;
      CollectedNothing(rules);
    }

    // -------------------------------------------------------------------------------------
    // Linear search
    // -------------------------------------------------------------------------------------

    /** Takes one hit into account: the body of the loop of the linear search. */
    method Accept(id: nat, tuples: Abstract)
      requires Valid() && Hit(id, tuples) !in seen && GoodHits(rules.bound, seen + {Hit(id, tuples)})
      modifies Repr
      ensures Valid() && seen == old(seen) + {Hit(id, tuples)}
    {
      hide Collected, QuotesBy, GoodHits, StrictOrder, Abstracts.Valid;
      var weight := rules.ranker(id, tuples);
      if nCount < rules.limit {
        Append(id, weight, tuples);
      } else {
        var w := FindWorst();
        if Before(rules.differ, Entity(id, weight), buffer[w]) {
          Replace(id, weight, tuples, w);
        } else {
          HitDropped(rules, seen, Contents(), Hit(id, tuples), w);
          DroppedQuotesBy(StoredOrder, rules, seen, Contents(), Hit(id, tuples));
          nFound := nFound + 1;
          seen := seen + {Hit(id, tuples)};
        }
      }
    }

    method Append(id: nat, weight: real, tuples: Abstract)
      requires Valid() && Hit(id, tuples) !in seen && GoodHits(rules.bound, seen + {Hit(id, tuples)})
      requires weight == rules.ranker(id, tuples) && nCount < rules.limit
      modifies Repr
      ensures Valid() && seen == old(seen) + {Hit(id, tuples)}
    {
      hide Collected, QuotesBy, StrictOrder, GoodHits, IsCut, CutBy, FirstIndex;
      ghost var s := Contents();
      BoxHasRoom(rules, seen, s, Hit(id, tuples));
      ghost var quote := StoreAtEnd(Entity(id, weight), tuples);
      HitAppended(rules, seen, s, Hit(id, tuples), quote);
      StoreSorts();
      HitQuotesBy(StoredOrder, rules, seen, s, quoBox.cards, Hit(id, tuples), quote);
      seen := seen + {Hit(id, tuples)};
    }

    /** The writes of an append. */
    method StoreAtEnd(e: Entity, tuples: Abstract) returns (ghost quote: Abstract)
      requires Linked() && quoBox.Valid() && nCount < rules.limit
      requires |quoBox.cards| == nCount == FirstIndex(quoBox.cards, NO_DOCUMENT)
      modifies this`nFound, this`nCount, buffer, quoBox.Repr
      ensures quoBox.Valid() && nCount == old(nCount) + 1
      ensures IsCut(tuples, quote) && CutBy(StoredOrder, tuples, quote)
      ensures Contents() == Holding(old(Contents().ents) + [e], old(nFound) + 1,
                                    old(quoBox.cards) + [Card(e.id, quote)])
    {
      hide IsCut, CutBy, Abstracts.Valid;
      nFound := nFound + 1;
      buffer[nCount] := e;
      nCount := nCount + 1;
      var ok;
      ok, quote := quoBox.Set(e.id, tuples, NO_DOCUMENT);
      assert ok;
      assert buffer[..nCount] == old(buffer[..nCount]) + [e];
    }

    method Replace(id: nat, weight: real, tuples: Abstract, w: nat)
      requires Valid() && Hit(id, tuples) !in seen && GoodHits(rules.bound, seen + {Hit(id, tuples)})
      requires weight == rules.ranker(id, tuples) && nCount == rules.limit
      requires IsWorst(rules.differ, buffer[..nCount], w) && Before(rules.differ, Entity(id, weight), buffer[w])
      modifies Repr
      ensures Valid() && seen == old(seen) + {Hit(id, tuples)}
    {
      hide Collected, QuotesBy, StrictOrder, GoodHits, IsCut, CutBy, FirstIndex;
      ghost var s := Contents();
      BoxHasCard(rules, seen, s, w);
      ghost var quote := StoreOver(w, Entity(id, weight), tuples);
      HitReplaces(rules, seen, s, Hit(id, tuples), quote, w, FirstIndex(s.cards, s.ents[w].id));
      StoreSorts();
      HitQuotesBy(StoredOrder, rules, seen, s, quoBox.cards, Hit(id, tuples), quote);
      seen := seen + {Hit(id, tuples)};
    }

    /** The writes of a replacement; the worst document is no longer known. */
    method StoreOver(w: nat, e: Entity, tuples: Abstract) returns (ghost quote: Abstract)
      requires Linked() && quoBox.Valid() && w < nCount <= rules.limit
      requires FirstIndex(quoBox.cards, buffer[w].id) < |quoBox.cards|
      modifies this`nFound, this`pWorst, buffer, quoBox.Repr
      ensures quoBox.Valid() && pWorst == None
      ensures IsCut(tuples, quote) && CutBy(StoredOrder, tuples, quote)
      ensures Contents() == Holding(old(Contents().ents)[w := e], old(nFound) + 1,
                                    old(quoBox.cards)[old(FirstIndex(quoBox.cards, buffer[w].id)) := Card(e.id, quote)])
    {
      hide IsCut, CutBy, Abstracts.Valid;
      nFound := nFound + 1;
      var ok;
      ok, quote := quoBox.Set(e.id, tuples, buffer[w].id);
      assert ok;
      buffer[w] := e;
      pWorst := None;
      assert buffer[..nCount] == old(buffer[..nCount])[w := e];
    }

    /** The worst document of a full buffer, looked for only when it is not known. */
    method FindWorst() returns (w: nat)
      requires Valid() && nCount == rules.limit
      modifies this`pWorst
      ensures Valid() && pWorst == Some(w) && IsWorst(rules.differ, buffer[..nCount], w)
    {
      if pWorst.Some? {
        return pWorst.value;
      }
      w := 0;
      var beg := 1;
      while beg < nCount
        invariant 1 <= beg <= nCount && w < beg
        invariant IsWorst(rules.differ, buffer[..beg], w)
      {
        InBuffer(w);
        InBuffer(beg);
        if Before(rules.differ, buffer[w], buffer[beg]) {
          forall i | 0 <= i < beg && i != w ensures Before(rules.differ, buffer[i], buffer[beg]) {
            InBuffer(i);
            assert Before(rules.differ, buffer[..beg][i], buffer[..beg][w]);
          }
          w := beg;
        } else {
          assert forall i :: 0 <= i < beg && i != w ==> Before(rules.differ, buffer[..beg][i], buffer[..beg][w]);
        }
        beg := beg + 1;
      }
      pWorst := Some(w);
    }

    lemma InBuffer(i: nat)
      requires Intact() && i < nCount
      ensures buffer[i].id < rules.bound
      ensures forall j :: 0 <= j < nCount && j != i ==> buffer[i].id != buffer[j].id
    {
      var ents := buffer[..nCount];
      assert ents[i] in Elems(ents);
      forall j | 0 <= j < nCount && j != i ensures buffer[i].id != buffer[j].id {
        assert ents[i].id != ents[j].id;
      }
    }

    /** `Search( linear_t, query )`: one pass over the query. */
    method SearchLinear(query: Query) returns (any: bool)
      requires Valid() && query.Valid()
      requires seen !! RatedOf(query.hits) && GoodHits(rules.bound, seen + RatedOf(query.hits))
      modifies Repr
      ensures Valid() && seen == old(seen) + RatedOf(query.hits)
      ensures forall h :: h in query.hits ==> (h in seen <==> h.tuples.BM25? || h.tuples.Rich? || h in old(seen))
      ensures any <==> nFound != 0
    {
      hide Collected, QuotesBy, StrictOrder, IsWorst, Abstracts.Valid;
      ghost var i, before := 0, seen;
      query.CursorSteps(0);
      var id := query.SearchDoc(1);
      while id != NO_DOCUMENT
        invariant i <= |query.hits| && id == query.IdAt(i)
        invariant i == |query.hits| ==> id == NO_DOCUMENT
        invariant Valid() && seen == before + RatedOf(query.hits[..i])
        decreases |query.hits| - i
      {
        id := Visit(query, id, i, before);
        i := i + 1;
      }
      query.CursorSteps(i);
      assert query.hits[..i] == query.hits;
      forall h | h in query.hits ensures h in seen <==> h.tuples.BM25? || h.tuples.Rich? || h in before {
        RatedExactly(query.hits, h);
      }
      any := nFound != 0;
    }

    /** The loop body and its step: the document the cursor stands on, and the next one. */
    method Visit(query: Query, id: nat, ghost i: nat, ghost before: set<Hit>) returns (next: nat)
      requires Valid() && query.Valid() && i < |query.hits| && id == query.IdAt(i)
      requires before !! RatedOf(query.hits) && GoodHits(rules.bound, before + RatedOf(query.hits))
      requires seen == before + RatedOf(query.hits[..i])
      modifies Repr
      ensures Valid() && seen == before + RatedOf(query.hits[..i + 1])
      ensures next == query.IdAt(i + 1) && (next != NO_DOCUMENT <==> i + 1 < |query.hits|)
    {
      hide Collected, QuotesBy, StrictOrder, IsWorst, Abstracts.Valid;
      var tuples := query.GetTuples(id);
      VisitedHit(query, i, before, rules.bound);
      if !tuples.Blank? {
        Accept(id, tuples);
      }
      query.CursorSteps(i + 1);
      next := query.SearchDoc(id + 1);
    }

    // -------------------------------------------------------------------------------------
    // Sorting and merging
    // -------------------------------------------------------------------------------------

    /** Sorts the used part of the buffer with the collector's comparator. */
    method SortBuffer()
      requires Intact()
      modifies buffer
      ensures Intact() && SortedBy(rules.differ, buffer[..nCount])
      ensures Elems(buffer[..nCount]) == old(Elems(buffer[..nCount]))
    {
      hide Collected, QuotesBy, GoodHits, StrictOrder, Abstracts.Valid;
      ghost var s := Contents();
      var sorted := Sort(InOrder(rules.differ), buffer[..nCount]);
      SortedCollected(rules, seen, s);
      forall i | 0 <= i < nCount {
        buffer[i] := sorted[i];
      }
      assert buffer[..nCount] == sorted;
    }

    /** Moves the documents from `p` to `end` up by one place and writes `e` at `p`. */
    method PutAt(p: nat, end: nat, e: Entity)
      requires p <= end < buffer.Length
      modifies buffer
      ensures buffer[..end + 1] == old(buffer[..p]) + [e] + old(buffer[p..end])
      ensures buffer[end + 1..] == old(buffer[end + 1..])
    {
      ghost var before := buffer[..];
      forall i | p < i <= end {
        buffer[i] := buffer[i - 1];
      }
      buffer[p] := e;
      ghost var after := before[..p] + [e] + before[p..end];
      forall i | 0 <= i <= end ensures buffer[i] == after[i] {
        assert i > p ==> buffer[i] == before[i - 1];
      }
      assert buffer[..end + 1] == after;
      assert buffer[end + 1..] == before[end + 1..];
    }

    /** The inner loop: the first document that does not precede `e`. */
    method SkipBetter(e: Entity, dst: nat) returns (p: nat)
      requires nCount <= buffer.Length && dst <= nCount
      ensures dst <= p <= nCount
      ensures forall i :: dst <= i < p ==> Before(rules.differ, buffer[i], e)
      ensures p < nCount ==> !Before(rules.differ, buffer[p], e)
    {
      p := dst;
      while p != nCount && Before(rules.differ, buffer[p], e)
        invariant dst <= p <= nCount
        invariant forall i :: dst <= i < p ==> Before(rules.differ, buffer[i], e)
      {
        p := p + 1;
      }
    }

    /** The merge of the partial result `sEnts`, `sCards` into the former contents `d` stands at `src` and `dst`. */
    ghost predicate Joining(d: Holding, sEnts: seq<Entity>, sCards: seq<Card>, src: nat, dst: nat)
      reads this, Repr, buffer, quoBox, quoBox.Repr
    {
      && Linked() && quoBox.Valid() && nCount <= rules.limit
      && Mergeable(rules, d.ents, sEnts) && BoxAgrees(sEnts, sCards)
      && Blending(rules, d, sEnts, sCards, src, buffer[..nCount], quoBox.cards, dst)
    }

    /** The writes of an insertion while there is room. */
    method StoreAt(p: nat, e: Entity, source: Abstract) returns (ghost quote: Abstract)
      requires Linked() && quoBox.Valid() && p <= nCount < rules.limit
      requires |quoBox.cards| == nCount == FirstIndex(quoBox.cards, NO_DOCUMENT)
      modifies this`nCount, buffer, quoBox.Repr
      ensures quoBox.Valid() && nCount == old(nCount) + 1 && IsCut(source, quote)
      ensures buffer[..nCount] == Inserted(old(buffer[..nCount]), e, p, old(nCount))
      ensures quoBox.cards == old(quoBox.cards) + [Card(e.id, quote)]
    {
      hide IsCut, CutBy, Abstracts.Valid;
      ghost var ents := buffer[..nCount];
      var ok;
      ok, quote := quoBox.Set(e.id, source, NO_DOCUMENT);
      assert ok;
      assert buffer[..p] == ents[..p] && buffer[p..nCount] == ents[p..];
      PutAt(p, nCount, e);
      nCount := nCount + 1;
    }

    /** The writes of an insertion into a full buffer: the last document falls out. */
    method StoreAndDropLast(p: nat, e: Entity, source: Abstract) returns (ghost quote: Abstract)
      requires Linked() && quoBox.Valid() && p < nCount == rules.limit
      requires FirstIndex(quoBox.cards, buffer[nCount - 1].id) < |quoBox.cards|
      modifies buffer, quoBox.Repr
      ensures quoBox.Valid() && IsCut(source, quote)
      ensures buffer[..nCount] == Inserted(old(buffer[..nCount]), e, p, nCount - 1)
      ensures quoBox.cards ==
              old(quoBox.cards)[old(FirstIndex(quoBox.cards, buffer[nCount - 1].id)) := Card(e.id, quote)]
    {
      hide IsCut, CutBy, Abstracts.Valid;
      ghost var ents := buffer[..nCount];
      var ok;
      ok, quote := quoBox.Set(e.id, source, buffer[rules.limit - 1].id);
      assert ok;
      assert buffer[..p] == ents[..p] && buffer[p..nCount - 1] == ents[p..nCount - 1];
      PutAt(p, rules.limit - 1, e);
    }

    /** One pass of the merge loop. `stop` is its `break`: the place is behind a full buffer. */
    method InsertOne(e: Entity, source: Abstract, dst: nat, ghost d: Holding, ghost sEnts: seq<Entity>,
                     ghost sCards: seq<Card>, ghost src: nat) returns (p: nat, stop: bool)
      requires Joining(d, sEnts, sCards, src, dst) && src < |sEnts| && sEnts[src] == e
      requires Card(e.id, source) in sCards
      modifies this`nCount, buffer, quoBox.Repr
      ensures Linked() && quoBox.Valid() && nCount <= rules.limit
      ensures if stop then Blended(rules, d.ents, d.cards, sEnts, sCards, buffer[..nCount], quoBox.cards)
              else Joining(d, sEnts, sCards, src + 1, p)
    {
      hide IsBest, CardOrigin, IsCut, StrictOrder, BoxAgrees;
      p := SkipBetter(e, dst);
      SkippedBlends(rules, d, sEnts, sCards, src, buffer[..nCount], quoBox.cards, dst, p);
      PlaceFound(rules, d, sEnts, sCards, src, buffer[..nCount], quoBox.cards, p);
      BoxSize(buffer[..nCount], quoBox.cards);
      stop := p == rules.limit;
      if stop {
        BlendStops(rules, d, sEnts, sCards, src, buffer[..nCount], quoBox.cards);
      } else if nCount < rules.limit {
        InsertGrowing(p, e, source, d, sEnts, sCards, src);
      } else {
        InsertReplacing(p, e, source, d, sEnts, sCards, src);
      }
    }

    method InsertGrowing(p: nat, e: Entity, source: Abstract, ghost d: Holding, ghost sEnts: seq<Entity>,
                         ghost sCards: seq<Card>, ghost src: nat)
      requires Joining(d, sEnts, sCards, src, p) && src < |sEnts| && sEnts[src] == e
      requires Card(e.id, source) in sCards && nCount < rules.limit && |quoBox.cards| == nCount
      requires BelongsAt(rules.differ, buffer[..nCount], e, p)
      modifies this`nCount, buffer, quoBox.Repr
      ensures Joining(d, sEnts, sCards, src + 1, p)
    {
      hide IsBest, CardOrigin, IsCut, StrictOrder, BoxAgrees, SortedBy;
      ghost var ents, cards := buffer[..nCount], quoBox.cards;
      BlendedIds(rules, d, sEnts, sCards, src, ents, cards);
      NoCardForNobody(ents, cards);
      ghost var quote := StoreAt(p, e, source);
      BlendGrows(rules, d, sEnts, sCards, src, ents, cards, p, Card(e.id, source), quote);
      BlendingMoves(rules, ents, sEnts, src, p, buffer[..nCount]);
    }

    method InsertReplacing(p: nat, e: Entity, source: Abstract, ghost d: Holding, ghost sEnts: seq<Entity>,
                           ghost sCards: seq<Card>, ghost src: nat)
      requires Joining(d, sEnts, sCards, src, p) && src < |sEnts| && sEnts[src] == e
      requires Card(e.id, source) in sCards && p < nCount == rules.limit
      requires BelongsAt(rules.differ, buffer[..nCount], e, p)
      modifies buffer, quoBox.Repr
      ensures Joining(d, sEnts, sCards, src + 1, p)
    {
      hide IsBest, CardOrigin, IsCut, StrictOrder, BoxAgrees, SortedBy;
      ghost var ents, cards := buffer[..nCount], quoBox.cards;
      assert ents[nCount - 1].id in IdsOf(ents);
      CardOf(ents, cards, ents[nCount - 1].id);
      ghost var quote := StoreAndDropLast(p, e, source);
      BlendReplaces(rules, d, sEnts, sCards, src, ents, cards, p, Card(e.id, source), quote,
                    FirstIndex(cards, ents[nCount - 1].id));
      BlendingMoves(rules, ents, sEnts, src, p, buffer[..nCount]);
    }

    /** The merge loop over the sorted partial result. */
    method MergeLoop(docs: Collector, ghost d: Holding)
      requires docs.nCount <= docs.buffer.Length && docs.quoBox.Valid()
      requires Joining(d, docs.buffer[..docs.nCount], docs.quoBox.cards, 0, 0)
      requires Repr !! docs.quoBox.Repr + {docs, docs.buffer, docs.quoBox}
      modifies this`nCount, buffer, quoBox.Repr
      ensures Linked() && quoBox.Valid() && nCount <= rules.limit
      ensures Blended(rules, d.ents, d.cards, docs.buffer[..docs.nCount], docs.quoBox.cards,
                      buffer[..nCount], quoBox.cards)
    {
      hide Blended, Mergeable, Blending, BoxAgrees, StrictOrder, Abstracts.Valid, FirstIndex;
      ghost var sEnts, sCards := docs.buffer[..docs.nCount], docs.quoBox.cards;
      var dst, src, stop := 0, 0, false;
      BlendingDone(rules, d, sEnts, sCards, src, buffer[..nCount], quoBox.cards, dst);
      while src != docs.nCount && !stop
        invariant src <= docs.nCount == |sEnts|
        invariant docs.quoBox.Valid() && docs.buffer[..docs.nCount] == sEnts && docs.quoBox.cards == sCards
        invariant BoxAgrees(sEnts, sCards)
        invariant Linked() && quoBox.Valid() && nCount <= rules.limit
        invariant if stop then Blended(rules, d.ents, d.cards, sEnts, sCards, buffer[..nCount], quoBox.cards)
                  else Joining(d, sEnts, sCards, src, dst)
        decreases docs.nCount - src, !stop
      {
        var e := docs.buffer[src];
        var source := docs.quoBox.Get(e.id);
        CardThere(sEnts, sCards, src);
        assert source.Some?;
        dst, stop := InsertOne(e, source.value, dst, d, sEnts, sCards, src);
        if !stop {
          src := src + 1;
        }
      }
      if !stop {
        BlendingDone(rules, d, sEnts, sCards, src, buffer[..nCount], quoBox.cards, dst);
      }
    }

    /** `Insert( docs )`: pours a partial result into this one. */
    method InsertAll(docs: Collector)
      requires Valid() && pWorst == None && docs.Intact() && rules == docs.rules
      requires SortedBy(rules.differ, buffer[..nCount])
      requires Repr !! docs.Repr && DisjointIds(seen, docs.seen)
      modifies Repr, docs.buffer
      ensures Valid() && pWorst == None && seen == old(seen) + old(docs.seen)
      ensures MergedInto(rules, old(Contents()), old(docs.Contents()), Contents())
    {
      hide Collected, QuotesBy, Blended, Mergeable, Blending, GoodHits, StrictOrder, Abstracts.Valid;
      ghost var d, s := Contents(), docs.Contents();
      docs.SortBuffer();
      StartMerge(docs);
      MergeLoop(docs, d);
      nFound := nFound + docs.nFound;
      MergedSource(rules, d, s, docs.buffer[..docs.nCount], Contents());
      MergeCollects(rules, seen, docs.seen, d, s, Contents());
      MergedQuotesBy(StoredOrder, rules, seen, docs.seen, d, s, Contents());
      seen := seen + docs.seen;
    }

    // -------------------------------------------------------------------------------------
    // Search
    // -------------------------------------------------------------------------------------

    /** `Search( query )`: one pass, or sections searched apart and merged in any order. */
    method Search(query: Query, async: bool)
      requires Valid() && seen == {} && nCount == 0 && pWorst == None && query.Valid()
      requires GoodHits(rules.bound, RatedOf(query.hits))
      requires async ==> query.last <= 0xFFFF_C000
      modifies Repr
      ensures Valid() && seen == RatedOf(query.hits)
      ensures forall h :: h in seen <==> h in query.hits && (h.tuples.BM25? || h.tuples.Rich?)
    {
      hide Collected, QuotesBy, StrictOrder, GoodHits, IsSection, IsWorst, Abstracts.Valid;
      if async && query.last > SECTION * 4 {
        var parts := Share(query);
        PartsOfHits(parts);
        SearchParts(parts);
      } else {
        assert seen + RatedOf(query.hits) == RatedOf(query.hits);
        var _ := SearchLinear(query);
      }
      forall h ensures h in RatedOf(query.hits) <==> h in query.hits && (h.tuples.BM25? || h.tuples.Rich?) {
        RatedExactly(query.hits, h);
      }
    }

    /** Every sub-query gets a collector of its own; the partial results come in in any order. */
    method SearchParts(parts: seq<Query>)
      requires Valid() && seen == {} && nCount == 0 && pWorst == None
      requires forall i :: 0 <= i < |parts| ==> parts[i].Valid()
      requires Apart(parts) && GoodHits(rules.bound, HitsOf(parts))
      modifies Repr
      ensures Valid() && seen == HitsOf(parts)
    {
      hide Collected, QuotesBy, GoodHits, IsWorst, StrictOrder, Abstracts.Valid;
      var pending := parts;
      while pending != []
        invariant Valid() && pWorst == None && SortedBy(rules.differ, buffer[..nCount])
        invariant forall i :: 0 <= i < |pending| ==> pending[i].Valid()
        invariant Apart(pending) && seen !! HitsOf(pending) && seen + HitsOf(pending) == HitsOf(parts)
        decreases |pending|
      {
        var k :| 0 <= k < |pending|;
        TakePart(pending, k);
        SearchPart(pending[k], HitsOf(parts));
        pending := pending[..k] + pending[k + 1..];
      }
    }

    /** The work of one executor thread. */
    method SearchPart(part: Query, ghost all: set<Hit>)
      requires Valid() && pWorst == None && SortedBy(rules.differ, buffer[..nCount]) && part.Valid()
      requires seen !! RatedOf(part.hits) && seen + RatedOf(part.hits) <= all && GoodHits(rules.bound, all)
      modifies Repr
      ensures Valid() && pWorst == None && SortedBy(rules.differ, buffer[..nCount])
      ensures seen == old(seen) + RatedOf(part.hits)
    {
      hide Collected, QuotesBy, IsWorst, StrictOrder, Abstracts.Valid;
      GoodSubset(rules.bound, RatedOf(part.hits), all);
      var subStore, any := SearchSubStore(part);
      if any {
        InsertAll(subStore);
      }
    }

    /** A collector with the same settings searches a section. */
    method SearchSubStore(part: Query) returns (subStore: Collector, any: bool)
      requires Linked() && part.Valid() && GoodHits(rules.bound, RatedOf(part.hits))
      ensures fresh(subStore.Repr) && subStore.Valid() && subStore.rules == rules
      ensures subStore.seen == RatedOf(part.hits) && (!any ==> subStore.seen == {})
    {
      hide Collected, QuotesBy, GoodHits, IsWorst, StrictOrder, Abstracts.Valid;
      subStore := new Collector(nFirst, rules.limit - nFirst + 1, rules.differ, rules.ranker, rules.bound);
      assert subStore.seen + RatedOf(part.hits) == RatedOf(part.hits);
      any := subStore.SearchLinear(part);
      FoundIsSeen(rules, subStore.seen, subStore.Contents());
    }

    // -------------------------------------------------------------------------------------
    // The report
    // -------------------------------------------------------------------------------------

    /** `Finish`: sorts the buffer and reports the requested page, if the documents found reach it. */
    method Finish(quoting: bool) returns (report: Report)
      requires Intact()
      modifies buffer
      ensures Intact() && seen == old(seen) && report.first == nFirst && report.found == |seen|
      ensures report.page.Some? <==> Min(|seen|, rules.limit) >= nFirst
      ensures report.page.Some? ==> forall ranking :: IsRanking(rules.differ, rules.Entities(seen), ranking) ==>
                && |ranking| == |seen|
                && LinesShow(report.page.value, Page(ranking, nFirst, rules.limit), quoBox.cards, quoting)
    {
      hide Collected, QuotesBy, IsRanking, LinesShow, StrictOrder;
      FoundIsSeen(rules, seen, Contents());
      report := Report(nFirst, nFound, None);
      if nCount >= nFirst {
        SortBuffer();
        var page := Lines(quoting);
        report := Report(nFirst, nFound, Some(page));
        forall ranking | IsRanking(rules.differ, rules.Entities(seen), ranking)
          ensures |ranking| == |seen| && LinesShow(page, Page(ranking, nFirst, rules.limit), quoBox.cards, quoting)
        {
          BufferIsPrefix(rules, seen, Contents(), ranking);
          assert buffer[..nCount][nFirst - 1..] == Page(ranking, nFirst, rules.limit);
        }
      }
    }

    method LineOf(i: nat, quoting: bool) returns (line: Line)
      requires Intact() && i < nCount
      ensures LinesShow([line], [buffer[i]], quoBox.cards, quoting)
    {
      hide IsBest, QuotesFaithful, QuotesBy;
      var quoted := None;
      if quoting {
        quoted := quoBox.Get(buffer[i].id);
        CardThere(buffer[..nCount], quoBox.cards, i);
      }
      line := Line(buffer[i].id, buffer[i].weight, quoted);
    }

    method Lines(quoting: bool) returns (page: seq<Line>)
      requires Intact() && nFirst <= nCount
      ensures LinesShow(page, buffer[..nCount][nFirst - 1..], quoBox.cards, quoting)
    {
      hide Collected, QuotesBy, GoodHits, StrictOrder, Abstracts.Valid;
      page := [];
      var beg := nFirst - 1;
      while beg != nCount
        invariant nFirst - 1 <= beg <= nCount
        invariant LinesShow(page, buffer[..nCount][nFirst - 1..beg], quoBox.cards, quoting)
      {
        var line := LineOf(beg, quoting);
        page := page + [line];
        assert buffer[..nCount][nFirst - 1..beg + 1] == buffer[..nCount][nFirst - 1..beg] + [buffer[beg]];
        beg := beg + 1;
      }
    }

    /** Before the merge: the sorted partial result has ids of its own, and the buffer is its own best part. */
    lemma StartMerge(docs: Collector)
      requires Valid() && docs.Intact() && rules == docs.rules
      requires SortedBy(rules.differ, buffer[..nCount]) && SortedBy(rules.differ, docs.buffer[..docs.nCount])
      requires DisjointIds(seen, docs.seen)
      ensures Joining(Contents(), docs.buffer[..docs.nCount], docs.quoBox.cards, 0, 0)
    {
      hide IsBest, IsCut, Faithful, QuotesBy, StrictOrder;
      StartBlending(rules, seen, docs.seen, Contents(), docs.Contents());
    }
  }

  lemma StartBlending(rules: Rules, a: set<Hit>, b: set<Hit>, d: Holding, s: Holding)
    requires rules.Sound() && GoodHits(rules.bound, a) && GoodHits(rules.bound, b) && DisjointIds(a, b)
    requires Collected(rules, a, d) && Collected(rules, b, s)
    requires SortedBy(rules.differ, d.ents) && SortedBy(rules.differ, s.ents)
    ensures Mergeable(rules, d.ents, s.ents)
    ensures Blending(rules, d, s.ents, s.cards, 0, d.ents, d.cards, 0)
  {
    CollectedIds(rules, a, d);
    CollectedIds(rules, b, s);
    DisjointBuffers(a, b, d.ents, s.ents);
    hide StrictOrder, QuotesFaithful, SortedBy;
    assert s.ents[..0] == [] && Elems([]) == {};
    assert Elems(d.ents) + Elems([]) == Elems(d.ents);
    BestOfItself(rules.differ, rules.Entities(a), Elems(d.ents), rules.limit);
  }

  lemma DisjointBuffers(a: set<Hit>, b: set<Hit>, s: seq<Entity>, t: seq<Entity>)
    requires DisjointIds(a, b)
    requires forall id :: id in IdsOf(s) ==> exists h :: h in a && h.id == id
    requires forall id :: id in IdsOf(t) ==> exists h :: h in b && h.id == id
    ensures IdsOf(s) !! IdsOf(t)
  {
    forall id | id in IdsOf(s) ensures id !in IdsOf(t) {
      var x :| x in a && x.id == id;
    }
  }

  lemma BestOfItself(differ: Differ, all: set<Entity>, best: set<Entity>, k: nat)
    requires IsBest(differ, all, best, k)
    ensures IsBest(differ, best, best, k)
  {
    SubsetSize(best, all);
  }

  /** At the end of the partial result everything has been blended in. */
  lemma BlendingDone(rules: Rules, d: Holding, sEnts: seq<Entity>, sCards: seq<Card>, src: nat,
                     ents: seq<Entity>, cards: seq<Card>, dst: nat)
    requires Blending(rules, d, sEnts, sCards, src, ents, cards, dst)
    ensures src == |sEnts| ==> Blended(rules, d.ents, d.cards, sEnts, sCards, ents, cards)
  {
    assert sEnts[..|sEnts|] == sEnts;
  }

  /** Every document of the partial result has its abstract in the partial box. */
  lemma CardThere(sEnts: seq<Entity>, sCards: seq<Card>, src: nat)
    requires BoxAgrees(sEnts, sCards) && src < |sEnts|
    ensures var i := FirstIndex(sCards, sEnts[src].id);
            i < |sCards| && sCards[i] == Card(sEnts[src].id, sCards[i].quote) && sCards[i] in sCards
  {
    assert sEnts[src].id in IdsOf(sEnts);
    CardOf(sEnts, sCards, sEnts[src].id);
  }

  /** The documents from position `first` (counted from 1) to position `last` of the ranking. */
  function Page(ranking: seq<Entity>, first: nat, last: nat): seq<Entity>
    requires first >= 1
  {
    if first - 1 <= Min(|ranking|, last) then ranking[first - 1..Min(|ranking|, last)] else []
  }

  /** A line of the report shows a document, its rank, and, when quotes are wanted, its stored abstract. */
  ghost predicate LinesShow(lines: seq<Line>, ents: seq<Entity>, cards: seq<Card>, quoting: bool) {
    && |lines| == |ents|
    && forall i :: 0 <= i < |lines| ==>
         && lines[i].index == ents[i].id && lines[i].range == ents[i].weight
         && (quoting <==> lines[i].quoted.Some?)
         && (quoting ==> Card(ents[i].id, lines[i].quoted.value) in cards)
  }

  lemma FoundIsSeen(rules: Rules, seen: set<Hit>, s: Holding)
    requires GoodHits(rules.bound, seen) && Collected(rules, seen, s)
    ensures s.found == |seen| && |s.ents| == Min(|seen|, rules.limit)
    ensures s.found == 0 ==> seen == {}
  {
    EntityCount(rules, seen);
    BoxSize(s.ents, s.cards);
  }

  /** The sorted buffer is the beginning of the ranking of everything found. */
  lemma BufferIsPrefix(rules: Rules, seen: set<Hit>, s: Holding, ranking: seq<Entity>)
    requires rules.Sound() && GoodHits(rules.bound, seen) && Collected(rules, seen, s)
    requires SortedBy(rules.differ, s.ents) && IsRanking(rules.differ, rules.Entities(seen), ranking)
    ensures |ranking| == |seen| && s.ents == ranking[..Min(|ranking|, rules.limit)]
  {
    EntityCount(rules, seen);
    BoxSize(s.ents, s.cards);
    BestIsPrefix(rules.differ, rules.bound, rules.Entities(seen), ranking, s.ents, rules.limit);
  }

  /** Two collectors that have seen the same hits, one in a single pass and one in sections merged in any order,
      hold the same documents, the same count and, ties apart, the same quotes: of every abstract, because the store
      sorts the same entries alike. */
  lemma CollectorsAgree(a: Collector, b: Collector)
    requires a.Intact() && b.Intact() && a.rules == b.rules && a.seen == b.seen
    ensures Elems(a.buffer[..a.nCount]) == Elems(b.buffer[..b.nCount])
    ensures a.nCount == b.nCount && a.nFound == b.nFound
    ensures forall h :: h in a.seen ==> QuoteAgrees(a.Contents(), b.Contents(), h.id)
  {
    hide Collected, QuotesBy, GoodHits, StrictOrder, Abstracts.Valid, Same, Settled;
    CollectionsAgree(a.rules, a.seen, a.Contents(), b.Contents());
    OneSortAgrees(StoredOrder, a.seen, a.Contents(), b.Contents());
  }

  /** There always is a ranking. */
  lemma {:induction false} RankingExists(rules: Rules, all: set<Entity>) returns (ranking: seq<Entity>)
    requires rules.Sound() && IdsBelow(all, rules.bound) && UniqueIds(all)
    ensures IsRanking(rules.differ, all, ranking)
  {
    var s := Listed(all);
    SortSortsBuffer(rules.differ, rules.bound, s);
    ranking := Sort(InOrder(rules.differ), s);
  }

  lemma {:induction false} Listed(all: set<Entity>) returns (s: seq<Entity>)
    requires UniqueIds(all)
    ensures Elems(s) == all && |s| == |all| && DistinctIds(s)
    decreases |all|
  {
    s := [];
    if all != {} {
      var e :| e in all;
      var t := Listed(all - {e});
      forall i | 0 <= i < |t| ensures t[i].id != e.id {
        assert t[i] in Elems(t);
      }
      s := [e] + t;
      assert Elems(s) == Elems(t) + {e};
    }
  }

  lemma CollectedIds(rules: Rules, seen: set<Hit>, s: Holding)
    requires Collected(rules, seen, s) && GoodHits(rules.bound, seen)
    ensures IdsBelow(Elems(s.ents), rules.bound)
    ensures forall id :: id in IdsOf(s.ents) ==> exists h :: h in seen && h.id == id
  {
    forall id | id in IdsOf(s.ents) ensures exists h :: h in seen && h.id == id {
      var e :| e in s.ents && e.id == id;
      assert e in Elems(s.ents);
      var h :| h in seen && rules.EntityOf(h) == e;
    }
  }

  lemma MergedSource(rules: Rules, d: Holding, s: Holding, sEnts: seq<Entity>, r: Holding)
    requires Elems(sEnts) == Elems(s.ents) && r.found == d.found + s.found
    requires Blended(rules, d.ents, d.cards, sEnts, s.cards, r.ents, r.cards)
    ensures MergedInto(rules, d, s, r)
  {
  }

  lemma GoodSubset(bound: nat, a: set<Hit>, b: set<Hit>)
    requires a <= b && GoodHits(bound, b)
    ensures GoodHits(bound, a)
  {
  }

  /** The hit under the cursor is new, and seeing it extends what was seen by one place of the query. */
  lemma VisitedHit(query: Query, i: nat, before: set<Hit>, bound: nat)
    requires query.Valid() && i < |query.hits|
    requires before !! RatedOf(query.hits) && GoodHits(bound, before + RatedOf(query.hits))
    ensures Hit(query.hits[i].id, query.GetTuples(query.hits[i].id)) == query.hits[i]
    ensures Rated(query.hits[i]) ==>
              && query.hits[i] !in before + RatedOf(query.hits[..i])
              && GoodHits(bound, before + RatedOf(query.hits[..i]) + {query.hits[i]})
    ensures before + RatedOf(query.hits[..i + 1]) ==
            before + RatedOf(query.hits[..i]) + if Rated(query.hits[i]) then {query.hits[i]} else {}
  {
    query.CursorSteps(i);
    RatedStep(query, i);
    if Rated(query.hits[i]) {
      GoodSubset(bound, before + RatedOf(query.hits[..i]) + {query.hits[i]}, before + RatedOf(query.hits));
    }
  }

  lemma RatedStep(query: Query, i: nat)
    requires query.Valid() && i < |query.hits|
    ensures RatedOf(query.hits[..i + 1]) ==
            RatedOf(query.hits[..i]) + if Rated(query.hits[i]) then {query.hits[i]} else {}
    ensures query.hits[i] !in RatedOf(query.hits[..i])
    ensures RatedOf(query.hits[..i]) <= RatedOf(query.hits)
    ensures Rated(query.hits[i]) ==> query.hits[i] in RatedOf(query.hits)
  {
  }
}
