/** Queries, hits, and what a collector of src/service/collect-docs.cpp holds after it has seen some hits:
    the relations that the collector's methods establish, and how they compose. */
module Collection {
  import opened Basics
  import opened Ranking
  import opened Quotes
  import opened Exchange
  import opened QuoteBox

  type Ranker = (nat, Abstract) -> real

  datatype Hit = Hit(id: nat, tuples: Abstract)

  /** A search result as a cursor sees it: hits in ascending id order, all below `last`. */
  datatype Query = Query(hits: seq<Hit>, last: nat) {
    ghost predicate Valid() {
      && (forall i :: 0 <= i < |hits| ==> 0 < hits[i].id < 0xFFFF_FFFF && hits[i].id < last)
      && (forall i, j :: 0 <= i < j < |hits| ==> hits[i].id < hits[j].id)
    }

    /** Index of the first hit with an id of at least `n`. */
    function Seek(n: nat, from: nat): (i: nat)
      requires from <= |hits|
      ensures from <= i <= |hits|
      ensures i < |hits| ==> hits[i].id >= n
      ensures forall j :: from <= j < i ==> hits[j].id < n
      decreases |hits| - from
    {
      if from < |hits| && hits[from].id < n then Seek(n, from + 1) else from
    }

    function SearchDoc(n: nat): nat {
      var i := Seek(n, 0);
      if i < |hits| then hits[i].id else NO_DOCUMENT
    }

    function GetTuples(id: nat): Abstract {
      var i := Seek(id, 0);
      if i < |hits| && hits[i].id == id then hits[i].tuples else Blank(0)
    }

    /** Where the cursor stands after `i` steps. */
    ghost function IdAt(i: nat): nat
      requires i <= |hits|
    {
      if i < |hits| then hits[i].id else NO_DOCUMENT
    }

    /** The cursor steps from one hit to the next, and past the last one to "no document". */
    lemma CursorSteps(i: nat)
      requires Valid() && i <= |hits|
      ensures i == 0 ==> SearchDoc(1) == IdAt(0)
      ensures i > 0 ==> SearchDoc(hits[i - 1].id + 1) == IdAt(i)
      ensures i < |hits| <==> IdAt(i) != NO_DOCUMENT
      ensures i < |hits| ==> Hit(IdAt(i), GetTuples(IdAt(i))) == hits[i]
    {
    }
  }

  /** The parameters of a collector: comparator, ranker, buffer size; ids lie below `bound`. */
  datatype Rules = Rules(differ: Differ, ranker: Ranker, limit: nat, bound: nat) {
    ghost predicate Sound() {
      limit >= 1 && bound <= NO_DOCUMENT && StrictOrder(differ, bound)
    }

    function EntityOf(h: Hit): Entity {
      Entity(h.id, ranker(h.id, h.tuples))
    }

    ghost function Entities(seen: set<Hit>): set<Entity> {
      set h | h in seen :: EntityOf(h)
    }
  }

  /** Hits whose abstract is empty are skipped. */
  predicate Rated(h: Hit) {
    !h.tuples.Blank?
  }

  ghost function RatedOf(hits: seq<Hit>): set<Hit> {
    set h | h in hits && Rated(h)
  }

  /** A hit counts if it has an abstract, of either kind. */
  lemma RatedExactly(hits: seq<Hit>, h: Hit)
    ensures h in RatedOf(hits) <==> h in hits && (h.tuples.BM25? || h.tuples.Rich?)
  {
  }

  ghost predicate GoodHits(bound: nat, seen: set<Hit>) {
    && (forall h :: h in seen ==> Rated(h) && 0 < h.id < bound)
    && (forall a, b :: a in seen && b in seen && a.id == b.id ==> a == b)
  }

  ghost predicate DisjointIds(a: set<Hit>, b: set<Hit>) {
    forall x, y :: x in a && y in b ==> x.id != y.id
  }

  ghost function IdsOf(ents: seq<Entity>): set<nat> {
    set e | e in ents :: e.id
  }

  ghost function CardIds(cards: seq<Card>): set<nat> {
    set c | c in cards :: c.id
  }

  ghost predicate DistinctCards(cards: seq<Card>) {
    forall i, j :: 0 <= i < j < |cards| ==> cards[i].id != cards[j].id
  }

  /** The quote box holds exactly one card for each document in the buffer. */
  ghost predicate BoxAgrees(ents: seq<Entity>, cards: seq<Card>) {
    DistinctCards(cards) && DistinctIds(ents) && CardIds(cards) == IdsOf(ents)
  }

  /** Every card is a copy of the abstract that the query returned for the document. */
  ghost predicate QuotesFaithful(seen: set<Hit>, cards: seq<Card>) {
    forall h, c :: h in seen && c in cards && h.id == c.id ==> Faithful(h.tuples, c.quote)
  }

  /** The contents of a collector. */
  datatype Holding = Holding(ents: seq<Entity>, found: nat, cards: seq<Card>)

  const EMPTY := Holding([], 0, [])

  /** `s` holds the best `limit` of the hits `seen`, their quotes, and the number of all hits. */
  ghost predicate Collected(rules: Rules, seen: set<Hit>, s: Holding) {
    && BoxAgrees(s.ents, s.cards)
    && QuotesFaithful(seen, s.cards)
    && s.found == |seen|
    && IsBest(rules.differ, rules.Entities(seen), Elems(s.ents), rules.limit)
  }

  lemma CollectedNothing(rules: Rules)
    ensures Collected(rules, {}, EMPTY)
  {
  }

  // ---------------------------------------------------------------------------------------
  // Sizes
  // ---------------------------------------------------------------------------------------

  lemma {:induction false} EntityCount(rules: Rules, seen: set<Hit>)
    requires GoodHits(rules.bound, seen)
    ensures |rules.Entities(seen)| == |seen|
    ensures IdsBelow(rules.Entities(seen), rules.bound) && UniqueIds(rules.Entities(seen))
    decreases |seen|
  {
    if seen == {} {
      assert rules.Entities(seen) == {};
    } else {
      var h :| h in seen;
      EntityCount(rules, seen - {h});
      assert rules.Entities(seen) == rules.Entities(seen - {h}) + {rules.EntityOf(h)};
      assert rules.EntityOf(h) !in rules.Entities(seen - {h});
    }
  }

  lemma {:induction false} IdCount(ents: seq<Entity>)
    requires DistinctIds(ents)
    ensures |IdsOf(ents)| == |ents|
  {
    if ents != [] {
      var n := |ents| - 1;
      IdCount(ents[..n]);
      assert IdsOf(ents) == IdsOf(ents[..n]) + {ents[n].id};
    }
  }

  lemma {:induction false} CardCount(cards: seq<Card>)
    requires DistinctCards(cards)
    ensures |CardIds(cards)| == |cards|
  {
    if cards != [] {
      var n := |cards| - 1;
      CardCount(cards[..n]);
      assert CardIds(cards) == CardIds(cards[..n]) + {cards[n].id};
    }
  }

  /** A box that agrees with the buffer is exactly as full, so it never overflows before the buffer. */
  lemma BoxSize(ents: seq<Entity>, cards: seq<Card>)
    requires BoxAgrees(ents, cards)
    ensures |cards| == |ents| == |Elems(ents)|
  {
    IdCount(ents);
    CardCount(cards);
    DistinctCount(ents);
  }

  lemma CardOf(ents: seq<Entity>, cards: seq<Card>, id: nat)
    requires BoxAgrees(ents, cards)
    ensures id in IdsOf(ents) <==> FirstIndex(cards, id) < |cards|
  {
  }

  /** No document has the id that stands for "no document", so storing without a predecessor never replaces. */
  lemma NoCardForNobody(ents: seq<Entity>, cards: seq<Card>)
    requires BoxAgrees(ents, cards) && forall e :: e in ents ==> e.id < NO_DOCUMENT
    ensures FirstIndex(cards, NO_DOCUMENT) == |cards|
  {
    CardOf(ents, cards, NO_DOCUMENT);
  }

  ghost function IdsUpTo(n: nat): (ids: set<nat>)
    ensures forall i :: i in ids <==> 0 < i < n
    ensures |ids| == if n == 0 then 0 else n - 1
  {
    if n <= 1 then {} else IdsUpTo(n - 1) + {n - 1}
  }

  lemma {:induction false} HitIdCount(bound: nat, seen: set<Hit>)
    requires GoodHits(bound, seen)
    ensures |set h | h in seen :: h.id| == |seen|
    decreases |seen|
  {
    if h :| h in seen {
      HitIdCount(bound, seen - {h});
      assert (set x | x in seen :: x.id) == (set x | x in seen - {h} :: x.id) + {h.id};
    } else {
      assert (set x | x in seen :: x.id) == {};
    }
  }

  /** The 32-bit counter of found documents cannot wrap: there are fewer hits than ids. */
  lemma FoundFits(rules: Rules, seen: set<Hit>, s: Holding)
    requires rules.Sound() && GoodHits(rules.bound, seen) && Collected(rules, seen, s)
    ensures s.found < WORD32
  {
    var ids := set h | h in seen :: h.id;
    HitIdCount(rules.bound, seen);
    SubsetSize(ids, IdsUpTo(rules.bound));
  }

  // ---------------------------------------------------------------------------------------
  // Box steps
  // ---------------------------------------------------------------------------------------

  lemma BoxGrows(ents: seq<Entity>, cards: seq<Card>, e: Entity, quote: Abstract)
    requires BoxAgrees(ents, cards) && e.id !in IdsOf(ents)
    ensures BoxAgrees(ents + [e], cards + [Card(e.id, quote)])
  {
    assert IdsOf(ents + [e]) == IdsOf(ents) + {e.id};
    assert CardIds(cards + [Card(e.id, quote)]) == CardIds(cards) + {e.id};
    forall i | 0 <= i < |cards| ensures cards[i].id != e.id {
      assert cards[i].id in CardIds(cards);
    }
    forall i | 0 <= i < |ents| ensures ents[i].id != e.id {
      assert ents[i].id in IdsOf(ents);
    }
  }

  lemma CardIdsReplaced(cards: seq<Card>, i: nat, card: Card)
    requires DistinctCards(cards) && i < |cards| && card.id !in CardIds(cards)
    ensures DistinctCards(cards[i := card])
    ensures CardIds(cards[i := card]) == CardIds(cards) - {cards[i].id} + {card.id}
  {
    var r := cards[i := card];
    forall k | 0 <= k < |cards| ensures cards[k].id != card.id {
      assert cards[k].id in CardIds(cards);
    }
    forall id ensures id in CardIds(r) <==> id in CardIds(cards) - {cards[i].id} + {card.id} {
      if id in CardIds(r) {
        var k :| 0 <= k < |r| && r[k].id == id;
        assert k != i ==> r[k] in cards && cards[k].id != cards[i].id;
      }
      if id in CardIds(cards) && id != cards[i].id {
        var k :| 0 <= k < |cards| && cards[k].id == id;
        assert r[k] in r;
      }
      assert r[i] in r;
    }
  }

  lemma EntIdsReplaced(ents: seq<Entity>, i: nat, e: Entity)
    requires DistinctIds(ents) && i < |ents| && e.id !in IdsOf(ents)
    ensures DistinctIds(ents[i := e])
    ensures IdsOf(ents[i := e]) == IdsOf(ents) - {ents[i].id} + {e.id}
    ensures Elems(ents[i := e]) == Elems(ents) - {ents[i]} + {e}
  {
    var r := ents[i := e];
    forall k | 0 <= k < |ents| ensures ents[k].id != e.id {
      assert ents[k].id in IdsOf(ents);
    }
    assert r[i] in r;
    forall x ensures x in Elems(r) <==> x in Elems(ents) - {ents[i]} + {e} {
      if x in Elems(ents) && x != ents[i] {
        var k :| 0 <= k < |ents| && ents[k] == x;
        assert r[k] in r;
      }
    }
    forall id ensures id in IdsOf(r) <==> id in IdsOf(ents) - {ents[i].id} + {e.id} {
      if id in IdsOf(ents) && id != ents[i].id {
        var k :| 0 <= k < |ents| && ents[k].id == id;
        assert r[k] in r;
      }
      if id in IdsOf(r) {
        var k :| 0 <= k < |r| && r[k].id == id;
        assert k != i ==> ents[k] in ents && ents[k].id != ents[i].id;
      }
    }
  }

  // ---------------------------------------------------------------------------------------
  // Streaming one hit into the collector
  // ---------------------------------------------------------------------------------------

  lemma EntitiesPlus(rules: Rules, seen: set<Hit>, h: Hit)
    requires GoodHits(rules.bound, seen + {h}) && h !in seen
    ensures rules.Entities(seen + {h}) == rules.Entities(seen) + {rules.EntityOf(h)}
    ensures rules.EntityOf(h) !in rules.Entities(seen)
    ensures IdsBelow(rules.Entities(seen + {h}), rules.bound)
  {
  }

  lemma NewId(rules: Rules, seen: set<Hit>, s: Holding, h: Hit)
    requires Collected(rules, seen, s) && GoodHits(rules.bound, seen + {h}) && h !in seen
    ensures h.id !in IdsOf(s.ents)
    ensures forall e :: e in s.ents ==> e.id < rules.bound
  {
    forall e | e in s.ents ensures e.id != h.id && e.id < rules.bound {
      assert e in Elems(s.ents);
    }
  }

  /** The quote box has room, and no card of "no document", whenever the buffer has room. */
  lemma BoxHasRoom(rules: Rules, seen: set<Hit>, s: Holding, h: Hit)
    requires rules.Sound() && Collected(rules, seen, s) && GoodHits(rules.bound, seen + {h}) && h !in seen
    ensures |s.cards| == |s.ents| == FirstIndex(s.cards, NO_DOCUMENT)
  {
    NewId(rules, seen, s, h);
    BoxSize(s.ents, s.cards);
    NoCardForNobody(s.ents, s.cards);
  }

  /** Every document in the buffer has a card to be replaced. */
  lemma BoxHasCard(rules: Rules, seen: set<Hit>, s: Holding, w: nat)
    requires Collected(rules, seen, s) && w < |s.ents|
    ensures FirstIndex(s.cards, s.ents[w].id) < |s.cards|
  {
    assert s.ents[w].id in IdsOf(s.ents);
    CardOf(s.ents, s.cards, s.ents[w].id);
  }

  lemma FaithfulPlus(seen: set<Hit>, cards: seq<Card>, cards': seq<Card>, h: Hit, quote: Abstract)
    requires QuotesFaithful(seen, cards) && IsCut(h.tuples, quote)
    requires forall c :: c in cards' ==> c in cards || c == Card(h.id, quote)
    requires h.id !in CardIds(cards) && forall x :: x in seen ==> x.id != h.id
    ensures QuotesFaithful(seen + {h}, cards')
  {
    CutIsFaithful(h.tuples, quote);
    forall x, c | x in seen + {h} && c in cards' && x.id == c.id ensures Faithful(x.tuples, c.quote) {
      if c in cards { assert c.id in CardIds(cards); }
    }
  }

  /** The buffer is not full: the hit is appended. */
  lemma HitAppended(rules: Rules, seen: set<Hit>, s: Holding, h: Hit, quote: Abstract)
    requires GoodHits(rules.bound, seen + {h}) && h !in seen
    requires Collected(rules, seen, s) && |s.ents| < rules.limit && IsCut(h.tuples, quote)
    ensures Collected(rules, seen + {h},
                      Holding(s.ents + [rules.EntityOf(h)], s.found + 1, s.cards + [Card(h.id, quote)]))
  {
    hide Faithful, IsCut, IsBest;
    var e := rules.EntityOf(h);
    EntitiesPlus(rules, seen, h);
    NewId(rules, seen, s, h);
    BoxSize(s.ents, s.cards);
    BoxGrows(s.ents, s.cards, e, quote);
    BestGrows(rules.differ, rules.Entities(seen), Elems(s.ents), rules.limit, e);
    assert Elems(s.ents + [e]) == Elems(s.ents) + {e};
    FaithfulPlus(seen, s.cards, s.cards + [Card(h.id, quote)], h, quote);
  }

  ghost predicate IsWorst(differ: Differ, ents: seq<Entity>, w: nat) {
    w < |ents| && forall i :: 0 <= i < |ents| && i != w ==> Before(differ, ents[i], ents[w])
  }

  lemma ReplacedBox(ents: seq<Entity>, cards: seq<Card>, w: nat, i: nat, e: Entity, quote: Abstract)
    requires BoxAgrees(ents, cards) && w < |ents| && e.id !in IdsOf(ents)
    requires i == FirstIndex(cards, ents[w].id) < |cards|
    ensures BoxAgrees(ents[w := e], cards[i := Card(e.id, quote)])
    ensures Elems(ents[w := e]) == Elems(ents) - {ents[w]} + {e}
  {
    EntIdsReplaced(ents, w, e);
    CardIdsReplaced(cards, i, Card(e.id, quote));
  }

  lemma ReplacedBest(rules: Rules, all: set<Entity>, ents: seq<Entity>, e: Entity, w: nat)
    requires rules.Sound() && IdsBelow(all + {e}, rules.bound) && e !in all
    requires DistinctIds(ents) && IsBest(rules.differ, all, Elems(ents), rules.limit) && |ents| == rules.limit
    requires IsWorst(rules.differ, ents, w) && Before(rules.differ, e, ents[w])
    ensures IsBest(rules.differ, all + {e}, Elems(ents) - {ents[w]} + {e}, rules.limit)
  {
    DistinctCount(ents);
    forall t | t in Elems(ents) && t != ents[w] ensures Before(rules.differ, t, ents[w]) {
      var k :| 0 <= k < |ents| && ents[k] == t;
    }
    BestReplaces(rules.differ, rules.bound, all, Elems(ents), rules.limit, e, ents[w]);
  }

  /** The buffer is full and the hit beats the worst document, which it replaces. */
  lemma HitReplaces(rules: Rules, seen: set<Hit>, s: Holding, h: Hit, quote: Abstract, w: nat, i: nat)
    requires rules.Sound() && GoodHits(rules.bound, seen + {h}) && h !in seen
    requires Collected(rules, seen, s) && |s.ents| == rules.limit && IsCut(h.tuples, quote)
    requires IsWorst(rules.differ, s.ents, w) && Before(rules.differ, rules.EntityOf(h), s.ents[w])
    requires i == FirstIndex(s.cards, s.ents[w].id) < |s.cards|
    ensures Collected(rules, seen + {h},
                      Holding(s.ents[w := rules.EntityOf(h)], s.found + 1, s.cards[i := Card(h.id, quote)]))
  {
    hide Faithful, IsCut, IsBest;
    EntitiesPlus(rules, seen, h);
    NewId(rules, seen, s, h);
    ReplacedBox(s.ents, s.cards, w, i, rules.EntityOf(h), quote);
    ReplacedBest(rules, rules.Entities(seen), s.ents, rules.EntityOf(h), w);
    FaithfulPlus(seen, s.cards, s.cards[i := Card(h.id, quote)], h, quote);
  }

  /** The buffer is full and the hit does not beat the worst document: only the counter moves. */
  lemma HitDropped(rules: Rules, seen: set<Hit>, s: Holding, h: Hit, w: nat)
    requires rules.Sound() && GoodHits(rules.bound, seen + {h}) && h !in seen
    requires Collected(rules, seen, s) && |s.ents| == rules.limit
    requires IsWorst(rules.differ, s.ents, w) && !Before(rules.differ, rules.EntityOf(h), s.ents[w])
    ensures Collected(rules, seen + {h}, s.(found := s.found + 1))
  {
    var e := rules.EntityOf(h);
    EntitiesPlus(rules, seen, h);
    NewId(rules, seen, s, h);
    BoxSize(s.ents, s.cards);
    assert s.ents[w].id in IdsOf(s.ents);
    forall t | t in Elems(s.ents) ensures Before(rules.differ, t, e) {
      var k :| 0 <= k < |s.ents| && s.ents[k] == t;
      assert Before(rules.differ, s.ents[w], e);
      assert k != w ==> Before(rules.differ, s.ents[k], s.ents[w]);
    }
    BestStays(rules.differ, rules.Entities(seen), Elems(s.ents), rules.limit, e);
    forall x, c | x in seen + {h} && c in s.cards && x.id == c.id ensures Faithful(x.tuples, c.quote) {
      assert c.id in CardIds(s.cards);
    }
  }

  // ---------------------------------------------------------------------------------------
  // Merging a partial result into the shared one
  // ---------------------------------------------------------------------------------------

  /** A card of the merged box was there before, or is a copy of a card of the partial box. */
  ghost predicate CardOrigin(c: Card, ours: seq<Card>, theirs: seq<Card>) {
    c in ours || exists x :: x in theirs && x.id == c.id && IsCut(x.quote, c.quote)
  }

  /** `ents` and `cards` result from blending the partial `sEnts` into the sorted `dEnts`. */
  ghost predicate Blended(rules: Rules, dEnts: seq<Entity>, dCards: seq<Card>, sEnts: seq<Entity>, sCards: seq<Card>,
                          ents: seq<Entity>, cards: seq<Card>) {
    && SortedBy(rules.differ, ents)
    && BoxAgrees(ents, cards)
    && IsBest(rules.differ, Elems(dEnts) + Elems(sEnts), Elems(ents), rules.limit)
    && forall c :: c in cards ==> CardOrigin(c, dCards, sCards)
  }

  /** What `Insert` does to the shared collector. */
  ghost predicate MergedInto(rules: Rules, d: Holding, s: Holding, r: Holding) {
    Blended(rules, d.ents, d.cards, s.ents, s.cards, r.ents, r.cards) && r.found == d.found + s.found
  }

  /** A sorted partial result with ids of its own. */
  ghost predicate Mergeable(rules: Rules, dEnts: seq<Entity>, sEnts: seq<Entity>) {
    && rules.Sound()
    && SortedBy(rules.differ, sEnts) && DistinctIds(sEnts)
    && IdsBelow(Elems(dEnts) + Elems(sEnts), rules.bound)
    && IdsOf(dEnts) !! IdsOf(sEnts)
  }

  /** The merge stands before `sEnts[src]`; the documents before `dst` precede everything still to come. */
  ghost predicate Blending(rules: Rules, d: Holding, sEnts: seq<Entity>, sCards: seq<Card>, src: nat,
                           ents: seq<Entity>, cards: seq<Card>, dst: nat) {
    && src <= |sEnts| && dst <= |ents|
    && Blended(rules, d.ents, d.cards, sEnts[..src], sCards, ents, cards)
    && forall i, j :: 0 <= i < dst && src <= j < |sEnts| ==> Before(rules.differ, ents[i], sEnts[j])
  }

  /** Position `p` is where `e` belongs in the sorted `ents`. */
  ghost predicate BelongsAt(differ: Differ, ents: seq<Entity>, e: Entity, p: nat) {
    && p <= |ents|
    && (forall i :: 0 <= i < p ==> Before(differ, ents[i], e))
    && (forall i :: p <= i < |ents| ==> Before(differ, e, ents[i]))
  }

  lemma BlendedIds(rules: Rules, d: Holding, sEnts: seq<Entity>, sCards: seq<Card>, src: nat,
                   ents: seq<Entity>, cards: seq<Card>)
    requires Mergeable(rules, d.ents, sEnts) && src <= |sEnts|
    requires Blended(rules, d.ents, d.cards, sEnts[..src], sCards, ents, cards)
    ensures forall e :: e in ents ==> e.id < rules.bound
    ensures forall j :: src <= j < |sEnts| ==> sEnts[j].id !in IdsOf(ents) && sEnts[j].id < rules.bound
  {
    forall e | e in ents ensures e.id < rules.bound && (e in d.ents || e in sEnts[..src]) {
      assert e in Elems(ents);
    }
    forall j | src <= j < |sEnts| ensures sEnts[j].id !in IdsOf(ents) && sEnts[j].id < rules.bound {
      assert sEnts[j] in Elems(sEnts);
      assert sEnts[j].id in IdsOf(sEnts);
      forall e | e in ents ensures e.id != sEnts[j].id {
        if e in d.ents { assert e.id in IdsOf(d.ents); }
      }
    }
  }

  lemma ElemsSplit(s: seq<Entity>, n: nat)
    requires n < |s|
    ensures Elems(s[..n + 1]) == Elems(s[..n]) + {s[n]}
  {
  }

  /** The inner loop has skipped better documents. */
  lemma SkippedBlends(rules: Rules, d: Holding, sEnts: seq<Entity>, sCards: seq<Card>, src: nat,
                      ents: seq<Entity>, cards: seq<Card>, dst: nat, p: nat)
    requires Mergeable(rules, d.ents, sEnts) && src < |sEnts| && dst <= p <= |ents|
    requires Blending(rules, d, sEnts, sCards, src, ents, cards, dst)
    requires forall i :: dst <= i < p ==> Before(rules.differ, ents[i], sEnts[src])
    ensures Blending(rules, d, sEnts, sCards, src, ents, cards, p)
  {
    hide CardOrigin, BoxAgrees, IsBest;
    BlendedIds(rules, d, sEnts, sCards, src, ents, cards);
    forall i, j | 0 <= i < p && src <= j < |sEnts| ensures Before(rules.differ, ents[i], sEnts[j]) {
      assert ents[i] in ents;
      assert j > src ==> Before(rules.differ, sEnts[src], sEnts[j]);
    }
  }

  lemma PlaceIsRight(rules: Rules, ents: seq<Entity>, e: Entity, p: nat)
    requires rules.Sound() && SortedBy(rules.differ, ents) && p <= |ents|
    requires e.id < rules.bound && e.id !in IdsOf(ents) && forall x :: x in ents ==> x.id < rules.bound
    requires forall i :: 0 <= i < p ==> Before(rules.differ, ents[i], e)
    requires p < |ents| ==> !Before(rules.differ, ents[p], e)
    ensures BelongsAt(rules.differ, ents, e, p)
  {
  }

  /** The place found by the inner loop is right for everything behind it, too. */
  lemma PlaceFound(rules: Rules, d: Holding, sEnts: seq<Entity>, sCards: seq<Card>, src: nat,
                   ents: seq<Entity>, cards: seq<Card>, p: nat)
    requires Mergeable(rules, d.ents, sEnts) && src < |sEnts|
    requires Blending(rules, d, sEnts, sCards, src, ents, cards, p)
    requires p < |ents| ==> !Before(rules.differ, ents[p], sEnts[src])
    ensures BelongsAt(rules.differ, ents, sEnts[src], p)
  {
    hide CardOrigin, BoxAgrees, IsBest, StrictOrder;
    BlendedIds(rules, d, sEnts, sCards, src, ents, cards);
    PlaceIsRight(rules, ents, sEnts[src], p);
  }

  ghost function Inserted(ents: seq<Entity>, e: Entity, p: nat, end: nat): seq<Entity>
    requires p <= end <= |ents|
  {
    ents[..p] + [e] + ents[p..end]
  }

  lemma InsertedSorted(differ: Differ, ents: seq<Entity>, e: Entity, p: nat, end: nat)
    requires SortedBy(differ, ents) && BelongsAt(differ, ents, e, p) && p <= end <= |ents|
    ensures SortedBy(differ, Inserted(ents, e, p, end))
  {
  }

  lemma InsertedSets(ents: seq<Entity>, e: Entity, p: nat, end: nat)
    requires p <= end <= |ents|
    ensures Elems(Inserted(ents, e, p, end)) == Elems(ents[..end]) + {e}
    ensures IdsOf(Inserted(ents, e, p, end)) == IdsOf(ents[..end]) + {e.id}
  {
  }

  lemma ConcatSets(s: seq<Entity>, t: seq<Entity>)
    ensures Elems(s + t) == Elems(s) + Elems(t)
    ensures IdsOf(s + t) == IdsOf(s) + IdsOf(t)
  {
  }

  lemma InsertedDistinct(ents: seq<Entity>, e: Entity, p: nat, end: nat)
    requires DistinctIds(ents) && p <= end <= |ents| && e.id !in IdsOf(ents)
    ensures DistinctIds(Inserted(ents, e, p, end))
  {
  }

  lemma BlendingMoves(rules: Rules, ents: seq<Entity>, sEnts: seq<Entity>, src: nat, p: nat, ents': seq<Entity>)
    requires src < |sEnts| && p <= |ents| && p <= |ents'| && ents'[..p] == ents[..p]
    requires forall i, j :: 0 <= i < p && src <= j < |sEnts| ==> Before(rules.differ, ents[i], sEnts[j])
    ensures forall i, j :: 0 <= i < p && src + 1 <= j < |sEnts| ==> Before(rules.differ, ents'[i], sEnts[j])
  {
  }

  /** There is room: `e` moves everything behind its place up by one. */
  lemma BlendGrows(rules: Rules, d: Holding, sEnts: seq<Entity>, sCards: seq<Card>, src: nat,
                   ents: seq<Entity>, cards: seq<Card>, p: nat, x: Card, quote: Abstract)
    requires Mergeable(rules, d.ents, sEnts) && src < |sEnts| && |ents| < rules.limit
    requires Blended(rules, d.ents, d.cards, sEnts[..src], sCards, ents, cards)
    requires BelongsAt(rules.differ, ents, sEnts[src], p)
    requires x in sCards && x.id == sEnts[src].id && IsCut(x.quote, quote)
    ensures Blended(rules, d.ents, d.cards, sEnts[..src + 1], sCards,
                    Inserted(ents, sEnts[src], p, |ents|), cards + [Card(sEnts[src].id, quote)])
  {
    hide IsCut;
    var e := sEnts[src];
    BlendedIds(rules, d, sEnts, sCards, src, ents, cards);
    InsertedSorted(rules.differ, ents, e, p, |ents|);
    InsertedBox(ents, cards, e, p, quote);
    GrownBest(rules, d, sEnts, sCards, src, ents, cards);
  }

  lemma InsertedBox(ents: seq<Entity>, cards: seq<Card>, e: Entity, p: nat, quote: Abstract)
    requires BoxAgrees(ents, cards) && p <= |ents| && e.id !in IdsOf(ents)
    ensures BoxAgrees(Inserted(ents, e, p, |ents|), cards + [Card(e.id, quote)])
    ensures Elems(Inserted(ents, e, p, |ents|)) == Elems(ents) + {e}
  {
    InsertedSets(ents, e, p, |ents|);
    InsertedDistinct(ents, e, p, |ents|);
    assert ents[..|ents|] == ents;
    BoxGrows(ents, cards, e, quote);
    ConcatSets(ents, [e]);
    assert IdsOf([e]) == {e.id};
  }

  lemma GrownBest(rules: Rules, d: Holding, sEnts: seq<Entity>, sCards: seq<Card>, src: nat,
                  ents: seq<Entity>, cards: seq<Card>)
    requires Mergeable(rules, d.ents, sEnts) && src < |sEnts| && |ents| < rules.limit
    requires Blended(rules, d.ents, d.cards, sEnts[..src], sCards, ents, cards)
    ensures IsBest(rules.differ, Elems(d.ents) + Elems(sEnts[..src + 1]), Elems(ents) + {sEnts[src]}, rules.limit)
  {
    var all, e := Elems(d.ents) + Elems(sEnts[..src]), sEnts[src];
    UnseenBefore(rules, d.ents, sEnts, src);
    BoxSize(ents, cards);
    BestGrows(rules.differ, all, Elems(ents), rules.limit, e);
    ElemsSplit(sEnts, src);
    assert all + {e} == Elems(d.ents) + Elems(sEnts[..src + 1]);
  }

  lemma UnseenBefore(rules: Rules, dEnts: seq<Entity>, sEnts: seq<Entity>, src: nat)
    requires Mergeable(rules, dEnts, sEnts) && src < |sEnts|
    ensures sEnts[src] !in Elems(dEnts) + Elems(sEnts[..src])
    ensures IdsBelow(Elems(dEnts) + Elems(sEnts[..src]) + {sEnts[src]}, rules.bound)
  {
    assert sEnts[src].id in IdsOf(sEnts) && sEnts[src] in Elems(sEnts);
    assert forall x :: x in dEnts ==> x.id in IdsOf(dEnts);
    assert Elems(sEnts[..src]) <= Elems(sEnts);
  }

  /** The buffer is full: the last document falls out, and its card becomes the card of `e`. */
  lemma BlendReplaces(rules: Rules, d: Holding, sEnts: seq<Entity>, sCards: seq<Card>, src: nat,
                      ents: seq<Entity>, cards: seq<Card>, p: nat, x: Card, quote: Abstract, i: nat)
    requires Mergeable(rules, d.ents, sEnts) && src < |sEnts| && |ents| == rules.limit && p < |ents|
    requires Blended(rules, d.ents, d.cards, sEnts[..src], sCards, ents, cards)
    requires BelongsAt(rules.differ, ents, sEnts[src], p)
    requires x in sCards && x.id == sEnts[src].id && IsCut(x.quote, quote)
    requires i == FirstIndex(cards, ents[|ents| - 1].id) < |cards|
    ensures Blended(rules, d.ents, d.cards, sEnts[..src + 1], sCards,
                    Inserted(ents, sEnts[src], p, |ents| - 1), cards[i := Card(sEnts[src].id, quote)])
  {
    hide IsCut, IsBest, StrictOrder, BoxAgrees, IsWorst;
    var e := sEnts[src];
    BlendedIds(rules, d, sEnts, sCards, src, ents, cards);
    InsertedSorted(rules.differ, ents, e, p, |ents| - 1);
    ShiftedBox(ents, cards, e, p, quote, i);
    ReplacedBlendBest(rules, d, sEnts, sCards, src, ents, cards);
  }

  lemma ShiftedBox(ents: seq<Entity>, cards: seq<Card>, e: Entity, p: nat, quote: Abstract, i: nat)
    requires BoxAgrees(ents, cards) && p < |ents| && e.id !in IdsOf(ents)
    requires i == FirstIndex(cards, ents[|ents| - 1].id) < |cards|
    ensures BoxAgrees(Inserted(ents, e, p, |ents| - 1), cards[i := Card(e.id, quote)])
    ensures Elems(Inserted(ents, e, p, |ents| - 1)) == Elems(ents) - {ents[|ents| - 1]} + {e}
  {
    hide IdsOf, CardIds, Elems, Inserted, DistinctIds, DistinctCards;
    var w := |ents| - 1;
    InsertedSets(ents, e, p, w);
    InsertedDistinct(ents, e, p, w);
    WithoutLast(ents);
    CardIdsReplaced(cards, i, Card(e.id, quote));
  }

  lemma WithoutLast(ents: seq<Entity>)
    requires DistinctIds(ents) && ents != []
    ensures Elems(ents[..|ents| - 1]) == Elems(ents) - {ents[|ents| - 1]}
    ensures IdsOf(ents[..|ents| - 1]) == IdsOf(ents) - {ents[|ents| - 1].id}
  {
  }

  lemma ReplacedBlendBest(rules: Rules, d: Holding, sEnts: seq<Entity>, sCards: seq<Card>, src: nat,
                          ents: seq<Entity>, cards: seq<Card>)
    requires Mergeable(rules, d.ents, sEnts) && src < |sEnts| && |ents| == rules.limit
    requires Blended(rules, d.ents, d.cards, sEnts[..src], sCards, ents, cards)
    requires Before(rules.differ, sEnts[src], ents[|ents| - 1])
    ensures IsBest(rules.differ, Elems(d.ents) + Elems(sEnts[..src + 1]),
                   Elems(ents) - {ents[|ents| - 1]} + {sEnts[src]}, rules.limit)
  {
    hide CardOrigin, IsBest, StrictOrder;
    var all, e := Elems(d.ents) + Elems(sEnts[..src]), sEnts[src];
    UnseenBefore(rules, d.ents, sEnts, src);
    ReplacedBest(rules, all, ents, e, |ents| - 1);
    ElemsSplit(sEnts, src);
    assert all + {e} == Elems(d.ents) + Elems(sEnts[..src + 1]);
  }

  lemma StoppedBest(differ: Differ, d: set<Entity>, sEnts: seq<Entity>, src: nat, ents: seq<Entity>, k: nat)
    requires src <= |sEnts| && IsBest(differ, d + Elems(sEnts[..src]), Elems(ents), k) && |Elems(ents)| == k
    requires forall i, j :: 0 <= i < |ents| && src <= j < |sEnts| ==> Before(differ, ents[i], sEnts[j])
    ensures IsBest(differ, d + Elems(sEnts), Elems(ents), k)
  {
    var all, rest := d + Elems(sEnts[..src]), Elems(sEnts[src..]);
    assert all + rest == d + Elems(sEnts) by {
      assert sEnts == sEnts[..src] + sEnts[src..];
      ConcatSets(sEnts[..src], sEnts[src..]);
    }
    AllBefore(differ, ents, sEnts, src);
    BestIgnores(differ, all, rest, Elems(ents), k);
  }

  lemma AllBefore(differ: Differ, ents: seq<Entity>, sEnts: seq<Entity>, src: nat)
    requires src <= |sEnts|
    requires forall i, j :: 0 <= i < |ents| && src <= j < |sEnts| ==> Before(differ, ents[i], sEnts[j])
    ensures forall t, s :: t in Elems(ents) && s in Elems(sEnts[src..]) ==> Before(differ, t, s)
  {
  }

  /** The place is behind a full buffer: nothing that is still to come can enter. */
  lemma BlendStops(rules: Rules, d: Holding, sEnts: seq<Entity>, sCards: seq<Card>, src: nat,
                   ents: seq<Entity>, cards: seq<Card>)
    requires Mergeable(rules, d.ents, sEnts) && src <= |sEnts| && |ents| == rules.limit
    requires Blending(rules, d, sEnts, sCards, src, ents, cards, |ents|)
    ensures Blended(rules, d.ents, d.cards, sEnts, sCards, ents, cards)
  {
    hide CardOrigin, IsBest, StrictOrder;
    BoxSize(ents, cards);
    StoppedBest(rules.differ, Elems(d.ents), sEnts, src, ents, rules.limit);
  }

  lemma EntitiesUnion(rules: Rules, a: set<Hit>, b: set<Hit>)
    requires GoodHits(rules.bound, a) && GoodHits(rules.bound, b) && DisjointIds(a, b)
    ensures rules.Entities(a + b) == rules.Entities(a) + rules.Entities(b)
    ensures rules.Entities(a) !! rules.Entities(b)
    ensures IdsBelow(rules.Entities(a) + rules.Entities(b), rules.bound)
    ensures GoodHits(rules.bound, a + b)
  {
  }

  lemma MergedQuotes(rules: Rules, a: set<Hit>, b: set<Hit>, d: Holding, s: Holding, r: Holding)
    requires DisjointIds(a, b) && Collected(rules, a, d) && Collected(rules, b, s)
    requires MergedInto(rules, d, s, r)
    ensures QuotesFaithful(a + b, r.cards)
  {
    forall h, c | h in a + b && c in r.cards && h.id == c.id ensures Faithful(h.tuples, c.quote) {
      assert CardOrigin(c, d.cards, s.cards);
      if c in d.cards {
        HasHit(rules, a, d, c);
        assert h in a;
      } else {
        var x :| x in s.cards && x.id == c.id && IsCut(x.quote, c.quote);
        HasHit(rules, b, s, x);
        assert h in b;
        CopyTwice(h.tuples, x.quote, c.quote);
      }
    }
  }

  lemma HasHit(rules: Rules, seen: set<Hit>, s: Holding, c: Card)
    requires Collected(rules, seen, s) && c in s.cards
    ensures exists h :: h in seen && h.id == c.id
  {
    assert c.id in CardIds(s.cards);
    var e :| e in s.ents && e.id == c.id;
    assert e in Elems(s.ents);
    assert e in rules.Entities(seen);
  }

  /** Merging the collected hits of two disjoint parts gives the collected hits of both. */
  lemma MergeCollects(rules: Rules, a: set<Hit>, b: set<Hit>, d: Holding, s: Holding, r: Holding)
    requires rules.Sound() && GoodHits(rules.bound, a) && GoodHits(rules.bound, b) && DisjointIds(a, b)
    requires Collected(rules, a, d) && Collected(rules, b, s)
    requires MergedInto(rules, d, s, r)
    ensures GoodHits(rules.bound, a + b) && Collected(rules, a + b, r)
  {
    EntitiesUnion(rules, a, b);
    BestOfParts(rules.differ, rules.bound, rules.Entities(a), rules.Entities(b), Elems(d.ents), Elems(s.ents),
                Elems(r.ents), rules.limit);
    MergedQuotes(rules, a, b, d, s, r);
    assert a !! b;
  }

  /** The merged buffer is, element by element, the first `limit` documents of the sorted union. */
  lemma MergeIsPrefix(rules: Rules, d: Holding, s: Holding, r: Holding, union: seq<Entity>)
    requires rules.Sound() && IdsBelow(Elems(d.ents) + Elems(s.ents), rules.bound)
    requires MergedInto(rules, d, s, r)
    requires IsRanking(rules.differ, Elems(d.ents) + Elems(s.ents), union)
    ensures r.ents == union[..Min(|union|, rules.limit)]
  {
    BoxSize(r.ents, r.cards);
    BestIsPrefix(rules.differ, rules.bound, Elems(d.ents) + Elems(s.ents), union, r.ents, rules.limit);
  }

  // ---------------------------------------------------------------------------------------
  // Two collectors that saw the same hits
  // ---------------------------------------------------------------------------------------

  /** The quotes of one document in two collections. */
  ghost predicate QuoteAgrees(a: Holding, b: Holding, id: nat) {
    forall x, y :: x in a.cards && y in b.cards && x.id == id == y.id ==> Same(x.quote, y.quote)
  }

  /** However the hits were split and merged, the results are the same documents, counts and quotes. */
  lemma CollectionsAgree(rules: Rules, seen: set<Hit>, a: Holding, b: Holding)
    requires rules.Sound() && GoodHits(rules.bound, seen)
    requires Collected(rules, seen, a) && Collected(rules, seen, b)
    ensures Elems(a.ents) == Elems(b.ents) && |a.ents| == |b.ents| && a.found == b.found
    ensures forall h :: h in seen && Settled(h.tuples) ==> QuoteAgrees(a, b, h.id)
  {
    EntityCount(rules, seen);
    BestIsUnique(rules.differ, rules.bound, rules.Entities(seen), Elems(a.ents), Elems(b.ents), rules.limit);
    BoxSize(a.ents, a.cards);
    BoxSize(b.ents, b.cards);
    forall x, y, h | x in a.cards && y in b.cards && h in seen && x.id == y.id == h.id && Settled(h.tuples)
      ensures Same(x.quote, y.quote)
    {
      SettledCopiesAgree(h.tuples, x.quote, y.quote);
    }
  }

  lemma OtherQuote(rules: Rules, seen: set<Hit>, s: Holding, h: Hit, k: nat, quote: Abstract)
    requires GoodHits(rules.bound, seen) && Collected(rules, seen, s) && h in seen
    requires k < |s.cards| && s.cards[k].id == h.id && Faithful(h.tuples, quote)
    ensures Collected(rules, seen, s.(cards := s.cards[k := Card(h.id, quote)]))
  {
    hide IsBest, Faithful;
    var cards := s.cards[k := Card(h.id, quote)];
    assert forall j :: 0 <= j < |cards| ==> cards[j].id == s.cards[j].id;
    assert CardIds(cards) == CardIds(s.cards) by {
      assert forall j :: 0 <= j < |cards| ==> cards[j] in cards && s.cards[j] in s.cards;
    }
    forall x, c | x in seen && c in cards && x.id == c.id ensures Faithful(x.tuples, c.quote) {
      if c !in s.cards {
        assert c == Card(h.id, quote) && x == h;
      }
    }
  }

  /** Two collections that differ in a quote only, if the abstract is not settled. */
  lemma QuotesDiffer(rules: Rules, seen: set<Hit>, s: Holding, h: Hit) returns (a: Holding, b: Holding, k: nat)
    requires GoodHits(rules.bound, seen) && Collected(rules, seen, s) && h in seen && h.id in IdsOf(s.ents)
    requires !Settled(h.tuples)
    ensures Collected(rules, seen, a) && Collected(rules, seen, b)
    ensures k < |a.cards| && k < |b.cards| && a.cards[k].id == h.id == b.cards[k].id
    ensures !Same(a.cards[k].quote, b.cards[k].quote)
  {
    hide Collected, Faithful, Settled, Same, IsCut, GoodHits;
    var qa, qb := UnsettledCuts(h.tuples);
    CutIsFaithful(h.tuples, qa);
    CutIsFaithful(h.tuples, qb);
    k := FirstIndex(s.cards, h.id);
    HeldCard(rules, seen, s, h.id);
    a, b := s.(cards := s.cards[k := Card(h.id, qa)]), s.(cards := s.cards[k := Card(h.id, qb)]);
    OtherQuote(rules, seen, s, h, k, qa);
    OtherQuote(rules, seen, s, h, k, qb);
  }

  lemma HeldCard(rules: Rules, seen: set<Hit>, s: Holding, id: nat)
    requires Collected(rules, seen, s) && id in IdsOf(s.ents)
    ensures FirstIndex(s.cards, id) < |s.cards|
  {
    CardOf(s.ents, s.cards, id);
  }

  /** A document that is held has the same quote in every other collection of these hits, if and only if its abstract is
      settled. */
  lemma QuotesAgreeExactly(rules: Rules, seen: set<Hit>, s: Holding, h: Hit)
    requires rules.Sound() && GoodHits(rules.bound, seen) && Collected(rules, seen, s)
    requires h in seen && h.id in IdsOf(s.ents)
    ensures (forall t :: Collected(rules, seen, t) ==> QuoteAgrees(s, t, h.id)) <==> Settled(h.tuples)
  {
    hide Collected, Settled, Same, GoodHits;
    if Settled(h.tuples) {
      forall t | Collected(rules, seen, t) ensures QuoteAgrees(s, t, h.id) {
        CollectionsAgree(rules, seen, s, t);
      }
    } else {
      var a, b, k := QuotesDiffer(rules, seen, s, h);
      HeldCard(rules, seen, s, h.id);
      var x := s.cards[FirstIndex(s.cards, h.id)];
      if QuoteAgrees(s, a, h.id) && QuoteAgrees(s, b, h.id) {
        assert x in s.cards && a.cards[k] in a.cards && b.cards[k] in b.cards;
        SameIsSymmetric(x.quote, a.cards[k].quote);
        SameIsTransitive(a.cards[k].quote, x.quote, b.cards[k].quote);
      }
    }
  }

  // ---------------------------------------------------------------------------------------
  // One sort for all first copies
  // ---------------------------------------------------------------------------------------

  /** Every quote goes back to a first copy in which `sorter` ordered the entries. */
  ghost predicate QuotesBy(sorter: Sorter, seen: set<Hit>, cards: seq<Card>) {
    forall h, c :: h in seen && c in cards && h.id == c.id ==> CopyBy(sorter, h.tuples, c.quote)
  }

  /** One more hit with its first copy. */
  lemma QuotesByPlus(sorter: Sorter, seen: set<Hit>, cards: seq<Card>, cards': seq<Card>, h: Hit, quote: Abstract)
    requires Sorts(sorter) && QuotesBy(sorter, seen, cards) && CutBy(sorter, h.tuples, quote)
    requires forall c :: c in cards' ==> c in cards || c == Card(h.id, quote)
    requires h.id !in CardIds(cards) && forall x :: x in seen ==> x.id != h.id
    ensures QuotesBy(sorter, seen + {h}, cards')
  {
    hide CopyBy;
    FirstCopyBy(sorter, h.tuples, quote);
    forall x, c | x in seen + {h} && c in cards' && x.id == c.id ensures CopyBy(sorter, x.tuples, c.quote) {
      if c in cards { assert c.id in CardIds(cards); }
    }
  }

  lemma HitQuotesBy(sorter: Sorter, rules: Rules, seen: set<Hit>, s: Holding, cards': seq<Card>, h: Hit,
                    quote: Abstract)
    requires Sorts(sorter) && Collected(rules, seen, s) && GoodHits(rules.bound, seen + {h}) && h !in seen
    requires QuotesBy(sorter, seen, s.cards) && CutBy(sorter, h.tuples, quote)
    requires forall c :: c in cards' ==> c in s.cards || c == Card(h.id, quote)
    ensures QuotesBy(sorter, seen + {h}, cards')
  {
    hide CutBy, QuotesBy, Sorts, IsBest, QuotesFaithful;
    NewId(rules, seen, s, h);
    QuotesByPlus(sorter, seen, s.cards, cards', h, quote);
  }

  /** A hit that is not stored changes no quote. */
  lemma DroppedQuotesBy(sorter: Sorter, rules: Rules, seen: set<Hit>, s: Holding, h: Hit)
    requires Collected(rules, seen, s) && GoodHits(rules.bound, seen + {h}) && h !in seen
    requires QuotesBy(sorter, seen, s.cards)
    ensures QuotesBy(sorter, seen + {h}, s.cards)
  {
    hide CopyBy, IsBest, QuotesFaithful;
    NewId(rules, seen, s, h);
    forall x, c | x in seen + {h} && c in s.cards && x.id == c.id ensures CopyBy(sorter, x.tuples, c.quote) {
      assert c.id in CardIds(s.cards);
    }
  }

  /** Merging copies the quotes of the partial result once more, with whatever order of ties. */
  lemma MergedQuotesBy(sorter: Sorter, rules: Rules, a: set<Hit>, b: set<Hit>, d: Holding, s: Holding, r: Holding)
    requires DisjointIds(a, b) && Collected(rules, a, d) && Collected(rules, b, s)
    requires QuotesBy(sorter, a, d.cards) && QuotesBy(sorter, b, s.cards)
    requires MergedInto(rules, d, s, r)
    ensures QuotesBy(sorter, a + b, r.cards)
  {
    hide CopyBy, IsCut;
    forall h, c | h in a + b && c in r.cards && h.id == c.id ensures CopyBy(sorter, h.tuples, c.quote) {
      assert CardOrigin(c, d.cards, s.cards);
      if c in d.cards {
        HasHit(rules, a, d, c);
        assert h in a;
      } else {
        var x :| x in s.cards && x.id == c.id && IsCut(x.quote, c.quote);
        HasHit(rules, b, s, x);
        assert h in b;
        LaterCopyBy(sorter, h.tuples, x.quote, c.quote);
      }
    }
  }

  /** If one sort made all first copies, all quotes agree, settled or not. */
  lemma OneSortAgrees(sorter: Sorter, seen: set<Hit>, a: Holding, b: Holding)
    requires QuotesBy(sorter, seen, a.cards) && QuotesBy(sorter, seen, b.cards)
    ensures forall h :: h in seen ==> QuoteAgrees(a, b, h.id)
  {
    hide CopyBy, Same;
    forall h, x, y | h in seen && x in a.cards && y in b.cards && x.id == h.id == y.id ensures Same(x.quote, y.quote) {
      CopiesByAgree(sorter, h.tuples, x.quote, y.quote);
    }
  }
}
