/** Requests for pages of a result: a collector of its own for every request, as www/search.html sends them. */
module Paging {
  import opened Basics
  import opened Ranking
  import opened Quotes
  import opened QuoteBox
  import opened Collection
  import opened Collecting

  /** What all requests of one browsing session have in common. */
  datatype Session = Session(query: Query, differ: Differ, ranker: Ranker, bound: nat) {
    ghost predicate Valid() {
      && query.Valid() && bound <= NO_DOCUMENT && StrictOrder(differ, bound)
      && forall h :: h in query.hits ==> h.id < bound
    }

    /** The hits that come with an abstract, of either kind. */
    ghost function Hits(): set<Hit> {
      set h | h in query.hits && (h.tuples.BM25? || h.tuples.Rich?)
    }

    ghost function Ranked(): set<Entity> {
      set h | h in Hits() :: Entity(h.id, ranker(h.id, h.tuples))
    }

    /** All these hits, best first. */
    ghost predicate IsRanked(ranking: seq<Entity>) {
      IsRanking(differ, Ranked(), ranking)
    }
  }

  function Shown(lines: seq<Line>): seq<Entity> {
    Map((l: Line) => Entity(l.index, l.range), lines)
  }

  /** Every line comes with a copy of the abstract that the query returned for its document. */
  ghost predicate QuotedFrom(seen: set<Hit>, lines: seq<Line>, quoting: bool) {
    forall i :: 0 <= i < |lines| ==>
      && (lines[i].quoted.Some? <==> quoting)
      && (quoting ==> forall h :: h in seen && h.id == lines[i].index ==> Faithful(h.tuples, lines[i].quoted.value))
  }

  lemma ShownLines(lines: seq<Line>, ents: seq<Entity>, seen: set<Hit>, cards: seq<Card>, quoting: bool)
    requires LinesShow(lines, ents, cards, quoting) && QuotesFaithful(seen, cards)
    ensures Shown(lines) == ents && QuotedFrom(seen, lines, quoting)
  {
    hide Faithful;
    forall i | 0 <= i < |lines| ensures Shown(lines)[i] == ents[i] {
    }
  }

  lemma HitsAreRated(session: Session)
    ensures session.Hits() == RatedOf(session.query.hits)
  {
    forall h ensures h in session.Hits() <==> h in RatedOf(session.query.hits) {
      RatedExactly(session.query.hits, h);
    }
  }

  /** A ranking has the document of every hit with an abstract, with its rank, and of no other hit. */
  lemma RankedExactly(session: Session, ranking: seq<Entity>, h: Hit)
    requires session.Valid() && session.IsRanked(ranking) && h in session.query.hits
    ensures h.tuples.BM25? || h.tuples.Rich? ==> Entity(h.id, session.ranker(h.id, h.tuples)) in ranking
    ensures h.tuples.Blank? ==> forall e :: e in ranking ==> e.id != h.id
  {
    var all := Elems(ranking);
    assert all == session.Ranked();
    forall e | e in ranking && h.tuples.Blank? ensures e.id != h.id {
      assert e in all;
      var x :| x in session.Hits() && e == Entity(x.id, session.ranker(x.id, x.tuples));
      var i :| 0 <= i < |session.query.hits| && session.query.hits[i] == x;
      var j :| 0 <= j < |session.query.hits| && session.query.hits[j] == h;
    }
    if !h.tuples.Blank? {
      assert h in session.Hits();
      assert Entity(h.id, session.ranker(h.id, h.tuples)) in all;
    }
  }

  lemma HitsAreGood(session: Session)
    requires session.Valid()
    ensures GoodHits(session.bound, session.Hits())
  {
    HitsAreRated(session);
  }

  lemma ReportShows(session: Session, first: nat, count: nat, rules: Rules, cards: seq<Card>, quoting: bool,
                    report: Report)
    requires first >= 1 && report.first == first && report.found == |session.Hits()|
    requires rules == Rules(session.differ, session.ranker, first + count - 1, session.bound)
    requires QuotesFaithful(session.Hits(), cards)
    requires report.page.Some? <==> count >= 1 && report.found >= first
    requires GoodHits(session.bound, session.Hits())
    requires report.page.Some? ==>
               && (exists ranking :: IsRanking(rules.differ, rules.Entities(session.Hits()), ranking))
               && forall ranking :: IsRanking(rules.differ, rules.Entities(session.Hits()), ranking) ==>
                    LinesShow(report.page.value, Page(ranking, first, rules.limit), cards, quoting)
    ensures report.page.Some? ==> QuotedFrom(session.Hits(), report.page.value, quoting)
    ensures forall ranking :: session.IsRanked(ranking) ==>
              && |ranking| == report.found
              && (if report.page.Some? then Shown(report.page.value) else []) == Page(ranking, first, first + count - 1)
  {
    hide IsRanking, LinesShow, QuotedFrom, QuotesFaithful, GoodHits;
    EntityCount(rules, session.Hits());
    assert rules.Entities(session.Hits()) == session.Ranked();
    if report.page.Some? {
      var ranking :| IsRanking(rules.differ, rules.Entities(session.Hits()), ranking);
      ShownLines(report.page.value, Page(ranking, first, rules.limit), session.Hits(), cards, quoting);
    }
    forall ranking | session.IsRanked(ranking)
      ensures |ranking| == report.found
      ensures (if report.page.Some? then Shown(report.page.value) else []) == Page(ranking, first, first + count - 1)
    {
      RankingSize(rules.differ, rules.Entities(session.Hits()), ranking);
      if report.page.Some? {
        ShownLines(report.page.value, Page(ranking, first, rules.limit), session.Hits(), cards, quoting);
      }
    }
  }

  /** There always is a ranking. */
  lemma RankedExists(session: Session) returns (ranking: seq<Entity>)
    requires session.Valid()
    ensures session.IsRanked(ranking)
  {
    var rules := Rules(session.differ, session.ranker, 1, session.bound);
    HitsAreGood(session);
    EntityCount(rules, session.Hits());
    ranking := RankingExists(rules, rules.Entities(session.Hits()));
    assert rules.Entities(session.Hits()) == session.Ranked();
  }

  lemma RankedSize(session: Session, ranking: seq<Entity>)
    requires session.Valid() && session.IsRanked(ranking)
    ensures |ranking| == |session.Hits()|
  {
    var rules := Rules(session.differ, session.ranker, 1, session.bound);
    HitsAreGood(session);
    EntityCount(rules, session.Hits());
    assert rules.Entities(session.Hits()) == session.Ranked();
  }

  lemma RankingSize(differ: Differ, all: set<Entity>, ranking: seq<Entity>)
    requires IsRanking(differ, all, ranking)
    ensures |ranking| == |all|
  {
  }

  /** One request: the lines of the page are those places of the ranking, whether the search was parallel or not. */
  method Request(session: Session, first: nat, count: nat, async: bool, quoting: bool) returns (report: Report)
    requires session.Valid() && first >= 1 && first + count >= 2
    requires async ==> session.query.last <= 0xFFFF_C000
    ensures report.first == first
    ensures report.found == |set h | h in session.query.hits && (h.tuples.BM25? || h.tuples.Rich?)|
    ensures report.page.Some? <==> count >= 1 && report.found >= first
    ensures report.page.Some? ==> QuotedFrom(session.Hits(), report.page.value, quoting)
    ensures forall ranking :: session.IsRanked(ranking) ==>
              && |ranking| == report.found
              && (if report.page.Some? then Shown(report.page.value) else []) == Page(ranking, first, first + count - 1)
  {
    hide IsRanking, GoodHits, StrictOrder, LinesShow, QuotedFrom, QuotesFaithful, Shown, Page;
    HitsAreGood(session);
    HitsAreRated(session);
    var collector := new Collector(first, count, session.differ, session.ranker, session.bound);
    collector.Search(session.query, async);
    report := collector.Finish(quoting);
    EntityCount(collector.rules, session.Hits());
    ghost var _ := RankingExists(collector.rules, collector.rules.Entities(session.Hits()));
    ReportShows(session, first, count, collector.rules, collector.quoBox.cards, quoting, report);
  }

  // ---------------------------------------------------------------------------------------
  // From page to page
  // ---------------------------------------------------------------------------------------

  /** The pages of `count` documents with first = 1, count + 1, 2 * count + 1, ... laid end to end. */
  function Pages(ranking: seq<Entity>, count: nat, pages: nat): seq<Entity> {
    if pages == 0 then []
    else Pages(ranking, count, pages - 1) + Page(ranking, (pages - 1) * count + 1, (pages - 1) * count + 1 + count - 1)
  }

  lemma PageNext(ranking: seq<Entity>, done: nat, count: nat)
    ensures ranking[..Min(|ranking|, done)] + Page(ranking, done + 1, done + 1 + count - 1)
         == ranking[..Min(|ranking|, done + count)]
  {
  }

  lemma {:induction false} PagesTile(ranking: seq<Entity>, count: nat, pages: nat)
    ensures Pages(ranking, count, pages) == ranking[..Min(|ranking|, pages * count)]
  {
    if pages > 0 {
      PagesTile(ranking, count, pages - 1);
      PageNext(ranking, (pages - 1) * count, count);
      assert pages * count == (pages - 1) * count + count;
    }
  }

  lemma NoLines(seen: set<Hit>, quoting: bool)
    ensures QuotedFrom(seen, [], quoting) && Shown([]) == []
  {
  }

  lemma PageAdded(seen: set<Hit>, lines: seq<Line>, page: seq<Line>, quoting: bool)
    requires QuotedFrom(seen, lines, quoting) && QuotedFrom(seen, page, quoting)
    ensures QuotedFrom(seen, lines + page, quoting)
    ensures Shown(lines + page) == Shown(lines) + Shown(page)
  {
  }

  /** Separate requests for the first `pages` pages, each in one pass or in parallel: the lines are the beginning of
      the ranking, with no gap and no repeat. */
  method Browse(session: Session, count: nat, pages: nat, async: nat -> bool, quoting: bool) returns (lines: seq<Line>)
    requires session.Valid() && count >= 1
    requires session.query.last <= 0xFFFF_C000 || forall k :: !async(k)
    ensures QuotedFrom(session.Hits(), lines, quoting)
    ensures forall ranking :: session.IsRanked(ranking) ==>
              |ranking| == |session.Hits()| && Shown(lines) == ranking[..Min(|ranking|, pages * count)]
  {
    hide Session.IsRanked, Session.Ranked, Session.Hits, Session.Valid, Page, QuotedFrom, Shown;
    lines := [];
    NoLines(session.Hits(), quoting);
    for k := 0 to pages
      invariant QuotedFrom(session.Hits(), lines, quoting)
      invariant forall ranking :: session.IsRanked(ranking) ==> Shown(lines) == Pages(ranking, count, k)
    {
      var report := Request(session, k * count + 1, count, async(k), quoting);
      assert k * count + 1 + count - 1 == k * count + count;
      if report.page.Some? {
        PageAdded(session.Hits(), lines, report.page.value, quoting);
        lines := lines + report.page.value;
      }
    }
    forall ranking | session.IsRanked(ranking)
      ensures |ranking| == |session.Hits()| && Shown(lines) == ranking[..Min(|ranking|, pages * count)]
    {
      RankedSize(session, ranking);
      PagesTile(ranking, count, pages);
    }
  }

  /** The last page that the total offers is the last one with documents. */
  lemma TotalPages(found: nat, count: nat)
    requires count >= 1
    ensures found <= (found + count - 1) / count * count < found + count
  {
  }

  /** The first request tells how many pages there are; going through them all shows the whole ranking. */
  method BrowseAll(session: Session, count: nat, async: nat -> bool, quoting: bool) returns (lines: seq<Line>)
    requires session.Valid() && count >= 1
    requires session.query.last <= 0xFFFF_C000 || forall k :: !async(k)
    ensures QuotedFrom(session.Hits(), lines, quoting)
    ensures session.IsRanked(Shown(lines))
  {
    hide Session.IsRanked, Session.Valid, Session.Hits, Page, QuotedFrom, Shown;
    ghost var ranking := RankedExists(session);
    var report := Request(session, 1, count, async(0), quoting);
    TotalPages(report.found, count);
    lines := Browse(session, count, (report.found + count - 1) / count, async, quoting);
    assert Shown(lines) == ranking[..|ranking|] == ranking;
  }
}
