/** The parallel search can always be finished: what each step of a thread needs exists,
    and every query has a run in which submission is over and no part is left. */
module Progress {
  import opened Basics
  import opened Ranking
  import opened Quotes
  import opened Exchange
  import opened QuoteBox
  import opened Collection
  import opened Collecting
  import opened Sections
  import opened Parallel

  // ---------------------------------------------------------------------------------------
  // Partial results and merges exist
  // ---------------------------------------------------------------------------------------

  ghost predicate Aligned(ents: seq<Entity>, cards: seq<Card>) {
    |cards| == |ents| && forall i :: 0 <= i < |ents| ==> cards[i].id == ents[i].id
  }

  lemma AlignedBox(ents: seq<Entity>, cards: seq<Card>)
    requires DistinctIds(ents) && Aligned(ents, cards)
    ensures BoxAgrees(ents, cards)
  {
  }

  lemma SortedIds(differ: Differ, bound: nat, ents: seq<Entity>)
    requires StrictOrder(differ, bound) && SortedBy(differ, ents)
    requires IdsBelow(Elems(ents), bound) && UniqueIds(Elems(ents))
    ensures DistinctIds(ents)
  {
  }

  lemma CutByExists(sorter: Sorter, source: Abstract) returns (q: Abstract)
    ensures CutBy(sorter, source, q)
  {
    if source.Rich? {
      var out := PackExists(sorter(Select(source.entries).kept));
      q := Rich(source.nWords, out);
    } else {
      q := CutExists(source);
    }
  }

  lemma CardFor(sorter: Sorter, rules: Rules, seen: set<Hit>, e: Entity) returns (c: Card)
    requires Sorts(sorter) && GoodHits(rules.bound, seen) && e in rules.Entities(seen)
    ensures c.id == e.id
    ensures forall h :: h in seen && h.id == c.id ==> Faithful(h.tuples, c.quote) && CopyBy(sorter, h.tuples, c.quote)
  {
    hide IsCut, CutBy, Faithful, CopyBy, Sorts;
    var h :| h in seen && rules.EntityOf(h) == e;
    var q := CutByExists(sorter, h.tuples);
    CutByIsCut(sorter, h.tuples, q);
    CutIsFaithful(h.tuples, q);
    FirstCopyBy(sorter, h.tuples, q);
    c := Card(e.id, q);
  }

  lemma CardsFor(sorter: Sorter, rules: Rules, seen: set<Hit>, ents: seq<Entity>) returns (cards: seq<Card>)
    requires Sorts(sorter) && GoodHits(rules.bound, seen) && Elems(ents) <= rules.Entities(seen)
    ensures Aligned(ents, cards) && QuotesFaithful(seen, cards) && QuotesBy(sorter, seen, cards)
  {
    hide Faithful, CopyBy, GoodHits, Sorts;
    cards := [];
    while |cards| < |ents|
      invariant |cards| <= |ents| && Aligned(ents[..|cards|], cards)
      invariant QuotesFaithful(seen, cards) && QuotesBy(sorter, seen, cards)
    {
      assert ents[|cards|] in Elems(ents);
      var c := CardFor(sorter, rules, seen, ents[|cards|]);
      cards := cards + [c];
    }
    assert ents[..|cards|] == ents;
  }

  /** Whatever hits a section has, there is a partial result for them, with first copies made by any given sort. */
  lemma CollectedExists(sorter: Sorter, rules: Rules, seen: set<Hit>) returns (s: Holding)
    requires Sorts(sorter) && rules.Sound() && GoodHits(rules.bound, seen)
    ensures Collected(rules, seen, s) && QuotesBy(sorter, seen, s.cards)
  {
    hide IsCut, Faithful, CopyBy, Sorts;
    var all := rules.Entities(seen);
    EntityCount(rules, seen);
    var ranking := RankingExists(rules, all);
    var ents := ranking[..Min(|ranking|, rules.limit)];
    PrefixIsBest(rules.differ, rules.bound, all, ranking, rules.limit);
    SortedIds(rules.differ, rules.bound, ents);
    var cards := CardsFor(sorter, rules, seen, ents);
    AlignedBox(ents, cards);
    s := Holding(ents, |seen|, cards);
  }

  lemma MergedCards(ents: seq<Entity>, d: Holding, s: Holding) returns (cards: seq<Card>)
    requires BoxAgrees(d.ents, d.cards) && BoxAgrees(s.ents, s.cards)
    requires Elems(ents) <= Elems(d.ents) + Elems(s.ents)
    ensures Aligned(ents, cards) && forall c :: c in cards ==> CardOrigin(c, d.cards, s.cards)
  {
    cards := [];
    while |cards| < |ents|
      invariant |cards| <= |ents| && Aligned(ents[..|cards|], cards)
      invariant forall c :: c in cards ==> CardOrigin(c, d.cards, s.cards)
    {
      var c := MergedCard(ents[|cards|], d, s) by { assert ents[|cards|] in Elems(ents); }
      cards := cards + [c];
    }
    assert ents[..|cards|] == ents;
  }

  lemma MergedCard(e: Entity, d: Holding, s: Holding) returns (c: Card)
    requires BoxAgrees(d.ents, d.cards) && BoxAgrees(s.ents, s.cards)
    requires e in d.ents || e in s.ents
    ensures c.id == e.id && CardOrigin(c, d.cards, s.cards)
  {
    if e in d.ents {
      assert e.id in CardIds(d.cards);
      c :| c in d.cards && c.id == e.id;
    } else {
      assert e.id in CardIds(s.cards);
      var x :| x in s.cards && x.id == e.id;
      var q := CutExists(x.quote);
      c := Card(e.id, q);
    }
  }

  /** Two partial results with disjoint hits can be merged. */
  lemma MergeExists(rules: Rules, a: set<Hit>, b: set<Hit>, d: Holding, s: Holding) returns (r: Holding)
    requires rules.Sound() && GoodHits(rules.bound, a) && GoodHits(rules.bound, b) && DisjointIds(a, b)
    requires Collected(rules, a, d) && Collected(rules, b, s)
    ensures MergedInto(rules, d, s, r)
  {
    hide CardOrigin, QuotesFaithful;
    var all := Elems(d.ents) + Elems(s.ents);
    UnionIds(rules, a, b, all);
    var ranking := RankingExists(rules, all);
    var ents := ranking[..Min(|ranking|, rules.limit)];
    PrefixIsBest(rules.differ, rules.bound, all, ranking, rules.limit);
    SortedIds(rules.differ, rules.bound, ents);
    var cards := MergedCards(ents, d, s);
    AlignedBox(ents, cards);
    r := Holding(ents, d.found + s.found, cards);
  }

  lemma UnionIds(rules: Rules, a: set<Hit>, b: set<Hit>, all: set<Entity>)
    requires GoodHits(rules.bound, a) && GoodHits(rules.bound, b) && DisjointIds(a, b)
    requires all <= rules.Entities(a) + rules.Entities(b)
    ensures IdsBelow(all, rules.bound) && UniqueIds(all)
  {
  }

  // ---------------------------------------------------------------------------------------
  // A run that ends
  // ---------------------------------------------------------------------------------------

  lemma OneMoreStep(sorter: Sorter, job: Job, run: seq<State>, s: State) returns (more: seq<State>)
    requires IsRun(job, run) && Next(job, run[|run| - 1], s)
    requires FirstCopiesBy(sorter, job, run) && PartsBy(sorter, job, s)
    ensures IsRun(job, more) && FirstCopiesBy(sorter, job, more) && more[|more| - 1] == s
  {
    more := run + [s];
  }

  lemma FiveMoreSteps(sorter: Sorter, job: Job, run: seq<State>, s1: State, s2: State, s3: State, s4: State, s5: State)
    returns (more: seq<State>)
    requires IsRun(job, run) && Next(job, run[|run| - 1], s1)
    requires Next(job, s1, s2) && Next(job, s2, s3) && Next(job, s3, s4) && Next(job, s4, s5)
    requires FirstCopiesBy(sorter, job, run) && PartsBy(sorter, job, s1) && PartsBy(sorter, job, s2)
    requires PartsBy(sorter, job, s3) && PartsBy(sorter, job, s4) && PartsBy(sorter, job, s5)
    ensures IsRun(job, more) && FirstCopiesBy(sorter, job, more) && more[|more| - 1] == s5
  {
    hide Next, IsRun, PartsBy, FirstCopiesBy;
    more := OneMoreStep(sorter, job, run, s1);
    more := OneMoreStep(sorter, job, more, s2);
    more := OneMoreStep(sorter, job, more, s3);
    more := OneMoreStep(sorter, job, more, s4);
    more := OneMoreStep(sorter, job, more, s5);
  }

  /** One section, from the submitter to the countdown. */
  lemma SectionSteps(sorter: Sorter, job: Job, s0: State)
    returns (s1: State, s2: State, s3: State, s4: State, s5: State)
    requires Sorts(sorter) && job.Valid() && Inv(job, s0) && s0.next < job.query.last && Live(s0.parts) == {}
    ensures Next(job, s0, s1) && Next(job, s1, s2) && Next(job, s2, s3) && Next(job, s3, s4) && Next(job, s4, s5)
    ensures s5.next == s0.next + SECTION && Live(s5.parts) == {}
    ensures PartsBy(sorter, job, s1) && PartsBy(sorter, job, s2) && PartsBy(sorter, job, s3)
    ensures PartsBy(sorter, job, s4) && PartsBy(sorter, job, s5)
  {
    hide Collected, MergedInto, GoodHits, Inv, Live, QuotesBy, PartsBy, Sorts;
    var u := s0.next;
    NextIsFree(job, s0);
    SectionGood(job, u);
    MergedGood(job, s0.parts);
    s1 := s0.(parts := s0.parts[u := Counted], nParts := s0.nParts + 1);
    assert Count(job, s0, s1);
    s2 := s1.(parts := s1.parts[u := Queued], next := u + SECTION);
    assert Enqueue(job, s1, s2);
    var part := CollectedExists(sorter, job.rules, job.Section(u));
    s3 := s2.(parts := s2.parts[u := Searched(part)]);
    assert SearchSection(job, s2, s3, u, part);
    s4 := PourNext(job, s0, s3, u, part);
    s5 := s4.(parts := s4.parts[u := Finished], nParts := s4.nParts - 1);
    assert CountDown(job, s4, s5, u);
    LiveAfter(s0.parts, s5.parts, u);
    OnlySearched(sorter, job, s0, s1, u);
    OnlySearched(sorter, job, s0, s2, u);
    OnlySearched(sorter, job, s0, s3, u);
    OnlySearched(sorter, job, s0, s4, u);
    OnlySearched(sorter, job, s0, s5, u);
  }

  lemma OnlySearched(sorter: Sorter, job: Job, s0: State, s: State, u: nat)
    requires Live(s0.parts) == {}
    requires forall v :: v in s.parts && v != u ==> v in s0.parts && s.parts[v] == s0.parts[v]
    requires u in s.parts && s.parts[u].Searched? ==> QuotesBy(sorter, job.Section(u), s.parts[u].part.cards)
    ensures PartsBy(sorter, job, s)
  {
    assert forall v :: v in s0.parts ==> v !in Live(s0.parts);
  }

  lemma OneMoreSection(sorter: Sorter, job: Job, run: seq<State>) returns (more: seq<State>)
    requires Sorts(sorter) && job.Valid() && IsRun(job, run) && FirstCopiesBy(sorter, job, run)
    requires run[|run| - 1].next < job.query.last && Live(run[|run| - 1].parts) == {}
    ensures IsRun(job, more) && FirstCopiesBy(sorter, job, more)
    ensures more[|more| - 1].next == run[|run| - 1].next + SECTION && Live(more[|more| - 1].parts) == {}
  {
    hide Next, Inv, Live, Sorts, PartsBy, FirstCopiesBy;
    RunInv(job, run, |run| - 1);
    var s1, s2, s3, s4, s5 := SectionSteps(sorter, job, run[|run| - 1]);
    more := FiveMoreSteps(sorter, job, run, s1, s2, s3, s4, s5);
  }

  lemma LiveAfter(parts: map<nat, Phase>, parts': map<nat, Phase>, u: nat)
    requires u in parts' && parts'[u] == Finished
    requires forall v :: v in parts' && v != u ==> v in parts && parts'[v] == parts[v]
    ensures Live(parts') <= Live(parts)
  {
  }

  lemma NextIsFree(job: Job, s: State)
    requires Inv(job, s) && Live(s.parts) == {}
    ensures s.next !in s.parts
  {
    hide Collected;
    assert s.next in s.parts ==> s.next in Live(s.parts);
  }

  lemma PourNext(job: Job, s0: State, s3: State, u: nat, part: Holding) returns (s4: State)
    requires job.Valid() && Inv(job, s0) && u == s0.next && u !in s0.parts
    requires s3.shared == s0.shared && u in s3.parts && s3.parts[u] == Searched(part)
    requires Collected(job.rules, job.Section(u), part)
    ensures Pour(job, s3, s4, u)
  {
    hide Collected, MergedInto, GoodHits;
    var r := s0.shared;
    if part.found != 0 {
      MergedGood(job, s0.parts);
      SectionGood(job, u);
      NextIsNew(job, s0);
      r := MergeExists(job.rules, Merged(job, s0.parts), job.Section(u), s0.shared, part);
    }
    s4 := s3.(parts := s3.parts[u := Poured], shared := r);
  }

  lemma NextIsNew(job: Job, s: State)
    requires job.Valid() && SubmittedBelow(job, s) && s.next !in s.parts
    ensures DisjointIds(Merged(job, s.parts), job.Section(s.next))
  {
    hide GoodHits, StrictOrder, Query.Valid;
    forall x, y | x in Merged(job, s.parts) && y in job.Section(s.next) ensures x.id != y.id {
      var v :| v in s.parts && IsIn(s.parts[v]) && x in job.Section(v);
      SectionIds(job, v, x);
      SectionIds(job, s.next, y);
      SectionsApart(s.next, v, x.id, y.id);
    }
  }

  lemma FinishRun(sorter: Sorter, job: Job, run: seq<State>) returns (done: seq<State>)
    requires Sorts(sorter) && job.Valid() && IsRun(job, run) && FirstCopiesBy(sorter, job, run)
    requires Live(run[|run| - 1].parts) == {}
    ensures IsRun(job, done) && FirstCopiesBy(sorter, job, done) && Over(job, done[|done| - 1])
    decreases job.query.last - run[|run| - 1].next
  {
    hide Sorts, FirstCopiesBy;
    done := run;
    if run[|run| - 1].next < job.query.last {
      done := OneMoreSection(sorter, job, run);
      done := FinishRun(sorter, job, done);
    } else {
      RunInv(job, run, |run| - 1);
    }
  }

  /** Every query has a finished run, with first copies made by any given sort. */
  lemma FinishedRunExists(sorter: Sorter, job: Job)
    requires Sorts(sorter) && job.Valid()
    ensures exists run :: IsRun(job, run) && FirstCopiesBy(sorter, job, run) && Over(job, run[|run| - 1])
  {
    var start := [State(0, map[], 0, EMPTY)];
    assert IsRun(job, start) && Live(start[0].parts) == {};
    var run := FinishRun(sorter, job, start);
  }
}
