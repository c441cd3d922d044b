/** The parallel search of src/service/collect-docs.cpp as a state machine: one submitter shares the query,
    executor threads search sections, pour their results into the shared collector under its lock, and count down. */
module Parallel {
  import opened Ranking
  import opened Quotes
  import opened Exchange
  import opened Collection
  import opened Sections

  /** One section, from `++nParts` to `--nParts`. */
  datatype Phase =
    | Counted                   // counted, not yet given to the thread pool
    | Queued                    // in the pool
    | Searched(part: Holding)   // its own collector is complete
    | Poured                    // merged, or empty and skipped
    | Finished                  // counted down

  /** Sections are named by their lower bound; `next` is the submitter's `uLower`. */
  datatype State = State(next: nat, parts: map<nat, Phase>, nParts: int, shared: Holding)

  datatype Job = Job(rules: Rules, query: Query) {
    ghost predicate Valid() {
      rules.Sound() && query.Valid() && query.last <= 0xFFFF_C000 && GoodHits(rules.bound, RatedOf(query.hits))
    }

    ghost function Section(u: nat): set<Hit> {
      RatedOf(Restrict(query, u, u + SECTION))
    }
  }

  ghost predicate Init(s: State) {
    s == State(0, map[], 0, EMPTY)
  }

  /** `Duplicate` returned null. */
  ghost predicate Skip(job: Job, s: State, s': State) {
    && s.next < job.query.last && s.next !in s.parts
    && Restrict(job.query, s.next, s.next + SECTION) == []
    && s' == s.(next := s.next + SECTION)
  }

  /** `++nParts`. */
  ghost predicate Count(job: Job, s: State, s': State) {
    && s.next < job.query.last && s.next !in s.parts
    && s' == s.(parts := s.parts[s.next := Counted], nParts := s.nParts + 1)
  }

  /** `async->Insert`, and on to the next section. */
  ghost predicate Enqueue(job: Job, s: State, s': State) {
    && s.next in s.parts && s.parts[s.next] == Counted
    && s' == s.(parts := s.parts[s.next := Queued], next := s.next + SECTION)
  }

  /** `subStore->Search( linear, subQuery )`: touches nothing shared. */
  ghost predicate SearchSection(job: Job, s: State, s': State, u: nat, part: Holding) {
    && u in s.parts && s.parts[u] == Queued
    && Collected(job.rules, job.Section(u), part)
    && s' == s.(parts := s.parts[u := Searched(part)])
  }

  /** `this->Insert( *subStore )` under the lock, unless nothing was found. */
  ghost predicate Pour(job: Job, s: State, s': State, u: nat) {
    && u in s.parts && s.parts[u].Searched?
    && s'.next == s.next && s'.nParts == s.nParts && s'.parts == s.parts[u := Poured]
    && if s.parts[u].part.found != 0 then MergedInto(job.rules, s.shared, s.parts[u].part, s'.shared)
       else s'.shared == s.shared
  }

  /** `--nParts`. */
  ghost predicate CountDown(job: Job, s: State, s': State, u: nat) {
    && u in s.parts && s.parts[u] == Poured
    && s' == s.(parts := s.parts[u := Finished], nParts := s.nParts - 1)
  }

  ghost predicate Next(job: Job, s: State, s': State) {
    || Skip(job, s, s') || Count(job, s, s') || Enqueue(job, s, s')
    || (exists u, part :: SearchSection(job, s, s', u, part))
    || (exists u :: Pour(job, s, s', u))
    || (exists u :: CountDown(job, s, s', u))
  }

  // ---------------------------------------------------------------------------------------
  // The invariant
  // ---------------------------------------------------------------------------------------

  /** Submitted and not yet finished. */
  ghost function Live(parts: map<nat, Phase>): set<nat> {
    set u | u in parts && parts[u] != Finished
  }

  predicate IsIn(ph: Phase) {
    ph.Poured? || ph.Finished?
  }

  /** The hits of the sections that have been merged. */
  ghost function Merged(job: Job, parts: map<nat, Phase>): set<Hit> {
    set u, h | u in parts && IsIn(parts[u]) && h in job.Section(u) :: h
  }

  ghost predicate SubmittedBelow(job: Job, s: State) {
    && s.next % SECTION == 0
    && (forall u :: u in s.parts ==> u % SECTION == 0 && u <= s.next && (u == s.next ==> s.parts[u] == Counted))
    && (forall u: nat :: u < s.next && u % SECTION == 0 && u !in s.parts ==> job.Section(u) == {})
  }

  ghost predicate PartsCollected(job: Job, s: State) {
    forall u :: u in s.parts && s.parts[u].Searched? ==> Collected(job.rules, job.Section(u), s.parts[u].part)
  }

  ghost predicate Inv(job: Job, s: State) {
    && SubmittedBelow(job, s)
    && PartsCollected(job, s)
    && s.nParts == |Live(s.parts)|
    && SortedBy(job.rules.differ, s.shared.ents)
    && Collected(job.rules, Merged(job, s.parts), s.shared)
  }

  lemma InitInv(job: Job, s: State)
    requires Init(s)
    ensures Inv(job, s)
  {
  }

  lemma SectionIds(job: Job, u: nat, h: Hit)
    requires job.Valid() && h in job.Section(u)
    ensures u <= h.id < u + SECTION && h in RatedOf(job.query.hits)
  {
  }

  lemma SectionOf(job: Job, h: Hit)
    requires job.Valid() && h in RatedOf(job.query.hits)
    ensures h in job.Section(h.id - h.id % SECTION) && h.id < job.query.last
  {
  }

  lemma MergedGood(job: Job, parts: map<nat, Phase>)
    requires job.Valid()
    ensures Merged(job, parts) <= RatedOf(job.query.hits) && GoodHits(job.rules.bound, Merged(job, parts))
  {
  }

  lemma SectionGood(job: Job, u: nat)
    requires job.Valid()
    ensures job.Section(u) <= RatedOf(job.query.hits) && GoodHits(job.rules.bound, job.Section(u))
  {
  }

  /** A section that is not merged yet has no document in common with what is. */
  lemma SectionIsNew(job: Job, s: State, u: nat)
    requires job.Valid() && SubmittedBelow(job, s) && u in s.parts && !IsIn(s.parts[u])
    ensures DisjointIds(Merged(job, s.parts), job.Section(u))
  {
    hide GoodHits, StrictOrder, Query.Valid;
    forall x, y | x in Merged(job, s.parts) && y in job.Section(u) ensures x.id != y.id {
      var v :| v in s.parts && IsIn(s.parts[v]) && x in job.Section(v);
      SectionIds(job, v, x);
      SectionIds(job, u, y);
      SectionsApart(u, v, x.id, y.id);
    }
  }

  lemma SectionsApart(u: nat, v: nat, x: nat, y: nat)
    requires u % SECTION == 0 && v % SECTION == 0 && u != v
    requires v <= x < v + SECTION && u <= y < u + SECTION
    ensures x != y
  {
  }

  lemma MergedWithin(job: Job, parts: map<nat, Phase>, parts': map<nat, Phase>)
    requires forall v :: v in parts && IsIn(parts[v]) ==> v in parts' && IsIn(parts'[v])
    ensures Merged(job, parts) <= Merged(job, parts')
  {
  }

  lemma MergedSame(job: Job, parts: map<nat, Phase>, u: nat, ph: Phase)
    requires u in parts ==> IsIn(parts[u]) == IsIn(ph)
    requires u !in parts ==> !IsIn(ph)
    ensures Merged(job, parts[u := ph]) == Merged(job, parts)
  {
  }

  lemma MergedMore(job: Job, parts: map<nat, Phase>, u: nat)
    requires u in parts && !IsIn(parts[u])
    ensures Merged(job, parts[u := Poured]) == Merged(job, parts) + job.Section(u)
  {
    hide Job.Section;
    var parts' := parts[u := Poured];
    MergedWithin(job, parts, parts');
    forall h | h in job.Section(u) ensures h in Merged(job, parts') {
      assert u in parts' && IsIn(parts'[u]);
    }
    forall h | h in Merged(job, parts') ensures h in Merged(job, parts) || h in job.Section(u) {
      var v :| v in parts' && IsIn(parts'[v]) && h in job.Section(v);
      assert v != u ==> v in parts && IsIn(parts[v]);
    }
  }

  lemma SkippedSection(job: Job, u: nat)
    requires Restrict(job.query, u, u + SECTION) == []
    ensures job.Section(u) == {}
  {
  }

  lemma SkipInv(job: Job, s: State, s': State)
    requires job.Valid() && Inv(job, s) && Skip(job, s, s')
    ensures Inv(job, s')
  {
    hide Collected, GoodHits, StrictOrder, Query.Valid, Restrict, RatedOf, Job.Section;
    SkippedSection(job, s.next);
  }

  lemma CountInv(job: Job, s: State, s': State)
    requires job.Valid() && Inv(job, s) && Count(job, s, s')
    ensures Inv(job, s')
  {
    hide Collected, GoodHits, StrictOrder, Query.Valid, Job.Section;
    MergedSame(job, s.parts, s.next, Counted);
    assert Live(s'.parts) == Live(s.parts) + {s.next};
  }

  lemma EnqueueInv(job: Job, s: State, s': State)
    requires job.Valid() && Inv(job, s) && Enqueue(job, s, s')
    ensures Inv(job, s')
  {
    hide Collected, GoodHits, StrictOrder, Query.Valid, Job.Section;
    MergedSame(job, s.parts, s.next, Queued);
    assert Live(s'.parts) == Live(s.parts);
  }

  lemma SearchInv(job: Job, s: State, s': State, u: nat, part: Holding)
    requires job.Valid() && Inv(job, s) && SearchSection(job, s, s', u, part)
    ensures Inv(job, s')
  {
    hide Collected, GoodHits, StrictOrder, Query.Valid, Job.Section;
    MergedSame(job, s.parts, u, Searched(part));
    assert Live(s'.parts) == Live(s.parts);
  }

  lemma PourInv(job: Job, s: State, s': State, u: nat)
    requires job.Valid() && Inv(job, s) && Pour(job, s, s', u)
    ensures Inv(job, s')
  {
    hide Collected, MergedInto, GoodHits, StrictOrder, Query.Valid, Job.Section, SortedBy;
    var part := s.parts[u].part;
    assert Live(s'.parts) == Live(s.parts);
    MergedMore(job, s.parts, u);
    MergedGood(job, s.parts);
    SectionGood(job, u);
    PourShared(job, s, s', u, part);
  }

  lemma PourShared(job: Job, s: State, s': State, u: nat, part: Holding)
    requires job.Valid() && SubmittedBelow(job, s) && Pour(job, s, s', u) && part == s.parts[u].part
    requires GoodHits(job.rules.bound, Merged(job, s.parts)) && GoodHits(job.rules.bound, job.Section(u))
    requires Collected(job.rules, job.Section(u), part) && Collected(job.rules, Merged(job, s.parts), s.shared)
    requires SortedBy(job.rules.differ, s.shared.ents)
    ensures Collected(job.rules, Merged(job, s.parts) + job.Section(u), s'.shared)
    ensures SortedBy(job.rules.differ, s'.shared.ents)
  {
    hide GoodHits, IsBest, QuotesFaithful, CardOrigin, StrictOrder;
    if part.found != 0 {
      SectionIsNew(job, s, u);
      MergeCollects(job.rules, Merged(job, s.parts), job.Section(u), s.shared, part, s'.shared);
    } else {
      assert job.Section(u) == {};
      assert Merged(job, s.parts) + {} == Merged(job, s.parts);
    }
  }

  lemma CountDownInv(job: Job, s: State, s': State, u: nat)
    requires job.Valid() && Inv(job, s) && CountDown(job, s, s', u)
    ensures Inv(job, s')
  {
    hide Collected, GoodHits, StrictOrder, Query.Valid, Job.Section;
    MergedSame(job, s.parts, u, Finished);
    assert Live(s'.parts) == Live(s.parts) - {u};
  }

  /** Every step of every thread keeps the invariant. */
  lemma NextInv(job: Job, s: State, s': State)
    requires job.Valid() && Inv(job, s) && Next(job, s, s')
    ensures Inv(job, s')
  {
    hide Inv, Collected, MergedInto;
    if u, part :| SearchSection(job, s, s', u, part) {
      SearchInv(job, s, s', u, part);
    } else if u :| Pour(job, s, s', u) {
      PourInv(job, s, s', u);
    } else if u :| CountDown(job, s, s', u) {
      CountDownInv(job, s, s', u);
    } else if Skip(job, s, s') {
      SkipInv(job, s, s');
    } else if Count(job, s, s') {
      CountInv(job, s, s');
    } else {
      EnqueueInv(job, s, s');
    }
  }

  // ---------------------------------------------------------------------------------------
  // Runs
  // ---------------------------------------------------------------------------------------

  ghost predicate IsRun(job: Job, run: seq<State>) {
    && run != [] && Init(run[0])
    && forall i :: 0 <= i < |run| - 1 ==> Next(job, run[i], run[i + 1])
  }

  /** Submission is over and no part is left. */
  ghost predicate Over(job: Job, s: State) {
    s.next >= job.query.last && s.nParts == 0
  }

  lemma {:induction false} RunInv(job: Job, run: seq<State>, i: nat)
    requires job.Valid() && IsRun(job, run) && i < |run|
    ensures Inv(job, run[i])
  {
    if i == 0 {
      InitInv(job, run[0]);
    } else {
      RunInv(job, run, i - 1);
      NextInv(job, run[i - 1], run[i]);
    }
  }

  /** When nothing is left to do, every hit of the query has been merged, and merged once. */
  lemma OverMeansAll(job: Job, s: State)
    requires job.Valid() && Inv(job, s) && Over(job, s)
    ensures Merged(job, s.parts) == RatedOf(job.query.hits)
    ensures Collected(job.rules, RatedOf(job.query.hits), s.shared)
  {
    hide Collected, GoodHits, StrictOrder, Query.Valid, RatedOf, Restrict;
    MergedGood(job, s.parts);
    forall h | h in RatedOf(job.query.hits) ensures h in Merged(job, s.parts) {
      var u := h.id - h.id % SECTION;
      SectionOf(job, h);
      assert u < s.next;
      assert u in s.parts;
      assert u !in Live(s.parts);
    }
  }

  /** The first copies in the section collectors' boxes are made by one sort. */
  ghost predicate PartsBy(sorter: Sorter, job: Job, s: State) {
    forall u :: u in s.parts && s.parts[u].Searched? ==> QuotesBy(sorter, job.Section(u), s.parts[u].part.cards)
  }

  ghost predicate FirstCopiesBy(sorter: Sorter, job: Job, run: seq<State>) {
    forall i :: 0 <= i < |run| ==> PartsBy(sorter, job, run[i])
  }

  lemma PourQuotesBy(sorter: Sorter, job: Job, s: State, s': State, u: nat)
    requires job.Valid() && Inv(job, s) && Pour(job, s, s', u)
    requires QuotesBy(sorter, Merged(job, s.parts), s.shared.cards)
    requires QuotesBy(sorter, job.Section(u), s.parts[u].part.cards)
    ensures QuotesBy(sorter, Merged(job, s'.parts), s'.shared.cards)
  {
    hide Collected, MergedInto, GoodHits, StrictOrder, Query.Valid, Job.Section, SortedBy, QuotesBy;
    var part := s.parts[u].part;
    MergedMore(job, s.parts, u);
    if part.found != 0 {
      SectionIsNew(job, s, u);
      MergedQuotesBy(sorter, job.rules, Merged(job, s.parts), job.Section(u), s.shared, part, s'.shared);
    } else {
      NothingFound(job, u, part);
      assert Merged(job, s.parts) + {} == Merged(job, s.parts);
    }
  }

  lemma NothingFound(job: Job, u: nat, part: Holding)
    requires Collected(job.rules, job.Section(u), part) && part.found == 0
    ensures job.Section(u) == {}
  {
  }

  /** Every step but the merge leaves the merged hits and the shared quotes as they are. */
  lemma OtherStep(job: Job, s: State, s': State)
    requires Inv(job, s) && Next(job, s, s') && !exists u :: Pour(job, s, s', u)
    ensures s'.shared == s.shared && Merged(job, s'.parts) == Merged(job, s.parts)
  {
    hide Collected, Job.Section, Merged, Pour;
    if u, part :| SearchSection(job, s, s', u, part) {
      MergedSame(job, s.parts, u, Searched(part));
    } else if u :| CountDown(job, s, s', u) {
      MergedSame(job, s.parts, u, Finished);
    } else if Count(job, s, s') {
      MergedSame(job, s.parts, s.next, Counted);
    } else if Enqueue(job, s, s') {
      MergedSame(job, s.parts, s.next, Queued);
    }
  }

  lemma StepQuotesBy(sorter: Sorter, job: Job, s: State, s': State)
    requires job.Valid() && Inv(job, s) && Next(job, s, s') && PartsBy(sorter, job, s)
    requires QuotesBy(sorter, Merged(job, s.parts), s.shared.cards)
    ensures QuotesBy(sorter, Merged(job, s'.parts), s'.shared.cards)
  {
    hide QuotesBy, Inv, Pour, Next, Merged, Job.Section;
    if u :| Pour(job, s, s', u) {
      PouredPart(job, s, s', u);
      PourQuotesBy(sorter, job, s, s', u);
    } else {
      OtherStep(job, s, s');
    }
  }

  lemma InitQuotesBy(sorter: Sorter, job: Job, s: State)
    requires Init(s)
    ensures QuotesBy(sorter, Merged(job, s.parts), s.shared.cards)
  {
  }

  lemma {:induction false} RunQuotesBy(sorter: Sorter, job: Job, run: seq<State>, i: nat)
    requires job.Valid() && IsRun(job, run) && FirstCopiesBy(sorter, job, run) && i < |run|
    ensures QuotesBy(sorter, Merged(job, run[i].parts), run[i].shared.cards)
  {
    hide QuotesBy, Init, Inv, Next, Merged, PartsBy, CopyBy;
    if i == 0 {
      InitQuotesBy(sorter, job, run[0]);
    } else {
      RunQuotesBy(sorter, job, run, i - 1);
      RunInv(job, run, i - 1);
      StepQuotesBy(sorter, job, run[i - 1], run[i]);
    }
  }

  lemma PouredPart(job: Job, s: State, s': State, u: nat)
    requires Pour(job, s, s', u)
    ensures u in s.parts && s.parts[u].Searched?
  {
  }

  /** The quotes of a finished run, if one sort makes all first copies. */
  lemma OverQuotesBy(sorter: Sorter, job: Job, run: seq<State>)
    requires job.Valid() && IsRun(job, run) && Over(job, run[|run| - 1]) && FirstCopiesBy(sorter, job, run)
    ensures QuotesBy(sorter, RatedOf(job.query.hits), run[|run| - 1].shared.cards)
  {
    hide Collected, Init, Next, QuotesBy, Inv, Merged, RatedOf;
    RunInv(job, run, |run| - 1);
    OverMeansAll(job, run[|run| - 1]);
    RunQuotesBy(sorter, job, run, |run| - 1);
  }

  /** Every run that ends has found what one linear pass finds: the same documents and counts; the same quotes of all
      settled abstracts, and, if one sort makes all first copies, of all others. */
  lemma ParallelRefinesLinear(job: Job, run: seq<State>, linear: Holding)
    requires job.Valid() && IsRun(job, run) && Over(job, run[|run| - 1])
    requires Collected(job.rules, RatedOf(job.query.hits), linear)
    ensures var shared := run[|run| - 1].shared;
            && Elems(shared.ents) == Elems(linear.ents) && |shared.ents| == |linear.ents|
            && shared.found == linear.found
            && (forall h :: h in RatedOf(job.query.hits) && Settled(h.tuples) ==> QuoteAgrees(shared, linear, h.id))
            && (forall sorter ::
                  FirstCopiesBy(sorter, job, run) && QuotesBy(sorter, RatedOf(job.query.hits), linear.cards)
                  ==> forall h :: h in RatedOf(job.query.hits) ==> QuoteAgrees(shared, linear, h.id))
  {
    hide Collected, Init, Next, Settled, Same, QuotesBy, FirstCopiesBy, RatedOf;
    var s := run[|run| - 1];
    RunInv(job, run, |run| - 1);
    OverMeansAll(job, s);
    CollectionsAgree(job.rules, RatedOf(job.query.hits), s.shared, linear);
    forall sorter | FirstCopiesBy(sorter, job, run) && QuotesBy(sorter, RatedOf(job.query.hits), linear.cards)
      ensures forall h :: h in RatedOf(job.query.hits) ==> QuoteAgrees(s.shared, linear, h.id)
    {
      OverQuotesBy(sorter, job, run);
      OneSortAgrees(sorter, RatedOf(job.query.hits), s.shared, linear);
    }
  }

  /** After a finished run the quote of a document is that of every other collection of the hits, if and only if its
      abstract is settled. */
  lemma ParallelQuotesExactly(job: Job, run: seq<State>, h: Hit)
    requires job.Valid() && IsRun(job, run) && Over(job, run[|run| - 1])
    requires h in RatedOf(job.query.hits) && h.id in IdsOf(run[|run| - 1].shared.ents)
    ensures (forall t :: Collected(job.rules, RatedOf(job.query.hits), t) ==>
               QuoteAgrees(run[|run| - 1].shared, t, h.id)) <==> Settled(h.tuples)
  {
    hide Collected, Init, Next, Settled, QuoteAgrees, RatedOf, IdsOf;
    RunInv(job, run, |run| - 1);
    OverMeansAll(job, run[|run| - 1]);
    QuotesAgreeExactly(job.rules, RatedOf(job.query.hits), run[|run| - 1].shared, h);
  }

  /** The order in which the threads get the lock does not matter: all runs end with the same buffer and quotes. */
  lemma SchedulesAgree(job: Job, run1: seq<State>, run2: seq<State>)
    requires job.Valid() && IsRun(job, run1) && Over(job, run1[|run1| - 1])
    requires IsRun(job, run2) && Over(job, run2[|run2| - 1])
    ensures run1[|run1| - 1].shared.ents == run2[|run2| - 1].shared.ents
    ensures run1[|run1| - 1].shared.found == run2[|run2| - 1].shared.found
    ensures forall h :: h in RatedOf(job.query.hits) && Settled(h.tuples) ==>
              QuoteAgrees(run1[|run1| - 1].shared, run2[|run2| - 1].shared, h.id)
    ensures forall sorter :: FirstCopiesBy(sorter, job, run1) && FirstCopiesBy(sorter, job, run2)
              ==> forall h :: h in RatedOf(job.query.hits) ==>
                    QuoteAgrees(run1[|run1| - 1].shared, run2[|run2| - 1].shared, h.id)
  {
    hide Collected, Init, Next, GoodHits, Settled, Same, QuotesBy, FirstCopiesBy;
    var s, t := run1[|run1| - 1].shared, run2[|run2| - 1].shared;
    RunInv(job, run1, |run1| - 1);
    RunInv(job, run2, |run2| - 1);
    OverMeansAll(job, run1[|run1| - 1]);
    OverMeansAll(job, run2[|run2| - 1]);
    CollectionsAgree(job.rules, RatedOf(job.query.hits), s, t);
    CollectedBelow(job.rules, RatedOf(job.query.hits), s);
    SortedIsUnique(job.rules.differ, job.rules.bound, s.ents, t.ents);
    forall sorter | FirstCopiesBy(sorter, job, run1) && FirstCopiesBy(sorter, job, run2)
      ensures forall h :: h in RatedOf(job.query.hits) ==> QuoteAgrees(s, t, h.id)
    {
      OverQuotesBy(sorter, job, run1);
      OverQuotesBy(sorter, job, run2);
      OneSortAgrees(sorter, RatedOf(job.query.hits), s, t);
    }
  }

  lemma CollectedBelow(rules: Rules, seen: set<Hit>, s: Holding)
    requires GoodHits(rules.bound, seen) && Collected(rules, seen, s)
    ensures IdsBelow(Elems(s.ents), rules.bound)
  {
  }
}
