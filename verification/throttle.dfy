/** The request throttle of utils/libruseq/sender.cpp as a state machine: submitters are admitted under a mutex,
    callbacks count requests out and move the limit by compare-and-swap, all interleaved step by step. */
module Throttle {
  import opened Basics

  /** What a callback does to `maxrequests`. */
  datatype Adjust = Keep | Down | Up

  function Apply(a: Adjust, limit: int): int {
    match a
    case Keep => limit
    case Down => Max(limit - 1, 4)
    case Up => Min(limit + 1, 100)
  }

  datatype Status = Success(elapsed: real) | TimedOut | Fault

  /** Slow answers and timeouts lower the limit, quick answers raise it. */
  function AdjustFor(s: Status): Adjust {
    match s
    case Success(elapsed) => if elapsed > 3.0 then Down else if 0.0 < elapsed < 1.5 then Up else Keep
    case TimedOut => Down
    case Fault => Keep
  }

  /** A thread in `IndexArchive`. All but `Outside` and `Waiting` hold the mutex. */
  datatype Submitter =
    | Outside
    | Waiting                  // inside `waiter.wait`, mutex released
    | Locked                   // about to evaluate `processing < maxrequests`
    | ReadProcessing(p: int)   // one operand loaded
    | ReadLimit(m: int)        // the other operand loaded first
    | Admitted                 // the predicate was true
    | Inserted                 // the request is in flight, `++processing` still to come
    | Leaving                  // counted, about to release the mutex

  /** A request, from `Insert` to the end of its callback. */
  datatype Request =
    | Flying
    | Returned(a: Adjust)            // `--processing` done
    | Loaded(a: Adjust, cur: int)    // in the compare-and-swap loop
    | Settled

  datatype State = State(limit: int, processing: int, holder: Option<nat>,
                         subs: map<nat, Submitter>, reqs: map<nat, Request>, history: seq<Adjust>)

  ghost predicate Init(s: State) {
    && s.limit == 20 && s.processing == 0 && s.holder == None && s.reqs == map[] && s.history == []
    && forall t :: t in s.subs ==> s.subs[t] == Outside
  }

  // ---------------------------------------------------------------------------------------
  // Steps of a submitter
  // ---------------------------------------------------------------------------------------

  function Move(s: State, t: nat, pc: Submitter): State {
    s.(subs := s.subs[t := pc])
  }

  ghost predicate At(s: State, t: nat, pc: Submitter) {
    t in s.subs && s.subs[t] == pc
  }

  ghost predicate Lock(s: State, s': State, t: nat) {
    && (At(s, t, Outside) || At(s, t, Waiting)) && s.holder == None
    && s' == Move(s, t, Locked).(holder := Some(t))
  }

  ghost predicate LoadOperand(s: State, s': State, t: nat) {
    At(s, t, Locked) && (s' == Move(s, t, ReadProcessing(s.processing)) || s' == Move(s, t, ReadLimit(s.limit)))
  }

  /** The comparison, with the second operand loaded now. */
  ghost predicate Compare(s: State, s': State, t: nat) {
    && t in s.subs && (s.subs[t].ReadProcessing? || s.subs[t].ReadLimit?)
    && var admitted := (match s.subs[t]
                        case ReadProcessing(p) => p < s.limit
                        case ReadLimit(m) => s.processing < m
                        case _ => false);
       s' == if admitted then Move(s, t, Admitted) else Move(s, t, Waiting).(holder := None)
  }

  /** `canContinue` was cleared. */
  ghost predicate GiveUp(s: State, s': State, t: nat) {
    (At(s, t, Locked) || At(s, t, Admitted)) && s' == Move(s, t, Outside).(holder := None)
  }

  ghost predicate Insert(s: State, s': State, t: nat, r: nat) {
    At(s, t, Admitted) && r !in s.reqs && s' == Move(s, t, Inserted).(reqs := s.reqs[r := Flying])
  }

  ghost predicate CountIn(s: State, s': State, t: nat) {
    At(s, t, Inserted) && s' == Move(s, t, Leaving).(processing := s.processing + 1)
  }

  ghost predicate Unlock(s: State, s': State, t: nat) {
    At(s, t, Leaving) && s' == Move(s, t, Outside).(holder := None)
  }

  // ---------------------------------------------------------------------------------------
  // Steps of a callback
  // ---------------------------------------------------------------------------------------

  ghost predicate CountOut(s: State, s': State, r: nat, status: Status) {
    && r in s.reqs && s.reqs[r] == Flying
    && s' == s.(reqs := s.reqs[r := Returned(AdjustFor(status))], processing := s.processing - 1)
  }

  ghost predicate Load(s: State, s': State, r: nat) {
    && r in s.reqs && s.reqs[r].Returned?
    && s' == s.(reqs := s.reqs[r := if s.reqs[r].a == Keep then Settled else Loaded(s.reqs[r].a, s.limit)])
  }

  /** `compare_exchange_strong`: replaces the limit if it is still `cur`, else loads it again. */
  ghost predicate Swap(s: State, s': State, r: nat) {
    && r in s.reqs && s.reqs[r].Loaded?
    && var Loaded(a, cur) := s.reqs[r];
       s' == if s.limit == cur then s.(limit := Apply(a, cur), reqs := s.reqs[r := Settled], history := s.history + [a])
             else s.(reqs := s.reqs[r := Loaded(a, s.limit)])
  }

  ghost predicate SubmitterStep(s: State, s': State, t: nat) {
    || Lock(s, s', t) || LoadOperand(s, s', t) || Compare(s, s', t) || GiveUp(s, s', t)
    || (exists r :: Insert(s, s', t, r))
    || CountIn(s, s', t) || Unlock(s, s', t)
  }

  ghost predicate CallbackStep(s: State, s': State, r: nat) {
    (exists status :: CountOut(s, s', r, status)) || Load(s, s', r) || Swap(s, s', r)
  }

  ghost predicate Next(s: State, s': State) {
    (exists t :: SubmitterStep(s, s', t)) || (exists r :: CallbackStep(s, s', r))
  }

  // ---------------------------------------------------------------------------------------
  // The invariant
  // ---------------------------------------------------------------------------------------

  /** The limit after the adjustments in `h`, one after another. */
  function Replay(h: seq<Adjust>): int {
    if h == [] then 20 else Apply(h[|h| - 1], Replay(h[..|h| - 1]))
  }

  lemma {:induction false} ReplayInRange(h: seq<Adjust>)
    ensures 4 <= Replay(h) <= 100
  {
    if h != [] {
      ReplayInRange(h[..|h| - 1]);
    }
  }

  ghost function InFlight(reqs: map<nat, Request>): set<nat> {
    set r | r in reqs && reqs[r] == Flying
  }

  ghost function SettledOf(reqs: map<nat, Request>): set<nat> {
    set r | r in reqs && reqs[r] == Settled
  }

  /** A submitter stands between `Insert` and `++processing`. */
  ghost predicate Uncounted(s: State) {
    s.holder.Some? && At(s, s.holder.value, Inserted)
  }

  predicate HoldsLock(pc: Submitter) {
    !pc.Outside? && !pc.Waiting?
  }

  ghost predicate MutexInv(s: State) {
    && (forall t :: t in s.subs && HoldsLock(s.subs[t]) ==> s.holder == Some(t))
    && (s.holder.Some? ==> s.holder.value in s.subs && HoldsLock(s.subs[s.holder.value]))
  }

  ghost predicate LimitInv(s: State) {
    s.limit == Replay(s.history) && 4 <= s.limit <= 100 && |s.history| <= |SettledOf(s.reqs)|
  }

  ghost predicate CountInv(s: State) {
    s.processing == |InFlight(s.reqs)| - (if Uncounted(s) then 1 else 0)
  }

  /** What the holder of the mutex knows, as long as the limit has never been above `bound`: it alone can make
      `processing` grow. */
  ghost predicate AdmissionInv(s: State, bound: int) {
    && |InFlight(s.reqs)| <= bound
    && forall t :: t in s.subs ==>
         match s.subs[t]
         case ReadProcessing(p) => s.processing <= p
         case ReadLimit(m) => m <= bound
         case Admitted => s.processing < bound
         case _ => true
  }

  ghost predicate Inv(s: State, bound: int) {
    MutexInv(s) && LimitInv(s) && CountInv(s) && AdmissionInv(s, bound)
  }

  lemma InitInv(s: State, bound: int)
    requires Init(s) && s.limit <= bound
    ensures Inv(s, bound)
  {
  }

  lemma MutexKeeps(s: State, s': State, t: nat, bound: int)
    requires Inv(s, bound) && (Lock(s, s', t) || GiveUp(s, s', t) || Unlock(s, s', t))
    ensures Inv(s', bound)
  {
    assert s'.reqs == s.reqs;
    assert forall u :: u in s'.subs && u != t ==> u in s.subs && s'.subs[u] == s.subs[u];
  }

  lemma CompareKeeps(s: State, s': State, t: nat, bound: int)
    requires Inv(s, bound) && s.limit <= bound && (LoadOperand(s, s', t) || Compare(s, s', t) || CountIn(s, s', t))
    ensures Inv(s', bound)
  {
    assert s'.reqs == s.reqs;
    assert forall u :: u in s'.subs && u != t ==> u in s.subs && s'.subs[u] == s.subs[u];
  }

  lemma SubmitterKeeps(s: State, s': State, t: nat, bound: int)
    requires Inv(s, bound) && s.limit <= bound
    requires Lock(s, s', t) || LoadOperand(s, s', t) || Compare(s, s', t) || GiveUp(s, s', t)
             || CountIn(s, s', t) || Unlock(s, s', t)
    ensures Inv(s', bound)
  {
    hide *;
    if Lock(s, s', t) || GiveUp(s, s', t) || Unlock(s, s', t) {
      MutexKeeps(s, s', t, bound);
    } else {
      CompareKeeps(s, s', t, bound);
    }
  }

  lemma InsertKeeps(s: State, s': State, t: nat, r: nat, bound: int)
    requires Inv(s, bound) && Insert(s, s', t, r)
    ensures Inv(s', bound)
  {
    assert InFlight(s'.reqs) == InFlight(s.reqs) + {r} && r !in InFlight(s.reqs);
    assert SettledOf(s'.reqs) == SettledOf(s.reqs);
    assert HoldsLock(s.subs[t]) && s.holder == Some(t) && !Uncounted(s) && Uncounted(s');
    assert s.processing == |InFlight(s.reqs)| < bound;
    hide InFlight, SettledOf, Replay;
  }

  lemma CountOutKeeps(s: State, s': State, r: nat, status: Status, bound: int)
    requires Inv(s, bound) && CountOut(s, s', r, status)
    ensures Inv(s', bound)
  {
    assert InFlight(s'.reqs) == InFlight(s.reqs) - {r};
    assert SettledOf(s'.reqs) == SettledOf(s.reqs);
  }

  lemma Reload(s: State, s': State, r: nat, bound: int)
    requires Inv(s, bound) && r in s.reqs && s.reqs[r] != Flying && s.reqs[r] != Settled
    requires exists a, cur :: s' == s.(reqs := s.reqs[r := Loaded(a, cur)])
    ensures Inv(s', bound)
  {
    assert InFlight(s'.reqs) == InFlight(s.reqs);
    assert SettledOf(s'.reqs) == SettledOf(s.reqs);
  }

  lemma Settle(s: State, s': State, r: nat, bound: int)
    requires Inv(s, bound) && r in s.reqs && s.reqs[r] != Flying && s.reqs[r] != Settled
    requires s' == s.(limit := s'.limit, history := s'.history, reqs := s.reqs[r := Settled])
    requires s'.limit == Replay(s'.history) && |s'.history| <= |s.history| + 1
    ensures Inv(s', bound)
  {
    ReplayInRange(s'.history);
    assert InFlight(s'.reqs) == InFlight(s.reqs);
    assert SettledOf(s'.reqs) == SettledOf(s.reqs) + {r} && r !in SettledOf(s.reqs);
    hide InFlight, SettledOf, Replay;
  }

  lemma AdjustKeeps(s: State, s': State, r: nat, bound: int)
    requires Inv(s, bound) && (Load(s, s', r) || Swap(s, s', r))
    ensures Inv(s', bound)
  {
    if s'.reqs[r].Loaded? {
      Reload(s, s', r, bound);
    } else {
      assert s'.history == s.history || s'.history[..|s.history|] == s.history;
      Settle(s, s', r, bound);
    }
  }

  /** Every step of every thread keeps the invariant. */
  lemma NextKeeps(s: State, s': State, bound: int)
    requires Inv(s, bound) && s.limit <= bound && Next(s, s')
    ensures Inv(s', bound)
  {
    hide Inv;
    if t :| SubmitterStep(s, s', t) {
      if r :| Insert(s, s', t, r) {
        InsertKeeps(s, s', t, r, bound);
      } else {
        SubmitterKeeps(s, s', t, bound);
      }
    } else {
      var r :| CallbackStep(s, s', r);
      if status :| CountOut(s, s', r, status) {
        CountOutKeeps(s, s', r, status, bound);
      } else {
        AdjustKeeps(s, s', r, bound);
      }
    }
  }

  ghost predicate IsRun(run: seq<State>) {
    run != [] && Init(run[0]) && forall i :: 0 <= i < |run| - 1 ==> Next(run[i], run[i + 1])
  }

  /** The limit never was above `bound` up to moment `i`. */
  ghost predicate LimitedTo(run: seq<State>, i: nat, bound: int)
    requires i < |run|
  {
    forall j :: 0 <= j <= i ==> run[j].limit <= bound
  }

  lemma {:induction false} RunInv(run: seq<State>, i: nat, bound: int)
    requires IsRun(run) && i < |run| && (bound >= 100 || LimitedTo(run, i, bound))
    ensures Inv(run[i], bound)
  {
    if i == 0 {
      InitInv(run[0], bound);
    } else {
      RunInv(run, i - 1, bound);
      NextKeeps(run[i - 1], run[i], bound);
    }
  }

  /** At every moment of every run: the limit lies in 4..100, at most 100 requests are in flight, and the counter
      is the number of requests in flight, one less exactly while a submitter has not counted its request yet. */
  lemma ThrottleHolds(run: seq<State>, i: nat)
    requires IsRun(run) && i < |run|
    ensures var s := run[i];
            && 4 <= s.limit <= 100
            && |InFlight(s.reqs)| <= 100
            && (s.processing == |InFlight(s.reqs)| - 1 <==> Uncounted(s))
            && (s.processing == |InFlight(s.reqs)| <==> !Uncounted(s))
            && -1 <= s.processing <= 100
  {
    RunInv(run, i, 100);
  }

  /** The limit limits: as long as it has never been above some bound, no more requests than that are in flight. */
  lemma LimitHolds(run: seq<State>, i: nat, bound: int)
    requires IsRun(run) && i < |run|
    requires forall j :: 0 <= j <= i ==> run[j].limit <= bound
    ensures |InFlight(run[i].reqs)| <= bound
  {
    RunInv(run, i, bound);
  }

  /** A submitter that loaded one operand at moment `i` and the other at `j` is admitted exactly if the number of
      requests it saw is below the limit it saw; else it waits, and the mutex is free. */
  lemma AdmittedExactly(run: seq<State>, i: nat, j: nat, t: nat)
    requires IsRun(run) && i < j < |run| - 1
    requires LoadOperand(run[i], run[i + 1], t) && Compare(run[j], run[j + 1], t)
    requires At(run[j], t, run[i + 1].subs[t])
    ensures run[i + 1].subs[t].ReadProcessing? ==>
              (At(run[j + 1], t, Admitted) <==> run[i].processing < run[j].limit)
    ensures run[i + 1].subs[t].ReadLimit? ==>
              (At(run[j + 1], t, Admitted) <==> run[j].processing < run[i].limit)
    ensures !At(run[j + 1], t, Admitted) ==> At(run[j + 1], t, Waiting) && run[j + 1].holder == None
  {
  }

  /** No update of the limit is lost and no callback makes two: the limit always is the result of the successful
      swaps, one after another, and there are at most as many of them as finished callbacks. */
  lemma NoLostUpdate(run: seq<State>, i: nat)
    requires IsRun(run) && i < |run|
    ensures run[i].limit == Replay(run[i].history)
    ensures run[i].history == [] ==> run[i].limit == 20
    ensures |run[i].history| <= |SettledOf(run[i].reqs)|
  {
    RunInv(run, i, 100);
  }

  // ---------------------------------------------------------------------------------------
  // What an answer does to the limit
  // ---------------------------------------------------------------------------------------

  /** The limit changes only when a callback exchanges it. */
  lemma OnlyExchangesMove(s: State, s': State)
    requires Next(s, s') && s'.limit != s.limit
    ensures exists r :: Swap(s, s', r)
  {
    if t :| SubmitterStep(s, s', t) {
      SubmitterLeavesLimit(s, s', t);
    } else {
      var r :| CallbackStep(s, s', r);
      if !Swap(s, s', r) {
        OthersLeaveLimit(s, s', r);
      }
    }
  }

  lemma SubmitterLeavesLimit(s: State, s': State, t: nat)
    requires SubmitterStep(s, s', t)
    ensures s'.limit == s.limit
  {
  }

  lemma OthersLeaveLimit(s: State, s': State, r: nat)
    requires CallbackStep(s, s', r) && !Swap(s, s', r)
    ensures s'.limit == s.limit
  {
  }

  /** The callback of request `r` is past its decrement, and has `a` still to do or done. */
  ghost predicate Does(s: State, r: nat, a: Adjust) {
    && r in s.reqs
    && match s.reqs[r]
       case Flying => false
       case Returned(b) => b == a
       case Loaded(b, _) => b == a && a != Keep
       case Settled => true
  }

  lemma DoesStays(s: State, s': State, r: nat, a: Adjust)
    requires Next(s, s') && Does(s, r, a)
    ensures Does(s', r, a)
  {
    if t :| SubmitterStep(s, s', t) {
      assert r in s'.reqs && s'.reqs[r] == s.reqs[r];
    }
  }

  lemma CountedOut(s: State, s': State, r: nat, status: Status)
    requires CountOut(s, s', r, status)
    ensures Does(s', r, AdjustFor(status))
  {
  }

  lemma {:induction false} DoesUntil(run: seq<State>, i: nat, j: nat, r: nat, status: Status)
    requires IsRun(run) && i < j < |run| && CountOut(run[i], run[i + 1], r, status)
    ensures Does(run[j], r, AdjustFor(status))
  {
    hide Next;
    if j == i + 1 {
      hide Next, IsRun, Init;
      CountedOut(run[i], run[j], r, status);
    } else {
      DoesUntil(run, i, j - 1, r, status);
      DoesStays(run[j - 1], run[j], r, AdjustFor(status));
    }
  }

  ghost predicate Slow(status: Status) {
    status.TimedOut? || (status.Success? && status.elapsed > 3.0)
  }

  ghost predicate Quick(status: Status) {
    status.Success? && 0.0 < status.elapsed < 1.5
  }

  /** The request was answered at moment `i`, and its callback goes on at `j`: it tries to exchange the limit after a
      timeout, a slow answer or a quick one, and after no other. */
  lemma AnswerTries(run: seq<State>, i: nat, j: nat, r: nat, status: Status)
    requires IsRun(run) && i < j < |run| - 1
    requires CountOut(run[i], run[i + 1], r, status) && Load(run[j], run[j + 1], r)
    ensures !Slow(status) && !Quick(status) ==> run[j + 1].reqs[r] == Settled
    ensures Slow(status) || Quick(status) ==> run[j + 1].reqs[r].Loaded? && run[j + 1].reqs[r].cur == run[j].limit
    ensures run[j + 1].limit == run[j].limit
  {
    hide IsRun;
    DoesUntil(run, i, j, r, status);
  }

  /** The request was answered at moment `i`, and its callback tries to exchange the limit at `j`: a timeout or a slow
      answer lowers the limit by one, but not below 4, a quick one raises it by one, but not above 100. An attempt that
      fails leaves it, and is followed by another; it fails exactly if the limit is not what the callback has loaded. */
  lemma AnswerMovesLimit(run: seq<State>, i: nat, j: nat, r: nat, status: Status)
    requires IsRun(run) && i < j < |run| - 1
    requires CountOut(run[i], run[i + 1], r, status) && Swap(run[j], run[j + 1], r)
    ensures Slow(status) || Quick(status)
    ensures var before, after, done := run[j].limit, run[j + 1].limit, run[j + 1].reqs[r] == Settled;
            && (done <==> before == run[j].reqs[r].cur)
            && (!done ==> after == before && run[j + 1].reqs[r].Loaded? && run[j + 1].reqs[r].cur == before)
            && (done && Slow(status) ==> after == if before == 4 then 4 else before - 1)
            && (done && Quick(status) ==> after == if before == 100 then 100 else before + 1)
  {
    hide IsRun;
    DoesUntil(run, i, j, r, status);
    ThrottleHolds(run, j);
  }
}
