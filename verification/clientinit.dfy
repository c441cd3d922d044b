/** The one-time creation of the HTTP client in src/network/http/client.cpp: `Client::SetAddress` spins on one
    atomic pointer whose lowest bit says that somebody is about to create the client. */
module ClientInit {
  import opened Basics

  /** Addresses are even; 0 is the null pointer. */
  function Clean(p: nat): nat { p - p % 2 }
  function Dirty(p: nat): nat { Clean(p) + 1 }

  const NULL: nat := 0

  datatype Thread =
    | Start
    | Spin(global: nat)    // before the test of the loop
    | Creating             // the exchange succeeded
    | Storing(p: nat)  // the client exists, the store is still to come
    | Out(global: nat)     // has a client

  /** `cell` is `globalClient`; `created` are the clients created so far. */
  datatype State = State(cell: nat, threads: map<nat, Thread>, created: seq<nat>)

  ghost predicate Init(s: State) {
    s.cell == NULL && s.created == [] && forall t :: t in s.threads ==> s.threads[t] == Start
  }

  function Move(s: State, t: nat, pc: Thread): State {
    s.(threads := s.threads[t := pc])
  }

  /** `global = clean( globalClient.load() )`. */
  ghost predicate Load(s: State, s': State, t: nat) {
    t in s.threads && s.threads[t] == Start && s' == Move(s, t, Spin(Clean(s.cell)))
  }

  /** The loop ends because there is a client. */
  ghost predicate Leave(s: State, s': State, t: nat) {
    && t in s.threads && s.threads[t].Spin? && s.threads[t].global != NULL
    && s' == Move(s, t, Out(s.threads[t].global))
  }

  /** The loop tests null and tries to exchange it for its dirty form; a failure yields what was there, cleaned. */
  ghost predicate Exchange(s: State, s': State, t: nat) {
    && t in s.threads && s.threads[t].Spin? && s.threads[t].global == NULL
    && s' == if s.cell == s.threads[t].global then Move(s, t, Creating).(cell := Dirty(s.threads[t].global))
             else Move(s, t, Spin(Clean(s.cell)))
  }

  /** `new http::Client`: an aligned address that is not null. */
  ghost predicate Create(s: State, s': State, t: nat, p: nat) {
    && t in s.threads && s.threads[t] == Creating && p != NULL && p % 2 == 0
    && s' == Move(s, t, Storing(p)).(created := s.created + [p])
  }

  ghost predicate Store(s: State, s': State, t: nat) {
    && t in s.threads && s.threads[t].Storing?
    && s' == Move(s, t, Out(s.threads[t].p)).(cell := s.threads[t].p)
  }

  ghost predicate Next(s: State, s': State) {
    exists t ::
      Load(s, s', t) || Leave(s, s', t) || Exchange(s, s', t) || (exists p :: Create(s, s', t, p)) || Store(s, s', t)
  }

  /** Threads between the exchange that succeeded and the store. */
  ghost function Winners(s: State): set<nat> {
    set t | t in s.threads && (s.threads[t].Creating? || s.threads[t].Storing?)
  }

  ghost predicate HasClient(s: State, p: nat) {
    s.created == [p] && p != NULL && p % 2 == 0
  }

  /** Nobody has won yet; or one thread has and the cell is dirty; or the cell holds the one client. */
  ghost predicate Inv(s: State) {
    && (s.cell == NULL || s.cell == Dirty(NULL) || HasClient(s, s.cell))
    && (s.cell == Dirty(NULL) <==> Winners(s) != {})
    && |Winners(s)| <= 1
    && (s.cell == NULL ==> s.created == [])
    && |s.created| <= 1
    && forall t :: t in s.threads ==>
         match s.threads[t]
         case Start => true
         case Spin(global) => global == NULL || (global == s.cell && HasClient(s, global))
         case Creating => s.created == []
         case Storing(p) => HasClient(s, p)
         case Out(global) => global == s.cell && HasClient(s, global)
  }

  lemma InitInv(s: State)
    requires Init(s)
    ensures Inv(s)
  {
  }

  lemma OnlyWinner(s: State, t: nat)
    requires Inv(s) && t in Winners(s)
    ensures Winners(s) == {t}
  {
    SubsetSize({t}, Winners(s));
  }

  lemma SpinKeeps(s: State, s': State, t: nat)
    requires Inv(s) && (Load(s, s', t) || Leave(s, s', t) || Exchange(s, s', t))
    ensures Inv(s')
  {
    if s'.cell == s.cell {
      assert Winners(s') == Winners(s);
    } else {
      assert Winners(s') == {t};
    }
  }

  lemma WinnerKeeps(s: State, s': State, t: nat)
    requires Inv(s) && ((exists p :: Create(s, s', t, p)) || Store(s, s', t))
    ensures Inv(s')
  {
    assert t in Winners(s);
    OnlyWinner(s, t);
    forall u | u in s.threads && u != t ensures !s.threads[u].Creating? && !s.threads[u].Storing? {
      assert u !in Winners(s);
    }
    if Store(s, s', t) {
      assert Winners(s') == {};
    } else {
      assert Winners(s') == {t};
    }
  }

  ghost predicate IsRun(run: seq<State>) {
    run != [] && Init(run[0]) && forall i :: 0 <= i < |run| - 1 ==> Next(run[i], run[i + 1])
  }

  lemma {:induction false} RunInv(run: seq<State>, i: nat)
    requires IsRun(run) && i < |run|
    ensures Inv(run[i])
  {
    if i == 0 {
      InitInv(run[0]);
    } else {
      RunInv(run, i - 1);
      var s, s' := run[i - 1], run[i];
      assert Next(s, s');
      var t :| Load(s, s', t) || Leave(s, s', t) || Exchange(s, s', t)
            || (exists p :: Create(s, s', t, p)) || Store(s, s', t);
      if Load(s, s', t) || Leave(s, s', t) || Exchange(s, s', t) {
        SpinKeeps(s, s', t);
      } else {
        WinnerKeeps(s, s', t);
      }
    }
  }

  /** At most one client is ever created, and every thread that gets through leaves with that one. */
  lemma OneClient(run: seq<State>, i: nat, t: nat, u: nat)
    requires IsRun(run) && i < |run|
    ensures |run[i].created| <= 1
    ensures t in run[i].threads && run[i].threads[t].Out? ==> run[i].created == [run[i].threads[t].global]
    ensures t in run[i].threads && u in run[i].threads && run[i].threads[t].Out? && run[i].threads[u].Out?
            ==> run[i].threads[t] == run[i].threads[u]
  {
    RunInv(run, i);
  }

  /** While a thread must spin there is another one that is on its way to let it through. */
  lemma SpinnerIsServed(run: seq<State>, i: nat, t: nat)
    requires IsRun(run) && i < |run|
    requires t in run[i].threads && run[i].threads[t] == Spin(NULL)
    ensures run[i].cell == NULL || HasClient(run[i], run[i].cell) || exists u :: u in Winners(run[i]) && u != t
  {
    RunInv(run, i);
    if run[i].cell == Dirty(NULL) {
      var u :| u in Winners(run[i]);
    }
  }

  /** The first thread that attempts the exchange wins it, and creates. */
  lemma FirstExchangeWins(s: State, s': State, t: nat)
    requires Exchange(s, s', t) && s.cell == NULL
    ensures s'.threads[t] == Creating && s'.cell == Dirty(NULL)
  {
  }

  /** Once the client is stored, a spinning thread needs one more attempt: it sees the client, and leaves with it. */
  lemma SpinnerLeaves(run: seq<State>, i: nat, t: nat, s: State, s': State)
    requires IsRun(run) && i < |run| && HasClient(run[i], run[i].cell)
    requires Exchange(run[i], s, t)
    ensures s.threads[t] == Spin(run[i].cell) && s.cell == run[i].cell
    ensures Leave(s, s', t) ==> s'.threads[t] == Out(run[i].cell)
    ensures exists s'' :: Leave(s, s'', t)
  {
    RunInv(run, i);
    assert Leave(s, Move(s, t, Out(run[i].cell)), t);
  }
}
