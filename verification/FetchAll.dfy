/**
 Fetching several boards at once, all or nothing, and looking an instrument up in them. The workers
 run as goroutines: a step below is what one of them does between two points where another may come in.
 */
module FetchAll {
  import opened Wrappers
  import opened Board
  import opened Sums
  import CacheProtocol
  import CacheInvariants

  /** The supported markets, in their stable order. */
  const MARKETS: seq<Market> := ["coin", "currency", "gold"]

  datatype Failure =
    | UnknownMarket(market: Market)
    | Upstream(cause: CacheProtocol.Failure)
    | NotFound(key: string)

  const CANCELED := Upstream(CacheProtocol.Canceled)

  datatype Fetched = Got(snap: Snapshot) | Failed(err: Failure)

  /** One board: its name is checked, and the rest is up to the cache. */
  function Fetch(m: Market, answer: CacheProtocol.Outcome): Fetched {
    if m !in MARKETS then Failed(UnknownMarket(m))
    else
      match answer.err
      case Some(cause) => Failed(Upstream(cause))
      case None => Got(answer.snap)
  }

  // ----- the workers -----

  datatype Worker =
    | Fetching
    | Holding(fetched: Fetched)
    | Recorded                    // its error is written, and the others are not yet cancelled
    | Done

  /** What the goroutines share, where each of them is, and what each fetch came to. */
  datatype State = State(
    workers: seq<Worker>, out: map<Market, Snapshot>, errs: seq<Option<Failure>>, cancelled: bool,
    results: seq<Option<Fetched>>, byCaller: bool)

  function Repeat<T>(x: T, n: nat): (xs: seq<T>)
    ensures |xs| == n && forall i :: 0 <= i < n ==> xs[i] == x
  {
    seq(n, _ => x)
  }

  function Start(n: nat): State {
    State(Repeat(Fetching, n), map[], Repeat(None, n), false, Repeat(None, n), false)
  }

  datatype Action =
    | CallerCancels
    | Return(i: nat, answer: CacheProtocol.Outcome)
    | StoreBoard(i: nat)
    | StoreError(i: nat)
    | CancelOthers(i: nat)

  /** The cache answers with what a fetch of the market came to, or because the context is done. */
  predicate MayAnswer(s: State, m: Market, answer: CacheProtocol.Outcome) {
    CacheInvariants.Honest(m, answer) || (s.cancelled && answer.err == Some(CacheProtocol.Canceled))
  }

  predicate Enabled(markets: seq<Market>, s: State, a: Action)
    requires |s.workers| == |markets|
  {
    match a
    case CallerCancels => true
    case Return(i, answer) => i < |markets| && s.workers[i].Fetching? && MayAnswer(s, markets[i], answer)
    case StoreBoard(i) => i < |markets| && s.workers[i].Holding? && s.workers[i].fetched.Got?
    case StoreError(i) => i < |markets| && s.workers[i].Holding? && s.workers[i].fetched.Failed?
    case CancelOthers(i) => i < |markets| && s.workers[i].Recorded?
  }

  function Apply(markets: seq<Market>, s: State, a: Action): State
    requires |s.workers| == |s.errs| == |s.results| == |markets| && Enabled(markets, s, a)
  {
    match a
    case CallerCancels => s.(cancelled := true, byCaller := true)
    case Return(i, answer) =>
      var fetched := Fetch(markets[i], answer);
      s.(workers := s.workers[i := Holding(fetched)], results := s.results[i := Some(fetched)])
    case StoreBoard(i) => s.(workers := s.workers[i := Done], out := s.out[markets[i] := s.workers[i].fetched.snap])
    case StoreError(i) => s.(workers := s.workers[i := Recorded], errs := s.errs[i := Some(s.workers[i].fetched.err)])
    case CancelOthers(i) => s.(workers := s.workers[i := Done], cancelled := true)
  }

  predicate Shaped(markets: seq<Market>, s: State) {
    |s.workers| == |s.errs| == |s.results| == |markets|
  }

  ghost predicate Step(markets: seq<Market>, s: State, a: Action, t: State) {
    Shaped(markets, s) && Enabled(markets, s, a) && t == Apply(markets, s, a)
  }

  ghost predicate IsRun(markets: seq<Market>, run: seq<State>, acts: seq<Action>) {
    && |run| == |acts| + 1 && run[0] == Start(|markets|)
    && forall k {:trigger acts[k]} :: 0 <= k < |acts| ==> Step(markets, run[k], acts[k], run[k + 1])
  }

  // ----- joining -----

  predicate AllDone(s: State) {
    forall i :: 0 <= i < |s.workers| ==> s.workers[i].Done?
  }

  /** The errors there are, in the order of the markets. */
  function Present(errs: seq<Option<Failure>>): seq<Failure> {
    if errs == [] then []
    else
      var last := errs[|errs| - 1];
      Present(errs[..|errs| - 1]) + (if last.Some? then [last.value] else [])
  }

  datatype Joined = Boards(boards: map<Market, Snapshot>) | Errors(errs: seq<Failure>)

  function Join(s: State): Joined {
    if Present(s.errs) == [] then Boards(s.out) else Errors(Present(s.errs))
  }

  lemma {:induction false} PresentIs(errs: seq<Option<Failure>>, f: Failure)
    ensures f in Present(errs) <==> Some(f) in errs
  {
    if errs != [] {
      PresentIs(errs[..|errs| - 1], f);
      assert errs == errs[..|errs| - 1] + [errs[|errs| - 1]];
    }
  }

  /** The errors come in the order of the markets they belong to. */
  lemma {:induction false} PresentInOrder(errs: seq<Option<Failure>>, i: nat)
    requires i < |errs|
    ensures errs[i].Some? ==>
      |Present(errs[..i])| < |Present(errs)| && Present(errs)[|Present(errs[..i])|] == errs[i].value
    ensures |Present(errs[..i + 1])| == |Present(errs[..i])| + (if errs[i].Some? then 1 else 0)
  {
    var n := |errs| - 1;
    assert errs[..i + 1][..i] == errs[..i];
    if i == n {
      assert errs[..i + 1] == errs;
    } else {
      PresentInOrder(errs[..n], i);
      assert errs[..n][..i] == errs[..i];
    }
  }

  // ----- what every step keeps -----

  predicate WorkerOk(s: State, m: Market, w: Worker, result: Option<Fetched>, err: Option<Failure>) {
    && (result.Some? && result.value.Got? ==> m in MARKETS && result.value.snap.market == m)
    && (result == Some(Failed(CANCELED)) ==> s.cancelled)
    && match w
       case Fetching => result == None && err == None
       case Holding(fetched) => result == Some(fetched) && err == None
       case Recorded => err.Some? && result == Some(Failed(err.value))
       case Done =>
         if err.Some? then result == Some(Failed(err.value)) && s.cancelled
         else result.Some? && result.value.Got? && m in s.out
  }

  /** Some worker stored this board for this market. */
  ghost predicate Stored(markets: seq<Market>, s: State, m: Market, snap: Snapshot)
    requires Shaped(markets, s)
  {
    exists i :: 0 <= i < |markets| && markets[i] == m && s.results[i] == Some(Got(snap))
  }

  /** An error that is not a cancellation is on record. */
  ghost predicate RootCause(s: State) {
    exists i :: 0 <= i < |s.errs| && s.errs[i].Some? && s.errs[i] != Some(CANCELED)
  }

  ghost predicate Inv(markets: seq<Market>, s: State) {
    && Shaped(markets, s)
    && (forall i :: 0 <= i < |markets| ==> WorkerOk(s, markets[i], s.workers[i], s.results[i], s.errs[i]))
    && (forall m :: m in s.out ==> Stored(markets, s, m, s.out[m]))
    && (s.cancelled ==> s.byCaller || RootCause(s))
  }

  lemma {:induction false} StoredStays(markets: seq<Market>, s: State, t: State, m: Market, snap: Snapshot)
    requires Shaped(markets, s) && Shaped(markets, t) && Stored(markets, s, m, snap)
    requires forall i :: 0 <= i < |markets| && s.results[i].Some? ==> t.results[i] == s.results[i]
    ensures Stored(markets, t, m, snap)
  {
    var i :| 0 <= i < |markets| && markets[i] == m && s.results[i] == Some(Got(snap));
    assert t.results[i] == Some(Got(snap));
  }

  lemma {:induction false} StepWorkers(markets: seq<Market>, s: State, a: Action, t: State)
    requires Inv(markets, s) && Step(markets, s, a, t)
    ensures Shaped(markets, t)
    ensures forall i :: 0 <= i < |markets| ==> WorkerOk(t, markets[i], t.workers[i], t.results[i], t.errs[i])
  {
    forall i | 0 <= i < |markets|
      ensures WorkerOk(t, markets[i], t.workers[i], t.results[i], t.errs[i])
    {
      StepWorker(markets, s, a, t, i);
    }
  }

  lemma {:induction false} StepWorker(markets: seq<Market>, s: State, a: Action, t: State, i: nat)
    requires Inv(markets, s) && Step(markets, s, a, t) && i < |markets|
    ensures Shaped(markets, t) && WorkerOk(t, markets[i], t.workers[i], t.results[i], t.errs[i])
  {
    assert WorkerOk(s, markets[i], s.workers[i], s.results[i], s.errs[i]);
  }

  lemma {:induction false} StepBoards(markets: seq<Market>, s: State, a: Action, t: State)
    requires Inv(markets, s) && Step(markets, s, a, t)
    ensures Shaped(markets, t) && forall m :: m in t.out ==> Stored(markets, t, m, t.out[m])
  {
    forall m | m in t.out
      ensures Stored(markets, t, m, t.out[m])
    {
      if a.StoreBoard? && m == markets[a.i] {
        assert t.results[a.i] == Some(Got(t.out[m]));
      } else {
        StoredStays(markets, s, t, m, s.out[m]);
      }
    }
  }

  /** A worker cancels the others over an error that was not itself a cancellation, or that had been caused by one. */
  lemma {:induction false} StepCause(markets: seq<Market>, s: State, a: Action, t: State)
    requires Inv(markets, s) && Step(markets, s, a, t)
    ensures t.cancelled ==> t.byCaller || RootCause(t)
  {
    if RootCause(s) {
      var i :| 0 <= i < |s.errs| && s.errs[i].Some? && s.errs[i] != Some(CANCELED);
      assert WorkerOk(s, markets[i], s.workers[i], s.results[i], s.errs[i]);
      assert t.errs[i] == s.errs[i];
    }
    if a.CancelOthers? && !s.cancelled {
      assert WorkerOk(s, markets[a.i], s.workers[a.i], s.results[a.i], s.errs[a.i]);
      assert t.errs[a.i].Some? && t.errs[a.i] != Some(CANCELED);
    }
  }

  lemma {:induction false} RunInv(markets: seq<Market>, run: seq<State>, acts: seq<Action>, k: nat)
    requires IsRun(markets, run, acts) && k < |run|
    ensures Inv(markets, run[k])
  {
    if k > 0 {
      RunInv(markets, run, acts, k - 1);
      assert Step(markets, run[k - 1], acts[k - 1], run[k]);
      StepWorkers(markets, run[k - 1], acts[k - 1], run[k]);
      StepBoards(markets, run[k - 1], acts[k - 1], run[k]);
      StepCause(markets, run[k - 1], acts[k - 1], run[k]);
    }
  }

  // ----- all or nothing -----

  /** The map holds exactly the requested markets, each with a board that a fetch of it returned. */
  ghost predicate Complete(markets: seq<Market>, s: State, boards: map<Market, Snapshot>)
    requires Shaped(markets, s)
  {
    && (forall m :: m in boards <==> m in markets)
    && (forall m :: m in boards ==> boards[m].market == m && Stored(markets, s, m, boards[m]))
  }

  /**
   Whatever the order in which the workers finish, a map comes back exactly when every one of them got
   its board, and then it is complete; otherwise the errors come back, and no map.
   */
  lemma {:induction false} AllOrNothing(markets: seq<Market>, run: seq<State>, acts: seq<Action>)
    requires IsRun(markets, run, acts) && AllDone(run[|acts|])
    ensures Shaped(markets, run[|acts|])
    ensures var s := run[|acts|];
      && (Join(s).Boards? <==> forall i :: 0 <= i < |markets| ==> s.results[i].Some? && s.results[i].value.Got?)
      && (Join(s).Boards? ==> Complete(markets, s, Join(s).boards))
      && (Join(s).Errors? ==> forall f :: f in Join(s).errs <==> Some(Failed(f)) in s.results)
  {
    var s := run[|acts|];
    RunInv(markets, run, acts, |acts|);
    forall i | 0 <= i < |markets|
      ensures s.errs[i].Some? <==> s.results[i].Some? && s.results[i].value.Failed?
      ensures s.errs[i].Some? ==> s.results[i] == Some(Failed(s.errs[i].value)) && s.errs[i].value in Present(s.errs)
      ensures s.results[i].Some? && s.results[i].value.Got? ==> markets[i] in s.out
    {
      assert WorkerOk(s, markets[i], s.workers[i], s.results[i], s.errs[i]);
      if s.errs[i].Some? { PresentIs(s.errs, s.errs[i].value); }
    }
    forall f
      ensures f in Present(s.errs) <==> Some(Failed(f)) in s.results
    {
      PresentIs(s.errs, f);
    }
    if Present(s.errs) == [] {
      CompleteWhenAllGot(markets, s);
    } else {
      var f := Present(s.errs)[0];
      assert f in Present(s.errs);
    }
  }

  lemma {:induction false} CompleteWhenAllGot(markets: seq<Market>, s: State)
    requires Inv(markets, s)
    requires forall i :: 0 <= i < |markets| ==> s.results[i].Some? && s.results[i].value.Got? && markets[i] in s.out
    ensures Complete(markets, s, s.out)
  {
    forall m | m in s.out
      ensures m in markets && s.out[m].market == m && Stored(markets, s, m, s.out[m])
    {
      assert Stored(markets, s, m, s.out[m]);
      var i :| 0 <= i < |markets| && markets[i] == m && s.results[i] == Some(Got(s.out[m]));
      assert WorkerOk(s, markets[i], s.workers[i], s.results[i], s.errs[i]);
    }
  }

  /** Unless the caller cancelled, the errors that come back include one that is not a cancellation. */
  lemma {:induction false} RootCauseIsReported(markets: seq<Market>, run: seq<State>, acts: seq<Action>)
    requires IsRun(markets, run, acts) && AllDone(run[|acts|])
    requires Join(run[|acts|]).Errors? && CallerCancels !in acts
    ensures exists f :: f in Join(run[|acts|]).errs && f != CANCELED
  {
    var s := run[|acts|];
    RunInv(markets, run, acts, |acts|);
    NotByCaller(markets, run, acts, |acts|);
    var f := Present(s.errs)[0];
    assert f in Present(s.errs);
    PresentIs(s.errs, f);
    var i :| 0 <= i < |s.errs| && s.errs[i] == Some(f);
    assert WorkerOk(s, markets[i], s.workers[i], s.results[i], s.errs[i]);
    assert RootCause(s);
    var k :| 0 <= k < |s.errs| && s.errs[k].Some? && s.errs[k] != Some(CANCELED);
    assert Some(s.errs[k].value) in s.errs;
    PresentIs(s.errs, s.errs[k].value);
  }

  lemma {:induction false} NotByCaller(markets: seq<Market>, run: seq<State>, acts: seq<Action>, k: nat)
    requires IsRun(markets, run, acts) && k < |run| && CallerCancels !in acts
    ensures !run[k].byCaller
  {
    if k > 0 {
      NotByCaller(markets, run, acts, k - 1);
      assert Step(markets, run[k - 1], acts[k - 1], run[k]) && acts[k - 1] in acts;
    }
  }

  // ----- the finish order -----

  /** Workers on the same market came to the same result. */
  predicate Agree(markets: seq<Market>, results: seq<Option<Fetched>>)
    requires |results| == |markets|
  {
    forall i, j :: 0 <= i < |markets| && 0 <= j < |markets| && markets[i] == markets[j] ==> results[i] == results[j]
  }

  lemma {:induction false} SameErrors(markets: seq<Market>, s: State, t: State)
    requires Inv(markets, s) && Inv(markets, t) && AllDone(s) && AllDone(t) && s.results == t.results
    ensures s.errs == t.errs
  {
    forall i | 0 <= i < |markets|
      ensures s.errs[i] == t.errs[i]
    {
      assert WorkerOk(s, markets[i], s.workers[i], s.results[i], s.errs[i]);
      assert WorkerOk(t, markets[i], t.workers[i], t.results[i], t.errs[i]);
    }
  }

  lemma {:induction false} SameBoards(markets: seq<Market>, s: State, t: State)
    requires Inv(markets, s) && Inv(markets, t) && s.results == t.results && Agree(markets, s.results)
    requires Complete(markets, s, s.out) && Complete(markets, t, t.out)
    ensures s.out == t.out
  {
    forall m | m in s.out
      ensures m in t.out && t.out[m] == s.out[m]
    {
      var i :| 0 <= i < |markets| && markets[i] == m && s.results[i] == Some(Got(s.out[m]));
      var j :| 0 <= j < |markets| && markets[j] == m && t.results[j] == Some(Got(t.out[m]));
    }
    assert s.out.Keys == t.out.Keys;
  }

  predicate SomeFailed(results: seq<Option<Fetched>>) {
    exists i :: 0 <= i < |results| && results[i].Some? && results[i].value.Failed?
  }

  /**
   Two calls whose workers came to the same results return the same, in whatever order the workers
   finished, if one of them failed or no market is listed twice with different boards.
   */
  lemma {:induction false} FinishOrderIsIrrelevant(
      markets: seq<Market>, run: seq<State>, acts: seq<Action>, run': seq<State>, acts': seq<Action>)
    requires IsRun(markets, run, acts) && AllDone(run[|acts|]) && IsRun(markets, run', acts') && AllDone(run'[|acts'|])
    requires run[|acts|].results == run'[|acts'|].results && |run[|acts|].results| == |markets|
    requires SomeFailed(run[|acts|].results) || Agree(markets, run[|acts|].results)
    ensures Join(run[|acts|]) == Join(run'[|acts'|])
  {
    var s, t := run[|acts|], run'[|acts'|];
    RunInv(markets, run, acts, |acts|);
    RunInv(markets, run', acts', |acts'|);
    SameErrors(markets, s, t);
    AllOrNothing(markets, run, acts);
    AllOrNothing(markets, run', acts');
    if Join(s).Boards? { SameBoards(markets, s, t); }
  }

  /** A run to the end, in which the workers came to these results. */
  ghost predicate Finishes(markets: seq<Market>, run: seq<State>, acts: seq<Action>, results: seq<Option<Fetched>>) {
    IsRun(markets, run, acts) && AllDone(run[|acts|]) && run[|acts|].results == results
  }

  /** A board for each of the markets. */
  predicate BoardsFor(markets: seq<Market>, boards: seq<Snapshot>) {
    |boards| == |markets| && forall i :: 0 <= i < |markets| ==> markets[i] in MARKETS && boards[i].market == markets[i]
  }

  function AllGot(boards: seq<Snapshot>): (results: seq<Option<Fetched>>)
    ensures |results| == |boards| && forall i :: 0 <= i < |boards| ==> results[i] == Some(Got(boards[i]))
  {
    seq(|boards|, i requires 0 <= i < |boards| => Some(Got(boards[i])))
  }

  lemma {:induction false} RunSnoc(markets: seq<Market>, run: seq<State>, acts: seq<Action>, a: Action)
    requires IsRun(markets, run, acts) && Shaped(markets, run[|acts|]) && Enabled(markets, run[|acts|], a)
    ensures IsRun(markets, run + [Apply(markets, run[|acts|], a)], acts + [a])
  {
    var run', acts' := run + [Apply(markets, run[|acts|], a)], acts + [a];
    forall k | 0 <= k < |acts'|
      ensures Step(markets, run'[k], acts'[k], run'[k + 1])
    {
      if k < |acts| { assert Step(markets, run[k], acts[k], run[k + 1]); }
    }
  }

  /** Every worker has its board in hand, but those before i, other than the last one to finish, have stored theirs. */
  ghost predicate Storing(markets: seq<Market>, s: State, boards: seq<Snapshot>, last: nat, i: nat)
    requires |boards| == |markets|
  {
    && Shaped(markets, s) && s.results == AllGot(boards) && s.errs == Repeat(None, |markets|)
    && forall k :: 0 <= k < |markets| ==> s.workers[k] == if k < i && k != last then Done else Holding(Got(boards[k]))
  }

  lemma {:induction false} AllReturn(
      markets: seq<Market>, boards: seq<Snapshot>, last: nat)
    returns (run: seq<State>, acts: seq<Action>)
    requires BoardsFor(markets, boards)
    ensures IsRun(markets, run, acts) && Storing(markets, run[|acts|], boards, last, 0)
  {
    run, acts := [Start(|markets|)], [];
    for i := 0 to |markets|
      invariant IsRun(markets, run, acts) && Shaped(markets, run[|acts|])
      invariant run[|acts|].errs == Repeat(None, |markets|)
      invariant forall k :: 0 <= k < |markets| ==>
        run[|acts|].workers[k] == (if k < i then Holding(Got(boards[k])) else Fetching)
        && run[|acts|].results[k] == (if k < i then Some(Got(boards[k])) else None)
    {
      var a := Return(i, CacheProtocol.Outcome(boards[i], None));
      RunSnoc(markets, run, acts, a);
      run, acts := run + [Apply(markets, run[|acts|], a)], acts + [a];
    }
  }

  /** Any worker may be the last to store its board. */
  lemma {:induction false} FinishesLast(
      markets: seq<Market>, boards: seq<Snapshot>, last: nat)
    returns (run: seq<State>, acts: seq<Action>)
    requires BoardsFor(markets, boards) && last < |markets|
    ensures Finishes(markets, run, acts, AllGot(boards))
    ensures markets[last] in run[|acts|].out && run[|acts|].out[markets[last]] == boards[last]
  {
    run, acts := AllReturn(markets, boards, last);
    for i := 0 to |markets|
      invariant IsRun(markets, run, acts) && Storing(markets, run[|acts|], boards, last, i)
    {
      if i != last {
        RunSnoc(markets, run, acts, StoreBoard(i));
        run, acts := run + [Apply(markets, run[|acts|], StoreBoard(i))], acts + [StoreBoard(i)];
      }
    }
    RunSnoc(markets, run, acts, StoreBoard(last));
    run, acts := run + [Apply(markets, run[|acts|], StoreBoard(last))], acts + [StoreBoard(last)];
  }

  /** Of two calls with these results the finish order does not show in what comes back. */
  ghost predicate OrderFree(markets: seq<Market>, results: seq<Option<Fetched>>) {
    forall run, acts, run', acts' ::
      Finishes(markets, run, acts, results) && Finishes(markets, run', acts', results) ==>
      Join(run[|acts|]) == Join(run'[|acts'|])
  }

  /** Results without a failure are a board for each market. */
  lemma {:induction false} BoardsOf(markets: seq<Market>, run: seq<State>, acts: seq<Action>)
    returns (boards: seq<Snapshot>)
    requires IsRun(markets, run, acts) && AllDone(run[|acts|]) && !SomeFailed(run[|acts|].results)
    ensures BoardsFor(markets, boards) && run[|acts|].results == AllGot(boards)
  {
    var s := run[|acts|];
    RunInv(markets, run, acts, |acts|);
    forall i | 0 <= i < |markets|
      ensures markets[i] in MARKETS && s.results[i].Some? && s.results[i].value.Got?
      ensures s.results[i].value.snap.market == markets[i]
    {
      assert WorkerOk(s, markets[i], s.workers[i], s.results[i], s.errs[i]);
    }
    boards := seq(|markets|, i requires 0 <= i < |markets| => s.results[i].value.snap);
  }

  /** The finish order does not show exactly when a worker failed or those on one market got the same board. */
  lemma {:induction false} OrderFreeIff(markets: seq<Market>, results: seq<Option<Fetched>>)
    requires |results| == |markets| && exists run, acts :: Finishes(markets, run, acts, results)
    ensures OrderFree(markets, results) <==> SomeFailed(results) || Agree(markets, results)
  {
    if SomeFailed(results) || Agree(markets, results) {
      forall run, acts, run', acts' | Finishes(markets, run, acts, results) && Finishes(markets, run', acts', results)
        ensures Join(run[|acts|]) == Join(run'[|acts'|])
      {
        FinishOrderIsIrrelevant(markets, run, acts, run', acts');
      }
    } else {
      var run, acts :| Finishes(markets, run, acts, results);
      var boards := BoardsOf(markets, run, acts);
      var i, j :| 0 <= i < |markets| && 0 <= j < |markets| && markets[i] == markets[j] && results[i] != results[j];
      OrderShows(markets, boards, i, j);
    }
  }

  lemma {:induction false} OrderShows(markets: seq<Market>, boards: seq<Snapshot>, i: nat, j: nat)
    requires BoardsFor(markets, boards) && i < |markets| && j < |markets|
    requires markets[i] == markets[j] && boards[i] != boards[j]
    ensures !OrderFree(markets, AllGot(boards))
  {
    var run, acts := FinishesLast(markets, boards, i);
    var run', acts' := FinishesLast(markets, boards, j);
    AllOrNothing(markets, run, acts);
    AllOrNothing(markets, run', acts');
    assert Join(run[|acts|]) != Join(run'[|acts'|]);
  }

  /** A call for a market listed twice, whose workers fetch these two boards, can come back with this map. */
  ghost predicate CanReturn(m: Market, a: Snapshot, b: Snapshot, boards: map<Market, Snapshot>) {
    exists run, acts :: Finishes([m, m], run, acts, AllGot([a, b])) && Join(run[|acts|]) == Boards(boards)
  }

  lemma {:induction false} LastOneWins(m: Market, a: Snapshot, b: Snapshot, last: nat)
    requires m in MARKETS && a.market == m && b.market == m && last < 2
    ensures CanReturn(m, a, b, map[m := [a, b][last]])
  {
    var run, acts := FinishesLast([m, m], [a, b], last);
    AllOrNothing([m, m], run, acts);
    assert run[|acts|].out == map[m := [a, b][last]];
    assert Finishes([m, m], run, acts, AllGot([a, b])) && Join(run[|acts|]) == Boards(map[m := [a, b][last]]);
  }

  /** A market listed twice comes back with whichever of its two boards was stored last. */
  lemma {:induction false} FinishOrderShows(m: Market, a: Snapshot, b: Snapshot)
    requires m in MARKETS && a.market == m && b.market == m
    ensures CanReturn(m, a, b, map[m := a]) && CanReturn(m, a, b, map[m := b])
  {
    LastOneWins(m, a, b, 0);
    LastOneWins(m, a, b, 1);
  }

  // ----- waiting for the workers -----

  function WorkerLeft(w: Worker): nat {
    match w
    case Fetching => 3
    case Holding(_) => 2
    case Recorded => 1
    case Done => 0
  }

  /** How many of the steps are taken by workers. */
  function WorkerSteps(acts: seq<Action>): nat {
    if acts == [] then 0 else WorkerSteps(acts[..|acts| - 1]) + (if acts[|acts| - 1].CallerCancels? then 0 else 1)
  }

  lemma {:induction false} StepLeavesLess(markets: seq<Market>, s: State, a: Action, t: State)
    requires Step(markets, s, a, t)
    ensures Over(t.workers, WorkerLeft) + (if a.CallerCancels? then 0 else 1) <= Over(s.workers, WorkerLeft)
  {
    if !a.CallerCancels? {
      OverUpdate(s.workers, a.i, t.workers[a.i], WorkerLeft);
      assert t.workers == s.workers[a.i := t.workers[a.i]];
    }
  }

  /** The workers of a call take at most three steps each. */
  lemma {:induction false} WorkersAreBounded(markets: seq<Market>, run: seq<State>, acts: seq<Action>, k: nat)
    requires IsRun(markets, run, acts) && k <= |acts|
    ensures WorkerSteps(acts[..k]) + Over(run[k].workers, WorkerLeft) <= 3 * |markets|
  {
    if k == 0 {
      OverAtMost(run[0].workers, WorkerLeft, 3);
    } else {
      WorkersAreBounded(markets, run, acts, k - 1);
      assert acts[..k][..k - 1] == acts[..k - 1];
      assert Step(markets, run[k - 1], acts[k - 1], run[k]);
      StepLeavesLess(markets, run[k - 1], acts[k - 1], run[k]);
    }
  }

  /** A step of a worker that is not done. */
  lemma {:induction false} SomeoneCanStep(markets: seq<Market>, s: State) returns (a: Action)
    requires Shaped(markets, s) && !AllDone(s)
    ensures !a.CallerCancels? && Enabled(markets, s, a)
  {
    var i :| 0 <= i < |s.workers| && !s.workers[i].Done?;
    var timeout := CacheProtocol.Outcome(Snapshot("", "", 0, []), Some(CacheProtocol.DeadlineExceeded));
    a := match s.workers[i]
      case Fetching => Return(i, timeout)
      case Holding(fetched) => if fetched.Got? then StoreBoard(i) else StoreError(i)
      case Recorded => CancelOthers(i)
      case Done => CallerCancels;
  }

  /** Every run can be continued, by the workers alone, until all of them are done. */
  lemma {:induction false} EveryCallCompletes(markets: seq<Market>, run: seq<State>, acts: seq<Action>)
    returns (run': seq<State>, acts': seq<Action>)
    requires IsRun(markets, run, acts)
    ensures IsRun(markets, run', acts') && run <= run' && acts <= acts' && AllDone(run'[|acts'|])
    ensures CallerCancels !in acts'[|acts|..]
    decreases Over(run[|acts|].workers, WorkerLeft)
  {
    var s := run[|acts|];
    RunInv(markets, run, acts, |acts|);
    if AllDone(s) {
      run', acts' := run, acts;
    } else {
      var a := SomeoneCanStep(markets, s);
      StepLeavesLess(markets, s, a, Apply(markets, s, a));
      RunSnoc(markets, run, acts, a);
      run', acts' := EveryCallCompletes(markets, run + [Apply(markets, s, a)], acts + [a]);
      assert acts'[|acts|..] == [a] + acts'[|acts| + 1..];
    }
  }

  // ----- one instrument -----

  datatype Looked = Found(item: Item) | Missing(key: string) | Unfetched(errs: seq<Failure>)

  /** No market named means all of them. */
  function Requested(markets: seq<Market>): seq<Market> {
    if markets == [] then MARKETS else markets
  }

  /** The first of the markets whose board publishes the key. */
  ghost predicate FirstHolder(markets: seq<Market>, boards: map<Market, Snapshot>, key: string, k: nat, item: Item)
    requires forall m :: m in markets ==> m in boards
  {
    && k < |markets| && Lookup(boards[markets[k]], key) == Some(item)
    && forall j :: 0 <= j < k ==> Lookup(boards[markets[j]], key) == None
  }

  /** What looking a key up in the boards of the requested markets comes to, given what fetching them came to. */
  ghost predicate Finds(key: string, named: seq<Market>, fetched: Joined, r: Looked)
    requires fetched.Boards? ==> forall m :: m in Requested(named) ==> m in fetched.boards
  {
    if key == "" then r == Missing("")
    else
      match fetched
      case Errors(errs) => r == Unfetched(errs)
      case Boards(boards) =>
        match r
        case Found(item) => exists k: nat :: FirstHolder(Requested(named), boards, key, k, item)
        case Missing(missing) => missing == key && forall m :: m in Requested(named) ==> Lookup(boards[m], key) == None
        case Unfetched(_) => false
  }

  method FindItem(key: string, named: seq<Market>, fetched: Joined) returns (r: Looked)
    requires fetched.Boards? ==> forall m :: m in Requested(named) ==> m in fetched.boards
    ensures Finds(key, named, fetched, r)
  {
    if key == "" { return Missing(key); }
    var markets := if |named| == 0 then MARKETS else named;
    if fetched.Errors? { return Unfetched(fetched.errs); }
    for k := 0 to |markets|
      invariant forall j :: 0 <= j < k ==> Lookup(fetched.boards[markets[j]], key) == None
    {
      var item := LookupItem(fetched.boards[markets[k]], key);
      if item.Some? {
        assert FirstHolder(markets, fetched.boards, key, k, item.value);
        return Found(item.value);
      }
    }
    return Missing(key);
  }

  /**
   An instrument is looked up in the markets named, in that order, or in the three supported ones when none is: the
   first board that has the key answers, and it is missing exactly when none of them has it.
   */
  lemma {:induction false} FindsAmong(
      key: string, named: seq<Market>, asked: seq<Market>, boards: map<Market, Snapshot>, r: Looked)
    requires asked == if named == [] then ["coin", "currency", "gold"] else named
    requires key != "" && forall m :: m in asked ==> m in boards
    ensures Requested(named) == asked
    ensures Finds(key, named, Boards(boards), r) <==>
      if forall i :: 0 <= i < |asked| ==> Lookup(boards[asked[i]], key) == None then r == Missing(key)
      else exists k :: 0 <= k < |asked| && Lookup(boards[asked[k]], key).Some?
                       && r == Found(Lookup(boards[asked[k]], key).value)
                       && forall j :: 0 <= j < k ==> Lookup(boards[asked[j]], key) == None
  {
    if some: nat :| some < |asked| && Lookup(boards[asked[some]], key).Some? {
      var k, item := FirstWith(asked, boards, key, some);
      HolderAnswers(asked, boards, key, k, item, r);
      assert asked[k] in asked;
    } else {
      assert forall m :: m in asked ==> Lookup(boards[m], key) == None;
    }
  }

  /** The answer of the first holder is the only one. */
  lemma {:induction false} HolderAnswers(
      asked: seq<Market>, boards: map<Market, Snapshot>, key: string, k: nat, item: Item, r: Looked)
    requires forall m :: m in asked ==> m in boards
    requires FirstHolder(asked, boards, key, k, item)
    ensures r.Found? ==> ((exists l: nat :: FirstHolder(asked, boards, key, l, r.item)) <==> r.item == item)
    ensures r == Found(item) <==>
      exists l :: 0 <= l < |asked| && Lookup(boards[asked[l]], key).Some?
                  && r == Found(Lookup(boards[asked[l]], key).value)
                  && forall j :: 0 <= j < l ==> Lookup(boards[asked[j]], key) == None
  {
    if r.Found? {
      forall l: nat | FirstHolder(asked, boards, key, l, r.item)
        ensures l == k
      {
      }
    }
  }

  /** No key is missing whatever the boards hold, and without boards the errors come back. */
  lemma {:induction false} FindsNothing(key: string, named: seq<Market>, fetched: Joined, r: Looked)
    requires key == "" || fetched.Errors?
    requires fetched.Boards? ==> forall m :: m in Requested(named) ==> m in fetched.boards
    ensures Finds(key, named, fetched, r) <==> if key == "" then r == Missing("") else r == Unfetched(fetched.errs)
  {
  }

  lemma {:induction false} FirstWith(markets: seq<Market>, boards: map<Market, Snapshot>, key: string, some: nat)
    returns (k: nat, item: Item)
    requires forall m :: m in markets ==> m in boards
    requires some < |markets| && Lookup(boards[markets[some]], key).Some?
    ensures FirstHolder(markets, boards, key, k, item)
  {
    k := 0;
    while Lookup(boards[markets[k]], key) == None
      invariant k <= some
      invariant forall j :: 0 <= j < k ==> Lookup(boards[markets[j]], key) == None
      decreases some - k
    {
      k := k + 1;
    }
    item := Lookup(boards[markets[k]], key).value;
  }

  lemma {:induction false} FindsOne(key: string, named: seq<Market>, fetched: Joined, r: Looked, r': Looked)
    requires fetched.Boards? ==> forall m :: m in Requested(named) ==> m in fetched.boards
    requires Finds(key, named, fetched, r) && Finds(key, named, fetched, r')
    ensures r == r'
  {
    if r.Found? && r'.Found? {
      var markets, boards := Requested(named), fetched.boards;
      var k: nat :| FirstHolder(markets, boards, key, k, r.item);
      var l: nat :| FirstHolder(markets, boards, key, l, r'.item);
      assert k == l;
    }
  }

  /** What an instrument is looked up in: the boards of the requested markets. */
  lemma {:induction false} BoardsAreThere(named: seq<Market>, run: seq<State>, acts: seq<Action>)
    requires IsRun(Requested(named), run, acts) && AllDone(run[|acts|])
    ensures Join(run[|acts|]).Boards? ==> forall m :: m in Requested(named) ==> m in Join(run[|acts|]).boards
  {
    AllOrNothing(Requested(named), run, acts);
  }

  /** The instrument found does not depend on the order in which the boards arrived. */
  lemma {:induction false} ItemIsOrderFree(
      key: string, named: seq<Market>, run: seq<State>, acts: seq<Action>, run': seq<State>, acts': seq<Action>,
      r: Looked, r': Looked)
    requires var markets := Requested(named);
      && IsRun(markets, run, acts) && AllDone(run[|acts|]) && IsRun(markets, run', acts') && AllDone(run'[|acts'|])
      && run[|acts|].results == run'[|acts'|].results && |run[|acts|].results| == |markets|
      && (SomeFailed(run[|acts|].results) || Agree(markets, run[|acts|].results))
    requires var fetched := Join(run[|acts|]);
      && (fetched.Boards? ==> forall m :: m in Requested(named) ==> m in fetched.boards)
      && Finds(key, named, fetched, r)
    requires var fetched := Join(run'[|acts'|]);
      && (fetched.Boards? ==> forall m :: m in Requested(named) ==> m in fetched.boards)
      && Finds(key, named, fetched, r')
    ensures r == r'
  {
    FinishOrderIsIrrelevant(Requested(named), run, acts, run', acts');
    FindsOne(key, named, Join(run[|acts|]), r, r');
  }
}
