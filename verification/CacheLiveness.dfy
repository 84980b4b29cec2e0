/**
 Left alone, the cache answers every call: without new calls, cancellations, invalidations and ticks,
 the goroutines can take only so many steps, and when none of them can take another, all is answered.
 */
module CacheLiveness {
  import opened Wrappers
  import opened Sums
  import opened CacheProtocol
  import opened CacheInvariants
  import opened CacheTheorems

  // ----- how much is left to do -----

  /** The call may still register an entry. */
  function MayRegister(call: Call): nat {
    match call.place
    case Start => 1
    case Locked(_) => 1
    case Missed(_, _) => 1
    case Registering(_, _) => 1
    case Waiting(_) => 1
    case _ => 0
  }

  /** The entries there are, and those that may still be registered. */
  ghost function Horizon(s: State): nat {
    |s.fetches| + Total(s.calls, MayRegister)
  }

  /** How far a call has come. */
  function Progress(call: Call): nat {
    4 * |call.waited| + Depth(call.place)
  }

  /** What is left to a call, and to the fetch it may register, when there will be at most n entries. */
  function CallLeft(call: Call, n: nat): nat {
    var done := Progress(call);
    (if done < 4 * n + 6 then 4 * n + 6 - done else 0) + 3 * MayRegister(call)
  }

  function LeftTo(n: nat): Call -> nat {
    call => CallLeft(call, n)
  }

  function FetchLeft(f: Fetch): nat {
    match f.stage
    case Running => 3
    case Returned(_) => 2
    case Published(_, _) => 1
    case Finished(_, _) => 0
  }

  /** A bound on the steps the goroutines can still take. */
  ghost function Remaining(s: State): nat {
    Total(s.calls, LeftTo(Horizon(s))) + Over(s.fetches, FetchLeft)
  }

  // ----- every step of a goroutine leaves less -----

  function FirstIds(n: nat): (ids: set<Id>)
    ensures |ids| == n && forall e: Id :: e in ids <==> e < n
  {
    if n == 0 then {}
    else
      var rest, last: Id := FirstIds(n - 1), n - 1;
      assert last !in rest;
      rest + {last}
  }

  lemma {:induction false} WaitedFits(cfg: Config, s: State, c: Caller)
    requires Inv(cfg, s) && c in s.calls
    ensures |s.calls[c].waited| <= |s.fetches| && s.calls[c].passes <= |s.fetches| + 1
  {
    var call := s.calls[c];
    assert CallOk(cfg, s, c, call);
    forall k | 0 <= k < |call.waited|
      ensures call.waited[k] in FirstIds(|s.fetches|)
    {
      assert Belongs(s, call.waited[k], call.market);
    }
    DistinctFit(call.waited, FirstIds(|s.fetches|));
  }

  lemma {:induction false} LessHorizon(calls: map<Caller, Call>, n: nat, m: nat)
    requires n <= m
    ensures Total(calls, LeftTo(n)) <= Total(calls, LeftTo(m))
  {
    TotalGrows(calls, LeftTo(n), LeftTo(m));
  }

  /** A call that moves on, and registers nothing. */
  lemma {:induction false} CallMovesOn(s: State, t: State, c: Caller, x: Call)
    requires c in s.calls && t.calls == s.calls[c := x] && t.fetches == s.fetches
    requires MayRegister(x) <= MayRegister(s.calls[c]) && Progress(s.calls[c]) < Progress(x)
    requires Progress(s.calls[c]) < 4 * |s.fetches| + 6
    ensures Remaining(t) < Remaining(s)
  {
    var n := Horizon(s);
    TotalUpdate(s.calls, c, x, MayRegister);
    assert Horizon(t) <= n;
    LessHorizon(t.calls, Horizon(t), n);
    TotalUpdate(s.calls, c, x, LeftTo(n));
    assert CallLeft(x, n) < CallLeft(s.calls[c], n);
  }

  /** A call that registers an entry, whose fetch has then three stages to go. */
  lemma {:induction false} CallRegisters(s: State, t: State, c: Caller, x: Call, f: Fetch)
    requires c in s.calls && t.calls == s.calls[c := x] && t.fetches == s.fetches + [f] && f.stage.Running?
    requires MayRegister(x) == 0 && MayRegister(s.calls[c]) == 1 && Progress(s.calls[c]) < Progress(x)
    requires Progress(s.calls[c]) < 4 * |s.fetches| + 6
    ensures Remaining(t) < Remaining(s)
  {
    var n := Horizon(s);
    TotalUpdate(s.calls, c, x, MayRegister);
    assert Horizon(t) == n;
    TotalUpdate(s.calls, c, x, LeftTo(n));
    OverSnoc(s.fetches, f, FetchLeft);
    assert CallLeft(x, n) + 4 <= CallLeft(s.calls[c], n);
  }

  lemma {:induction false} FetchMovesOn(s: State, t: State, e: Id, f: Fetch)
    requires e < |s.fetches| && t.fetches == s.fetches[e := f] && t.calls == s.calls
    requires FetchLeft(f) < FetchLeft(s.fetches[e])
    ensures Remaining(t) < Remaining(s)
  {
    OverUpdate(s.fetches, e, f, FetchLeft);
    assert Horizon(t) == Horizon(s);
  }

  /** What a step of its own does to a call. */
  lemma {:induction false} CallAdvances(cfg: Config, s: State, a: Action, t: State, c: Caller)
    requires Step(cfg, s, a, t) && IsProgress(a) && Actor(a) == Some(c)
    ensures c in s.calls && c in t.calls && t.calls == s.calls[c := t.calls[c]]
    ensures Progress(s.calls[c]) < Progress(t.calls[c]) && MayRegister(t.calls[c]) <= MayRegister(s.calls[c])
    ensures if a.Register? then |t.fetches| == |s.fetches| + 1 && t.fetches == s.fetches + [t.fetches[|s.fetches|]]
        && t.fetches[|s.fetches|].stage.Running? && MayRegister(t.calls[c]) == 0 && MayRegister(s.calls[c]) == 1
      else t.fetches == s.fetches
  {
  }

  lemma {:induction false} StepLeavesLess(cfg: Config, s: State, a: Action, t: State)
    requires Inv(cfg, s) && Step(cfg, s, a, t) && IsProgress(a)
    ensures Remaining(t) < Remaining(s)
  {
    if Actor(a).Some? {
      var c := Actor(a).value;
      CallAdvances(cfg, s, a, t, c);
      WaitedFits(cfg, s, c);
      if a.Register? {
        CallRegisters(s, t, c, t.calls[c], t.fetches[|s.fetches|]);
      } else {
        CallMovesOn(s, t, c, t.calls[c]);
      }
    } else {
      FetchMovesOn(s, t, a.e, t.fetches[a.e]);
    }
  }

  /** From any reachable state, the goroutines left alone take at most so many steps. */
  lemma {:induction false} ProgressIsBounded(cfg: Config, run: seq<State>, acts: seq<Action>, i: nat, j: nat)
    requires cfg.Valid() && IsRun(cfg, run, acts) && i <= j <= |acts|
    requires forall k {:trigger acts[k]} :: i <= k < j ==> IsProgress(acts[k])
    ensures j - i + Remaining(run[j]) <= Remaining(run[i])
    decreases j
  {
    if i < j {
      ProgressIsBounded(cfg, run, acts, i, j - 1);
      RunInv(cfg, run, acts, j - 1);
      assert Step(cfg, run[j - 1], acts[j - 1], run[j]);
      StepLeavesLess(cfg, run[j - 1], acts[j - 1], run[j]);
    }
  }

  ghost predicate CanProgress(s: State) {
    exists a :: IsProgress(a) && Enabled(s, a)
  }

  predicate AllAnswered(s: State) {
    forall c :: c in s.calls ==> s.calls[c].place.Answered?
  }

  /** When no goroutine can take a step, every call is answered. */
  lemma {:induction false} RestIsAnswered(cfg: Config, run: seq<State>, acts: seq<Action>, i: nat)
    requires cfg.Valid() && IsRun(cfg, run, acts) && i < |run| && !CanProgress(run[i])
    ensures AllAnswered(run[i])
  {
    forall c | c in run[i].calls
      ensures run[i].calls[c].place.Answered?
    {
      if !run[i].calls[c].place.Answered? { NoDeadlock(cfg, run, acts, i, c); }
    }
  }

  lemma {:induction false} RunSnoc(cfg: Config, run: seq<State>, acts: seq<Action>, a: Action)
    requires IsRun(cfg, run, acts) && Enabled(run[|acts|], a)
    ensures IsRun(cfg, run + [Apply(cfg, run[|acts|], a)], acts + [a])
  {
    var run', acts' := run + [Apply(cfg, run[|acts|], a)], acts + [a];
    forall i {:trigger acts'[i]} | 0 <= i < |acts'|
      ensures Step(cfg, run'[i], acts'[i], run'[i + 1])
    {
      if i < |acts| { assert Step(cfg, run[i], acts[i], run[i + 1]); }
    }
  }

  /** Every run can be continued, by goroutines alone, to one in which every call is answered. */
  lemma {:induction false} EveryCallCanBeAnswered(cfg: Config, run: seq<State>, acts: seq<Action>)
    returns (run': seq<State>, acts': seq<Action>)
    requires cfg.Valid() && IsRun(cfg, run, acts)
    ensures IsRun(cfg, run', acts') && acts <= acts' && run <= run' && AllAnswered(run'[|acts'|])
    ensures forall a :: a in acts'[|acts|..] ==> IsProgress(a)
    decreases Remaining(run[|acts|])
  {
    var s := run[|acts|];
    if CanProgress(s) {
      var a :| IsProgress(a) && Enabled(s, a);
      RunSnoc(cfg, run, acts, a);
      RunInv(cfg, run, acts, |acts|);
      StepLeavesLess(cfg, s, a, Apply(cfg, s, a));
      run', acts' := EveryCallCanBeAnswered(cfg, run + [Apply(cfg, s, a)], acts + [a]);
      assert acts'[|acts|..] == [a] + acts'[|acts| + 1..];
    } else {
      RestIsAnswered(cfg, run, acts, |acts|);
      run', acts' := run, acts;
    }
  }
}
