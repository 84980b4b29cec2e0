/** Whether the requests of one client can change what another is answered. */
module LimiterClients {
  import opened Limiter
  import opened LimiterLaws

  /** The requests of one client. */
  function Only(reqs: seq<Request>, client: string): seq<Request> {
    if reqs == [] then []
    else
      var last := reqs[|reqs| - 1];
      Only(reqs[..|reqs| - 1], client) + (if last.client == client then [last] else [])
  }

  /** The lines of the history that are about one client. */
  function OwnLines(log: seq<Record>, client: string): seq<Record> {
    if log == [] then []
    else
      var last := log[|log| - 1];
      OwnLines(log[..|log| - 1], client) + (if last.client == client then [last] else [])
  }

  /** On every run, every client is answered as if it were the only one. */
  ghost predicate AreIsolated(step: Stepper) {
    forall start, reqs, client {:trigger Monotone(start, reqs), Only(reqs, client)} :: Monotone(start, reqs) ==>
      OwnLines(History(step, Start(start), reqs), client) == History(step, Start(start), Only(reqs, client))
  }

  lemma {:induction false} OnlySnoc(reqs: seq<Request>, r: Request, client: string)
    ensures Only(reqs + [r], client) == if r.client == client then Only(reqs, client) + [r] else Only(reqs, client)
  {
    assert (reqs + [r])[..|reqs|] == reqs;
  }

  lemma {:induction false} OnlyConcat(a: seq<Request>, b: seq<Request>, client: string)
    ensures Only(a + b, client) == Only(a, client) + Only(b, client)
  {
    if b == [] {
      assert a + b == a;
    } else {
      var init, last := b[..|b| - 1], b[|b| - 1];
      OnlyConcat(a, init, client);
      assert Only(a + b, client) ==
        if last.client == client then Only(a + init, client) + [last] else Only(a + init, client) by {
        OnlySnoc(a + init, last, client);
        assert a + b == (a + init) + [last];
      }
      var x, y := Only(a, client), Only(init, client);
      assert (x + y) + [last] == x + (y + [last]);
    }
  }

  lemma {:induction false} OnlyAll(reqs: seq<Request>, client: string)
    requires forall i :: 0 <= i < |reqs| ==> reqs[i].client == client
    ensures Only(reqs, client) == reqs
  {
    if reqs != [] {
      OnlyAll(reqs[..|reqs| - 1], client);
    }
  }

  lemma {:induction false} OnlyFrom(reqs: seq<Request>, client: string)
    ensures forall r :: r in Only(reqs, client) ==> r in reqs
  {
    if reqs != [] {
      OnlyFrom(reqs[..|reqs| - 1], client);
    }
  }

  lemma {:induction false} MonotoneSnoc(start: real, reqs: seq<Request>, r: Request)
    requires Monotone(start, reqs) && start <= r.at && forall q :: q in reqs ==> q.at <= r.at
    ensures Monotone(start, reqs + [r])
  {
  }

  lemma {:induction false} LastIsLatest(start: real, reqs: seq<Request>)
    requires Monotone(start, reqs) && reqs != []
    ensures var r := reqs[|reqs| - 1];
      start <= r.at && forall q :: q in reqs[..|reqs| - 1] ==> q.at <= r.at
  {
  }

  lemma {:induction false} OnlyIsMonotone(start: real, reqs: seq<Request>, client: string)
    requires Monotone(start, reqs)
    ensures Monotone(start, Only(reqs, client))
  {
    if reqs != [] {
      var init, r := reqs[..|reqs| - 1], reqs[|reqs| - 1];
      MonotoneInit(start, reqs);
      OnlyIsMonotone(start, init, client);
      if r.client == client {
        OnlyFrom(init, client);
        LastIsLatest(start, reqs);
        MonotoneSnoc(start, Only(init, client), r);
      } else {
        assert Only(reqs, client) == Only(init, client);
      }
    }
  }

  // ----- a limiter that forgets nobody keeps clients apart -----

  /** The client has the same bucket in both, or in neither. */
  predicate SameBucket(s: State, k: State, client: string) {
    && (client in s.levels <==> client in k.levels)
    && (client in s.levels ==> s.levels[client] == k.levels[client])
  }

  lemma {:induction false} StepOfOwn(cfg: Config, s: State, k: State, r: Request)
    requires SameBucket(s, k, r.client)
    ensures var (t, u) := (Step(cfg, s, r, false), Step(cfg, k, r, false));
      t.1 == u.1 && SameBucket(t.0, u.0, r.client)
  {
  }

  lemma {:induction false} StepOfOther(cfg: Config, s: State, k: State, r: Request, client: string)
    requires SameBucket(s, k, client) && r.client != client
    ensures SameBucket(Step(cfg, s, r, false).0, k, client)
  {
  }

  lemma {:induction false} OwnSnoc(log: seq<Record>, line: Record, client: string)
    ensures OwnLines(log + [line], client) ==
      if line.client == client then OwnLines(log, client) + [line] else OwnLines(log, client)
  {
    assert (log + [line])[..|log|] == log;
  }

  /** A request of the client that is answered alike in both runs. */
  lemma {:induction false} OwnRequest(step: Stepper, s: State, init: seq<Request>, r: Request)
    requires OwnLines(History(step, s, init), r.client) == History(step, s, Only(init, r.client))
    requires step(Run(step, s, init), r).1 == step(Run(step, s, Only(init, r.client)), r).1
    ensures OwnLines(History(step, s, init + [r]), r.client) == History(step, s, Only(init + [r], r.client))
    ensures Run(step, s, Only(init + [r], r.client)) == step(Run(step, s, Only(init, r.client)), r).0
  {
    RunSnoc(step, s, init, r);
    OnlySnoc(init, r, r.client);
    RunSnoc(step, s, Only(init, r.client), r);
    OwnSnoc(History(step, s, init), Record(r.client, r.at, step(Run(step, s, init), r).1), r.client);
  }

  lemma {:induction false} OtherRequest(step: Stepper, s: State, init: seq<Request>, r: Request, client: string)
    requires OwnLines(History(step, s, init), client) == History(step, s, Only(init, client)) && r.client != client
    ensures OwnLines(History(step, s, init + [r]), client) == History(step, s, Only(init + [r], client))
    ensures Only(init + [r], client) == Only(init, client)
  {
    RunSnoc(step, s, init, r);
    OnlySnoc(init, r, client);
    OwnSnoc(History(step, s, init), Record(r.client, r.at, step(Run(step, s, init), r).1), client);
  }

  lemma {:induction false} ApartWithoutSweep(cfg: Config, start: real, reqs: seq<Request>, client: string)
    ensures SameBucket(Run(Stepping(cfg, false), Start(start), reqs),
                       Run(Stepping(cfg, false), Start(start), Only(reqs, client)), client)
    ensures OwnLines(History(Stepping(cfg, false), Start(start), reqs), client)
      == History(Stepping(cfg, false), Start(start), Only(reqs, client))
  {
    if reqs != [] {
      var step, init, r := Stepping(cfg, false), reqs[..|reqs| - 1], reqs[|reqs| - 1];
      var s, k := Run(step, Start(start), init), Run(step, Start(start), Only(init, client));
      ApartWithoutSweep(cfg, start, init, client);
      assert reqs == init + [r];
      if r.client == client {
        StepOfOwn(cfg, s, k, r);
        OwnRequest(step, Start(start), init, r);
      } else {
        StepOfOther(cfg, s, k, r, client);
        OtherRequest(step, Start(start), init, r, client);
      }
    }
  }

  // ----- and one that forgets idle clients does so if they have had time to fill -----

  lemma {:induction false} ApartWhenFilled(cfg: Config, start: real, reqs: seq<Request>, client: string)
    requires cfg.Valid() && cfg.gain(SWEEP_INTERVAL) >= cfg.Burst() && Monotone(start, reqs)
    ensures OwnLines(History(Stepping(cfg, true), Start(start), reqs), client)
      == History(Stepping(cfg, true), Start(start), Only(reqs, client))
  {
    OnlyIsMonotone(start, reqs, client);
    RunsAlike(cfg, start, reqs);
    RunsAlike(cfg, start, Only(reqs, client));
    ApartWithoutSweep(cfg, start, reqs, client);
  }

  // ----- otherwise another client can postpone a sweep -----

  /** A step whose sweep collects nothing. */
  lemma {:induction false} IdleSweep(cfg: Config, s: State, k: State, r: Request)
    requires s.levels == k.levels && Sweep(s, r.at).levels == s.levels
    ensures var (t, u) := (Step(cfg, s, r, true), Step(cfg, k, r, false));
      && t.1 == u.1 && t.0.levels == u.0.levels
      && t.0.swept == (if r.at - s.swept < SWEEP_INTERVAL then s.swept else r.at)
  {
  }

  /** A stretch in which no sweep is due. */
  lemma {:induction false} NoSweepDue(cfg: Config, s: State, k: State, reqs: seq<Request>)
    requires s.levels == k.levels && forall i :: 0 <= i < |reqs| ==> reqs[i].at - s.swept < SWEEP_INTERVAL
    ensures var t, u := Run(Stepping(cfg, true), s, reqs), Run(Stepping(cfg, false), k, reqs);
      t.levels == u.levels && t.swept == s.swept
    ensures History(Stepping(cfg, true), s, reqs) == History(Stepping(cfg, false), k, reqs)
  {
    if reqs != [] {
      var init, r := reqs[..|reqs| - 1], reqs[|reqs| - 1];
      NoSweepDue(cfg, s, k, init);
      IdleSweep(cfg, Run(Stepping(cfg, true), s, init), Run(Stepping(cfg, false), k, init), r);
    }
  }

  /** Two bursts of one client, and a request of another just when the first sweep is due. */
  function Interrupted(n: nat, t: real): seq<Request> {
    Repeat(n, 0.0) + [Request("b", SWEEP_INTERVAL)] + Repeat(n, t)
  }

  lemma {:induction false} InterruptedIs(n: nat, t: real)
    requires SWEEP_INTERVAL < t
    ensures Monotone(0.0, Interrupted(n, t)) && Only(Interrupted(n, t), "") == TwoBursts(n, t)
  {
    InterruptedIsMonotone(n, t);
    InterruptedBursts(n, t);
  }

  lemma {:induction false} InterruptedIsMonotone(n: nat, t: real)
    requires SWEEP_INTERVAL < t
    ensures Monotone(0.0, Interrupted(n, t))
  {
    var reqs := Interrupted(n, t);
    assert forall i :: 0 <= i < |reqs| ==> reqs[i].at == if i < n then 0.0 else if i == n then SWEEP_INTERVAL else t;
  }

  lemma {:induction false} InterruptedBursts(n: nat, t: real)
    ensures Only(Interrupted(n, t), "") == TwoBursts(n, t)
  {
    var b := Request("b", SWEEP_INTERVAL);
    OnlyConcat(Repeat(n, 0.0) + [b], Repeat(n, t), "");
    OnlySnoc(Repeat(n, 0.0), b, "");
    OnlyAll(Repeat(n, 0.0), "");
    OnlyAll(Repeat(n, t), "");
  }

  /** The other client's request is swept at, and collects nothing. */
  lemma {:induction false} AfterInterruption(cfg: Config)
    requires cfg.Valid()
    ensures var reqs := Repeat(cfg.burst, 0.0) + [Request("b", SWEEP_INTERVAL)];
      var t, u := Run(Stepping(cfg, true), Start(0.0), reqs), Run(Stepping(cfg, false), Start(0.0), reqs);
      t.levels == u.levels && t.swept == SWEEP_INTERVAL
  {
    var first, b := Repeat(cfg.burst, 0.0), Request("b", SWEEP_INTERVAL);
    assert Run(Stepping(cfg, true), Start(0.0), first) == Alone(Level(0.0, 0.0), 0.0) by { FirstBurst(cfg, true); }
    assert Run(Stepping(cfg, false), Start(0.0), first) == Alone(Level(0.0, 0.0), 0.0) by { FirstBurst(cfg, false); }
    RunSnoc(Stepping(cfg, true), Start(0.0), first, b);
    RunSnoc(Stepping(cfg, false), Start(0.0), first, b);
    KeepsSpent();
    IdleSweep(cfg, Alone(Level(0.0, 0.0), 0.0), Alone(Level(0.0, 0.0), 0.0), b);
  }

  lemma {:induction false} KeepsSpent()
    ensures Sweep(Alone(Level(0.0, 0.0), 0.0), SWEEP_INTERVAL).levels == Alone(Level(0.0, 0.0), 0.0).levels
  {
  }

  /** The second burst is then answered as by a limiter that forgets nobody. */
  lemma {:induction false} LastOfInterrupted(cfg: Config, t: real)
    requires cfg.Valid() && SWEEP_INTERVAL < t < 2.0 * SWEEP_INTERVAL
    ensures var reqs := Interrupted(cfg.burst, t);
      && |reqs| == 2 * cfg.burst + 1
      && History(Stepping(cfg, true), Start(0.0), reqs)[2 * cfg.burst].ok
        == History(Stepping(cfg, false), Start(0.0), reqs)[2 * cfg.burst].ok
  {
    var n: nat := cfg.burst;
    var a, b := Repeat(n, 0.0) + [Request("b", SWEEP_INTERVAL)], Repeat(n, t);
    var s, k := Run(Stepping(cfg, true), Start(0.0), a), Run(Stepping(cfg, false), Start(0.0), a);
    AfterInterruption(cfg);
    NoSweepDue(cfg, s, k, b);
    OkInSecond(Stepping(cfg, true), Start(0.0), s, a, b, n - 1);
    OkInSecond(Stepping(cfg, false), Start(0.0), k, a, b, n - 1);
  }

  lemma {:induction false} LastOwnLine(log: seq<Record>, client: string)
    requires log != [] && log[|log| - 1].client == client
    ensures var own := OwnLines(log, client); own != [] && own[|own| - 1] == log[|log| - 1]
  {
  }

  /** The last request of the second burst is refused, and would have been admitted without the other client. */
  lemma {:induction false} OtherClientShows(cfg: Config, t: real)
    requires cfg.Valid() && SWEEP_INTERVAL < t < 2.0 * SWEEP_INTERVAL && cfg.gain(t) < cfg.Burst()
    ensures var reqs := Interrupted(cfg.burst, t);
      && Monotone(0.0, reqs) && Only(reqs, "") == TwoBursts(cfg.burst, t) && |reqs| == 2 * cfg.burst + 1
      && !History(Stepping(cfg, true), Start(0.0), reqs)[2 * cfg.burst].ok
      && AllOk(History(Stepping(cfg, true), Start(0.0), Only(reqs, "")))
  {
    var reqs, n := Interrupted(cfg.burst, t), cfg.burst;
    InterruptedIs(n, t);
    LastOfInterrupted(cfg, t);
    assert !History(Stepping(cfg, false), Start(0.0), reqs)[2 * n].ok by {
      ApartWithoutSweep(cfg, 0.0, reqs, "");
      HistoryOfRequests(Stepping(cfg, false), Start(0.0), reqs);
      LastOwnLine(History(Stepping(cfg, false), Start(0.0), reqs), "");
      LastOfTwoBursts(cfg, t);
    }
    BothBurstsAdmitted(cfg, t);
  }

  lemma {:induction false} NotApart(cfg: Config, t: real)
    requires cfg.Valid() && SWEEP_INTERVAL < t < 2.0 * SWEEP_INTERVAL && cfg.gain(t) < cfg.Burst()
    ensures !AreIsolated(Stepping(cfg, true))
  {
    var reqs, step := Interrupted(cfg.burst, t), Stepping(cfg, true);
    OtherClientShows(cfg, t);
    HistoryOfRequests(step, Start(0.0), reqs);
    LastOwnLine(History(step, Start(0.0), reqs), "");
    assert OwnLines(History(step, Start(0.0), reqs), "") != History(step, Start(0.0), Only(reqs, ""));
  }

  /** Clients do not show in each other's answers exactly when a bucket fills within the interval. */
  lemma {:induction false} AreIsolatedIff(rate: real, burst: int)
    requires rate > 0.0 && burst >= 1
    ensures AreIsolated(Stepping(ConfigFor(rate, burst), true)) <==> rate * SWEEP_INTERVAL >= burst as real
  {
    var cfg := ConfigFor(rate, burst);
    ConstantRateIsSteady(rate);
    if rate * SWEEP_INTERVAL >= burst as real {
      forall start, reqs, client | Monotone(start, reqs)
        ensures OwnLines(History(Stepping(cfg, true), Start(start), reqs), client)
          == History(Stepping(cfg, true), Start(start), Only(reqs, client))
      {
        ApartWhenFilled(cfg, start, reqs, client);
      }
    } else {
      var t := SlowFill(rate, burst);
      var u := Min(t, 2.0 * SWEEP_INTERVAL - 1.0);
      GainOver(cfg.gain, 0.0, t - u, t);
      assert t - (t - u) == u && t - 0.0 == t;
      NotApart(cfg, u);
    }
  }
}
