/**
 What the limiter promises over whole runs: which requests it refuses, that no window is ever
 overdrawn, that collecting idle buckets is invisible, and for how long a bucket stays; and on which
 configurations it keeps these promises.
 */
module LimiterLaws {
  import opened Limiter

  datatype Request = Request(client: string, at: real)

  /** One line of the history: who asked, when, and whether the request was admitted. */
  datatype Record = Record(client: string, at: real, ok: bool)

  function Sum(a: real, b: real): real {
    a + b
  }

  /** The inflow adds up over adjacent stretches of time, and is never negative. */
  ghost predicate Steady(gain: Gain) {
    && gain(0.0) == 0.0
    && (forall a, b {:trigger Sum(a, b)} :: gain(Sum(a, b)) == gain(a) + gain(b))
    && (forall a :: a >= 0.0 ==> gain(a) >= 0.0)
  }

  datatype Config = Config(gain: Gain, burst: int) {
    ghost predicate Valid() {
      Steady(gain) && burst >= 1
    }

    function Burst(): real {
      burst as real
    }
  }

  function ConfigFor(rate: real, burst: int): Config {
    Config(GainAt(rate), burst)
  }

  lemma {:induction false} Distribute(a: real, b: real, rate: real)
    ensures (a + b) * rate == a * rate + b * rate
  {
  }

  lemma {:induction false} ConstantRateIsSteady(rate: real)
    requires rate > 0.0
    ensures Steady(GainAt(rate))
  {
    var gain := GainAt(rate);
    forall a, b
      ensures gain(Sum(a, b)) == gain(a) + gain(b)
    {
      Distribute(a, b, rate);
    }
    forall a | a >= 0.0
      ensures gain(a) >= 0.0
    {
      assert a * rate >= 0.0;
    }
  }

  lemma {:induction false} GainOver(gain: Gain, a: real, b: real, c: real)
    requires Steady(gain)
    ensures gain(c - a) == gain(b - a) + gain(c - b)
    ensures a <= b ==> gain(c - a) >= gain(c - b)
  {
    assert Sum(b - a, c - b) == c - a;
  }

  /** One request, to the limiter as it is or to one that never deletes a bucket. */
  function Step(cfg: Config, s: State, r: Request, sweeping: bool): (State, bool) {
    if sweeping then Allow(s, r.client, cfg.gain, cfg.Burst(), r.at)
    else Take(s, r.client, cfg.gain, cfg.Burst(), r.at)
  }

  /** What a request does to the state of a limiter, and whether it is admitted. */
  type Stepper = (State, Request) -> (State, bool)

  function Stepping(cfg: Config, sweeping: bool): Stepper {
    (s, r) => Step(cfg, s, r, sweeping)
  }

  function Run(step: Stepper, s: State, reqs: seq<Request>): State {
    if reqs == [] then s else step(Run(step, s, reqs[..|reqs| - 1]), reqs[|reqs| - 1]).0
  }

  function History(step: Stepper, s: State, reqs: seq<Request>): (log: seq<Record>)
    ensures |log| == |reqs|
  {
    if reqs == [] then []
    else
      var init, r := reqs[..|reqs| - 1], reqs[|reqs| - 1];
      History(step, s, init) + [Record(r.client, r.at, step(Run(step, s, init), r).1)]
  }

  /** The clock does not go back, and starts when the limiter is made. */
  predicate Monotone(start: real, reqs: seq<Request>) {
    && (forall i :: 0 <= i < |reqs| ==> start <= reqs[i].at)
    && (forall i, j :: 0 <= i < j < |reqs| ==> reqs[i].at <= reqs[j].at)
  }

  function LastTime(start: real, reqs: seq<Request>): real {
    if reqs == [] then start else reqs[|reqs| - 1].at
  }

  lemma {:induction false} MonotoneInit(start: real, reqs: seq<Request>)
    requires Monotone(start, reqs) && reqs != []
    ensures Monotone(start, reqs[..|reqs| - 1])
    ensures LastTime(start, reqs[..|reqs| - 1]) <= LastTime(start, reqs)
  {
  }

  // ----- the life of a bucket -----

  /** Every bucket was seen, at the earliest, one interval before the last sweep. */
  ghost predicate Recent(s: State, now: real) {
    && s.swept <= now
    && forall c :: c in s.levels ==> s.swept - SWEEP_INTERVAL <= s.levels[c].seen <= now
  }

  lemma {:induction false} RunIsRecent(cfg: Config, start: real, reqs: seq<Request>)
    requires Monotone(start, reqs)
    ensures Recent(Run(Stepping(cfg, true), Start(start), reqs), LastTime(start, reqs))
  {
    if reqs != [] {
      MonotoneInit(start, reqs);
      RunIsRecent(cfg, start, reqs[..|reqs| - 1]);
    }
  }

  /** After a request no bucket is kept that was last seen twenty minutes ago or longer. */
  lemma {:induction false} RetainedBucketsAreRecent(cfg: Config, start: real, reqs: seq<Request>)
    requires Monotone(start, reqs) && reqs != []
    ensures var s, now := Run(Stepping(cfg, true), Start(start), reqs), LastTime(start, reqs);
      forall c :: c in s.levels ==> now - s.levels[c].seen < 2.0 * SWEEP_INTERVAL
  {
    MonotoneInit(start, reqs);
    RunIsRecent(cfg, start, reqs);
    RunIsRecent(cfg, start, reqs[..|reqs| - 1]);
  }

  /**
   A request sweeps exactly when the last sweep, or the start, is ten minutes or more behind; then of the
   other clients those are forgotten that have not been seen for longer than that, and otherwise nobody.
   */
  lemma {:induction false} SweepsAreOnTime(cfg: Config, start: real, reqs: seq<Request>, r: Request)
    ensures var step := Stepping(cfg, true);
      var s, t := Run(step, Start(start), reqs), Run(step, Start(start), reqs + [r]);
      && t.swept == (if r.at - s.swept >= 600.0 then r.at else s.swept)
      && (forall c :: c in t.levels <==>
           c == r.client || (c in s.levels && (t.swept != s.swept ==> r.at - s.levels[c].seen <= 600.0)))
      && (forall c :: c in t.levels && c != r.client ==> t.levels[c] == s.levels[c])
  {
    assert (reqs + [r])[..|reqs|] == reqs;
  }

  // ----- sweeping is invisible -----

  /** The bucket would be full by now. */
  ghost predicate Full(cfg: Config, level: Level, now: real) {
    level.tokens + cfg.gain(now - level.seen) >= cfg.Burst()
  }

  /** The two limiters agree, and a bucket only the second still has would be full by now. */
  ghost predicate Alike(cfg: Config, s: State, k: State, now: real) {
    && (forall c :: c in s.levels ==> c in k.levels && s.levels[c] == k.levels[c])
    && (forall c :: c in k.levels ==> k.levels[c].tokens >= 0.0 && k.levels[c].seen <= now)
    && (forall c :: c in k.levels && c !in s.levels ==> Full(cfg, k.levels[c], now))
  }

  lemma {:induction false} AlikeLater(cfg: Config, s: State, k: State, now: real, later: real)
    requires cfg.Valid() && Alike(cfg, s, k, now) && now <= later
    ensures Alike(cfg, s, k, later)
  {
    forall c | c in k.levels && c !in s.levels
      ensures Full(cfg, k.levels[c], later)
    {
      assert Full(cfg, k.levels[c], now);
      GainOver(cfg.gain, k.levels[c].seen, now, later);
    }
  }

  lemma {:induction false} AlikeSwept(cfg: Config, s: State, k: State, now: real)
    requires cfg.Valid() && Alike(cfg, s, k, now) && cfg.gain(SWEEP_INTERVAL) >= cfg.Burst()
    ensures Alike(cfg, Sweep(s, now), k, now)
  {
    forall c | c in s.levels && c !in Sweep(s, now).levels
      ensures Full(cfg, k.levels[c], now)
    {
      GainOver(cfg.gain, k.levels[c].seen, now - SWEEP_INTERVAL, now);
    }
  }

  lemma {:induction false} AlikeTaken(cfg: Config, s: State, k: State, client: string, now: real)
    requires cfg.Valid() && Alike(cfg, s, k, now)
    ensures var t, u := Take(s, client, cfg.gain, cfg.Burst(), now), Take(k, client, cfg.gain, cfg.Burst(), now);
      t.1 == u.1 && Alike(cfg, t.0, u.0, now)
  {
    if client in k.levels {
      assert cfg.gain(now - k.levels[client].seen) >= 0.0;
      assert client !in s.levels ==> Full(cfg, k.levels[client], now);
    }
  }

  lemma {:induction false} RunsAlike(cfg: Config, start: real, reqs: seq<Request>)
    requires cfg.Valid() && cfg.gain(SWEEP_INTERVAL) >= cfg.Burst() && Monotone(start, reqs)
    ensures Alike(cfg, Run(Stepping(cfg, true), Start(start), reqs), Run(Stepping(cfg, false), Start(start), reqs),
                  LastTime(start, reqs))
    ensures History(Stepping(cfg, true), Start(start), reqs) == History(Stepping(cfg, false), Start(start), reqs)
  {
    if reqs != [] {
      var init, r := reqs[..|reqs| - 1], reqs[|reqs| - 1];
      MonotoneInit(start, reqs);
      RunsAlike(cfg, start, init);
      var s, k := Run(Stepping(cfg, true), Start(start), init), Run(Stepping(cfg, false), Start(start), init);
      AlikeLater(cfg, s, k, LastTime(start, init), r.at);
      AlikeSwept(cfg, s, k, r.at);
      AlikeTaken(cfg, Sweep(s, r.at), k, r.client, r.at);
    }
  }

  /** On every run, every request gets the verdict of the limiter that forgets nobody. */
  ghost predicate SweepIsInvisible(cfg: Config) {
    forall start, reqs {:trigger Monotone(start, reqs)} :: Monotone(start, reqs) ==>
      History(Stepping(cfg, true), Start(start), reqs) == History(Stepping(cfg, false), Start(start), reqs)
  }

  // ----- and visible when a bucket takes longer than the interval to fill -----

  function Repeat(n: nat, at: real): (reqs: seq<Request>)
    ensures |reqs| == n && forall i :: 0 <= i < n ==> reqs[i] == Request("", at)
  {
    if n == 0 then [] else Repeat(n - 1, at) + [Request("", at)]
  }

  function Alone(level: Level, swept: real): State {
    State(map["" := level], swept)
  }

  /** One more request, at the instant of the last one. */
  lemma {:induction false} TakeAgain(cfg: Config, level: Level, swept: real, sweeping: bool)
    requires cfg.Valid() && level.tokens <= cfg.Burst() && (sweeping ==> level.seen - swept < SWEEP_INTERVAL)
    ensures Step(cfg, Alone(level, swept), Request("", level.seen), sweeping) ==
      if level.tokens < 1.0 then (Alone(level, swept), false)
      else (Alone(level.(tokens := level.tokens - 1.0), swept), true)
  {
    assert level.seen - level.seen == 0.0;
    forall l: Level
      ensures map["" := level]["" := l] == map["" := l]
    {
    }
  }

  /** How the tokens fall when n requests come at one instant. */
  function Drained(tokens: real, n: nat): real {
    if n == 0 then tokens
    else
      var before := Drained(tokens, n - 1);
      if before < 1.0 then before else before - 1.0
  }

  /** What one more request at that instant makes of a client's tokens. */
  function Spent(tokens: real, at: real, swept: real): (State, bool) {
    if tokens < 1.0 then (Alone(Level(tokens, at), swept), false) else (Alone(Level(tokens - 1.0, at), swept), true)
  }

  ghost predicate Drains(step: Stepper, at: real, swept: real, burst: real) {
    forall tokens {:trigger Spent(tokens, at, swept)} :: tokens <= burst ==>
      step(Alone(Level(tokens, at), swept), Request("", at)) == Spent(tokens, at, swept)
  }

  lemma {:induction false} LimiterDrains(cfg: Config, at: real, swept: real, sweeping: bool)
    requires cfg.Valid() && (sweeping ==> at - swept < SWEEP_INTERVAL)
    ensures Drains(Stepping(cfg, sweeping), at, swept, cfg.Burst())
  {
    forall tokens | tokens <= cfg.Burst()
      ensures Stepping(cfg, sweeping)(Alone(Level(tokens, at), swept), Request("", at)) == Spent(tokens, at, swept)
    {
      TakeAgain(cfg, Level(tokens, at), swept, sweeping);
    }
  }

  lemma {:induction false} RunDrains(step: Stepper, tokens: real, at: real, swept: real, burst: real, n: nat)
    requires Drains(step, at, swept, burst) && tokens <= burst
    ensures Drained(tokens, n) <= tokens
    ensures Run(step, Alone(Level(tokens, at), swept), Repeat(n, at)) == Alone(Level(Drained(tokens, n), at), swept)
  {
    if n > 0 {
      RunDrains(step, tokens, at, swept, burst, n - 1);
      RunSnoc(step, Alone(Level(tokens, at), swept), Repeat(n - 1, at), Request("", at));
      assert Spent(Drained(tokens, n - 1), at, swept).0 == Alone(Level(Drained(tokens, n), at), swept);
    }
  }

  lemma {:induction false} LastOfRepeat(step: Stepper, tokens: real, at: real, swept: real, burst: real, n: nat)
    requires Drains(step, at, swept, burst) && tokens <= burst && n >= 1
    ensures History(step, Alone(Level(tokens, at), swept), Repeat(n, at))[n - 1].ok == !(Drained(tokens, n - 1) < 1.0)
  {
    var before := Drained(tokens, n - 1);
    RunDrains(step, tokens, at, swept, burst, n - 1);
    assert Spent(before, at, swept).1 == !(before < 1.0);
    LastSnoc(step, Alone(Level(tokens, at), swept), Repeat(n - 1, at), Request("", at),
             Alone(Level(before, at), swept));
  }

  lemma {:induction false} LastSnoc(step: Stepper, s: State, a: seq<Request>, r: Request, last: State)
    requires Run(step, s, a) == last
    ensures History(step, s, a + [r])[|a|].ok == step(last, r).1
  {
    RunSnoc(step, s, a, r);
  }

  lemma {:induction false} DrainedIs(tokens: real, n: nat)
    requires tokens >= 0.0
    ensures n as real <= tokens ==> Drained(tokens, n) == tokens - n as real
    ensures n as real > tokens ==> Drained(tokens, n) < 1.0
  {
    if n > 0 {
      DrainedIs(tokens, n - 1);
    }
  }

  /** Runs of requests at one instant that agree on the first agree on all. */
  lemma {:induction false} SameFirst(step: Stepper, s: State, e: State, n: nat, t: real)
    requires n >= 1 && step(s, Request("", t)) == step(e, Request("", t))
    ensures Run(step, s, Repeat(n, t)) == Run(step, e, Repeat(n, t))
    ensures History(step, s, Repeat(n, t)) == History(step, e, Repeat(n, t))
  {
    assert Repeat(n, t)[..n - 1] == Repeat(n - 1, t);
    if n > 1 {
      SameFirst(step, s, e, n - 1, t);
    }
  }

  lemma {:induction false} RunSnoc(step: Stepper, s: State, a: seq<Request>, r: Request)
    ensures Run(step, s, a + [r]) == step(Run(step, s, a), r).0
    ensures History(step, s, a + [r]) ==
      History(step, s, a) + [Record(r.client, r.at, step(Run(step, s, a), r).1)]
  {
    assert (a + [r])[..|a|] == a;
  }

  lemma {:induction false} RunConcat(step: Stepper, s: State, a: seq<Request>, b: seq<Request>)
    ensures Run(step, s, a + b) == Run(step, Run(step, s, a), b)
  {
    if b == [] {
      assert a + b == a;
    } else {
      RunConcat(step, s, a, b[..|b| - 1]);
      assert (a + b)[..|a + b| - 1] == a + b[..|b| - 1];
    }
  }

  /** The verdict on a request after two runs is that after the second, from where the first ended. */
  lemma {:induction false} VerdictConcat(
      step: Stepper, s: State, a: seq<Request>, b: seq<Request>, r: Request)
    ensures History(step, s, a + (b + [r]))[|a| + |b|].ok ==
      History(step, Run(step, s, a), b + [r])[|b|].ok
  {
    var k := Run(step, s, a);
    var last := Run(step, k, b);
    RunConcat(step, s, a, b);
    LastSnoc(step, s, a + b, r, last);
    LastSnoc(step, k, b, r, last);
    assert a + (b + [r]) == (a + b) + [r];
  }

  lemma {:induction false} HistoryPrefix(step: Stepper, s: State, reqs: seq<Request>, n: nat)
    requires n <= |reqs|
    ensures History(step, s, reqs)[..n] == History(step, s, reqs[..n])
  {
    if n == |reqs| {
      assert reqs[..n] == reqs;
    } else {
      var init := reqs[..|reqs| - 1];
      HistoryPrefix(step, s, init, n);
      HistorySnoc(step, s, init, reqs[|reqs| - 1]);
      assert init + [reqs[|reqs| - 1]] == reqs && init[..n] == reqs[..n];
    }
  }

  lemma {:induction false} OkInFirst(step: Stepper, s: State, a: seq<Request>, b: seq<Request>, i: nat)
    requires i < |a|
    ensures History(step, s, a + b)[i].ok == History(step, s, a)[i].ok
  {
    HistoryPrefix(step, s, a + b, |a|);
    assert (a + b)[..|a|] == a;
  }

  lemma {:induction false} OkInSecond(
      step: Stepper, s: State, k: State, a: seq<Request>, b: seq<Request>, j: nat)
    requires k == Run(step, s, a) && j < |b|
    ensures History(step, s, a + b)[|a| + j].ok == History(step, k, b)[j].ok
  {
    var upTo := b[..j] + [b[j]];
    assert History(step, s, a + b)[|a| + j] == History(step, s, a + upTo)[|a| + j] by {
      HistoryPrefix(step, s, a + b, |a| + j + 1);
      assert (a + b)[..|a| + j + 1] == a + upTo;
    }
    assert History(step, k, b)[j] == History(step, k, upTo)[j] by {
      HistoryPrefix(step, k, b, j + 1);
      assert b[..j + 1] == upTo;
    }
    VerdictConcat(step, s, a, b[..j], b[j]);
  }

  lemma {:induction false} AllOkConcat(
      step: Stepper, s: State, k: State, a: seq<Request>, b: seq<Request>)
    requires k == Run(step, s, a)
    requires AllOk(History(step, s, a)) && AllOk(History(step, k, b))
    ensures AllOk(History(step, s, a + b))
  {
    forall i | 0 <= i < |a| + |b|
      ensures History(step, s, a + b)[i].ok
    {
      if i < |a| {
        OkInFirst(step, s, a, b, i);
      } else {
        OkInSecond(step, s, k, a, b, i - |a|);
      }
    }
  }

  lemma {:induction false} HistoryOfRequests(step: Stepper, s: State, reqs: seq<Request>)
    ensures var log := History(step, s, reqs);
      forall i :: 0 <= i < |reqs| ==> log[i].client == reqs[i].client && log[i].at == reqs[i].at
  {
    if reqs != [] {
      HistoryOfRequests(step, s, reqs[..|reqs| - 1]);
    }
  }

  ghost predicate AllOk(log: seq<Record>) {
    forall i :: 0 <= i < |log| ==> log[i].ok
  }

  /** As long as there are tokens, requests at one instant are all admitted. */
  lemma {:induction false} RepeatIsAdmitted(step: Stepper, tokens: real, at: real, swept: real, burst: real, n: nat)
    requires Drains(step, at, swept, burst) && n as real <= tokens <= burst
    ensures AllOk(History(step, Alone(Level(tokens, at), swept), Repeat(n, at)))
  {
    if n > 0 {
      var log := History(step, Alone(Level(tokens, at), swept), Repeat(n, at));
      assert log[n - 1].ok by {
        DrainedIs(tokens, n - 1);
        LastOfRepeat(step, tokens, at, swept, burst, n);
      }
      assert AllOk(log[..n - 1]) by {
        RepeatIsAdmitted(step, tokens, at, swept, burst, n - 1);
        HistorySnoc(step, Alone(Level(tokens, at), swept), Repeat(n - 1, at), Request("", at));
      }
      AllOkSnoc(log);
    }
  }

  lemma {:induction false} AllOkSnoc(log: seq<Record>)
    requires log != [] && AllOk(log[..|log| - 1]) && log[|log| - 1].ok
    ensures AllOk(log)
  {
    forall i | 0 <= i < |log|
      ensures log[i].ok
    {
      if i < |log| - 1 { assert log[..|log| - 1][i] == log[i]; }
    }
  }

  lemma {:induction false} HistorySnoc(step: Stepper, s: State, a: seq<Request>, r: Request)
    ensures History(step, s, a + [r])[..|a|] == History(step, s, a)
  {
    RunSnoc(step, s, a, r);
  }

  lemma {:induction false} FirstOfAll(cfg: Config, sweeping: bool)
    requires cfg.Valid()
    ensures Step(cfg, Start(0.0), Request("", 0.0), sweeping)
      == Step(cfg, Alone(Level(cfg.Burst(), 0.0), 0.0), Request("", 0.0), sweeping)
  {
    TakeAgain(cfg, Level(cfg.Burst(), 0.0), 0.0, sweeping);
  }

  /** The whole burst is admitted and spent at the start. */
  lemma {:induction false} FirstBurst(cfg: Config, sweeping: bool)
    requires cfg.Valid()
    ensures Run(Stepping(cfg, sweeping), Start(0.0), Repeat(cfg.burst, 0.0)) == Alone(Level(0.0, 0.0), 0.0)
    ensures AllOk(History(Stepping(cfg, sweeping), Start(0.0), Repeat(cfg.burst, 0.0)))
  {
    var full := Level(cfg.Burst(), 0.0);
    FirstOfAll(cfg, sweeping);
    LimiterDrains(cfg, 0.0, 0.0, sweeping);
    SameFirst(Stepping(cfg, sweeping), Start(0.0), Alone(full, 0.0), cfg.burst, 0.0);
    assert Run(Stepping(cfg, sweeping), Alone(full, 0.0), Repeat(cfg.burst, 0.0)) == Alone(Level(0.0, 0.0), 0.0) by {
      RunDrains(Stepping(cfg, sweeping), cfg.Burst(), 0.0, 0.0, cfg.Burst(), cfg.burst);
      DrainedIs(cfg.Burst(), cfg.burst);
    }
    RepeatIsAdmitted(Stepping(cfg, sweeping), cfg.Burst(), 0.0, 0.0, cfg.Burst(), cfg.burst);
  }

  lemma {:induction false} FirstAfterSweep(cfg: Config, t: real)
    requires cfg.Valid() && SWEEP_INTERVAL < t
    ensures Step(cfg, Alone(Level(0.0, 0.0), 0.0), Request("", t), true) ==
      Step(cfg, Alone(Level(cfg.Burst(), t), t), Request("", t), true)
  {
    assert Sweep(Alone(Level(0.0, 0.0), 0.0), t) == State(map[], t);
    TakeAgain(cfg, Level(cfg.Burst(), t), t, true);
  }

  /** Once the bucket has been collected, a whole burst is admitted again. */
  lemma {:induction false} AfterSweep(cfg: Config, t: real)
    requires cfg.Valid() && SWEEP_INTERVAL < t
    ensures AllOk(History(Stepping(cfg, true), Alone(Level(0.0, 0.0), 0.0), Repeat(cfg.burst, t)))
  {
    var full, reqs := Level(cfg.Burst(), t), Repeat(cfg.burst, t);
    assert History(Stepping(cfg, true), Alone(Level(0.0, 0.0), 0.0), reqs)
        == History(Stepping(cfg, true), Alone(full, t), reqs) by {
      FirstAfterSweep(cfg, t);
      SameFirst(Stepping(cfg, true), Alone(Level(0.0, 0.0), 0.0), Alone(full, t), cfg.burst, t);
    }
    LimiterDrains(cfg, t, t, true);
    RepeatIsAdmitted(Stepping(cfg, true), cfg.Burst(), t, t, cfg.Burst(), cfg.burst);
  }

  lemma {:induction false} FirstWithoutSweep(cfg: Config, t: real)
    requires cfg.Valid() && 0.0 <= cfg.gain(t) < cfg.Burst()
    ensures Step(cfg, Alone(Level(0.0, 0.0), 0.0), Request("", t), false) ==
      Step(cfg, Alone(Level(cfg.gain(t), t), 0.0), Request("", t), false)
  {
    var level := Level(cfg.gain(t), t);
    assert t - 0.0 == t;
    TakeAgain(cfg, level, 0.0, false);
    forall l: Level, m: Level
      ensures map["" := m]["" := l] == map["" := l]
    {
    }
  }

  /** A bucket that was kept does not hold a whole burst by then. */
  lemma {:induction false} WithoutSweep(cfg: Config, t: real)
    requires cfg.Valid() && 0.0 <= cfg.gain(t) < cfg.Burst()
    ensures !History(Stepping(cfg, false), Alone(Level(0.0, 0.0), 0.0), Repeat(cfg.burst, t))[cfg.burst - 1].ok
  {
    var level, reqs := Level(cfg.gain(t), t), Repeat(cfg.burst, t);
    assert History(Stepping(cfg, false), Alone(Level(0.0, 0.0), 0.0), reqs)
        == History(Stepping(cfg, false), Alone(level, 0.0), reqs) by {
      FirstWithoutSweep(cfg, t);
      SameFirst(Stepping(cfg, false), Alone(Level(0.0, 0.0), 0.0), Alone(level, 0.0), cfg.burst, t);
    }
    assert !History(Stepping(cfg, false), Alone(level, 0.0), reqs)[cfg.burst - 1].ok by {
      DrainedIs(level.tokens, cfg.burst - 1);
      LimiterDrains(cfg, t, 0.0, false);
      LastOfRepeat(Stepping(cfg, false), cfg.gain(t), t, 0.0, cfg.Burst(), cfg.burst);
    }
  }

  /** A client spends its burst at the start, and asks for as much again at a later time. */
  function TwoBursts(n: nat, t: real): (reqs: seq<Request>)
    ensures |reqs| == 2 * n
    ensures forall i :: 0 <= i < 2 * n ==> reqs[i] == Request("", if i < n then 0.0 else t)
  {
    Repeat(n, 0.0) + Repeat(n, t)
  }

  /** When the second burst comes after the bucket has been collected, both are admitted in full. */
  lemma {:induction false} BothBurstsAdmitted(cfg: Config, t: real)
    requires cfg.Valid() && SWEEP_INTERVAL < t
    ensures AllOk(History(Stepping(cfg, true), Start(0.0), TwoBursts(cfg.burst, t)))
  {
    FirstBurst(cfg, true);
    AfterSweep(cfg, t);
    AllOkConcat(Stepping(cfg, true), Start(0.0), Alone(Level(0.0, 0.0), 0.0), Repeat(cfg.burst, 0.0),
                Repeat(cfg.burst, t));
  }

  /**
   When the bucket has been collected but would not yet have filled, the last request of the second
   burst is admitted, and the limiter that forgets nobody refuses it.
   */
  lemma {:induction false} SweepIsVisible(cfg: Config, t: real)
    requires cfg.Valid() && SWEEP_INTERVAL < t && cfg.gain(t) < cfg.Burst()
    ensures var reqs := TwoBursts(cfg.burst, t);
      && Monotone(0.0, reqs)
      && History(Stepping(cfg, true), Start(0.0), reqs)[|reqs| - 1].ok
      && !History(Stepping(cfg, false), Start(0.0), reqs)[|reqs| - 1].ok
  {
    BothBurstsAdmitted(cfg, t);
    LastOfTwoBursts(cfg, t);
  }

  lemma {:induction false} LastOfTwoBursts(cfg: Config, t: real)
    requires cfg.Valid() && 0.0 <= cfg.gain(t) < cfg.Burst()
    ensures !History(Stepping(cfg, false), Start(0.0), TwoBursts(cfg.burst, t))[2 * cfg.burst - 1].ok
  {
    var n: nat := cfg.burst;
    assert Run(Stepping(cfg, false), Start(0.0), Repeat(n, 0.0)) == Alone(Level(0.0, 0.0), 0.0) by {
      FirstBurst(cfg, false);
    }
    OkInSecond(Stepping(cfg, false), Start(0.0), Alone(Level(0.0, 0.0), 0.0), Repeat(n, 0.0), Repeat(n, t), n - 1);
    WithoutSweep(cfg, t);
  }

  lemma {:induction false} SlowFill(rate: real, burst: int) returns (t: real)
    requires rate > 0.0 && rate * SWEEP_INTERVAL < burst as real
    ensures SWEEP_INTERVAL < t && GainAt(rate)(t) < burst as real
  {
    var slack := burst as real - SWEEP_INTERVAL * rate;
    var extra := slack / rate / 2.0;
    t := SWEEP_INTERVAL + extra;
    assert slack / rate > 0.0;
    assert slack / rate * rate == slack;
    assert extra * rate == slack / 2.0;
    assert t * rate == SWEEP_INTERVAL * rate + extra * rate;
  }

  /** Collecting idle buckets is invisible exactly when a bucket fills within the interval. */
  lemma {:induction false} SweepIsInvisibleIff(rate: real, burst: int)
    requires rate > 0.0 && burst >= 1
    ensures SweepIsInvisible(ConfigFor(rate, burst)) <==> rate * SWEEP_INTERVAL >= burst as real
  {
    var cfg := ConfigFor(rate, burst);
    ConstantRateIsSteady(rate);
    assert cfg.gain(SWEEP_INTERVAL) == SWEEP_INTERVAL * rate;
    if rate * SWEEP_INTERVAL >= burst as real {
      forall start, reqs | Monotone(start, reqs)
        ensures History(Stepping(cfg, true), Start(start), reqs) == History(Stepping(cfg, false), Start(start), reqs)
      {
        RunsAlike(cfg, start, reqs);
      }
    } else {
      var t := SlowFill(rate, burst);
      SweepIsVisible(cfg, t);
      assert !SweepIsInvisible(cfg);
    }
  }

  // ----- which requests are refused -----

  /** The requests of a client admitted at or after a time. */
  function Admitted(log: seq<Record>, client: string, from: real): nat {
    if log == [] then 0
    else
      var last := log[|log| - 1];
      Admitted(log[..|log| - 1], client, from)
      + (if last.client == client && last.ok && last.at >= from then 1 else 0)
  }

  /** The requests of a client admitted in a closed window. */
  function AdmittedIn(log: seq<Record>, client: string, from: real, to: real): nat {
    if log == [] then 0
    else
      var last := log[|log| - 1];
      AdmittedIn(log[..|log| - 1], client, from, to)
      + (if last.client == client && last.ok && from <= last.at <= to then 1 else 0)
  }

  /** What is left of the allowance of the window from s to now. */
  function Left(cfg: Config, log: seq<Record>, client: string, s: real, now: real): real {
    cfg.Burst() + cfg.gain(now - s) - Admitted(log, client, s) as real
  }

  /** A time at which the client made a request. */
  predicate Begins(log: seq<Record>, client: string, s: real) {
    exists i :: 0 <= i < |log| && log[i].client == client && log[i].at == s
  }

  /** No window up to now has less left than that. */
  ghost predicate Covered(cfg: Config, log: seq<Record>, client: string, tokens: real, now: real) {
    forall s :: s <= now ==> tokens <= Left(cfg, log, client, s, now)
  }

  /** The window from s to now has exactly that much left. */
  ghost predicate Reached(cfg: Config, log: seq<Record>, client: string, tokens: real, now: real, s: real) {
    s <= now && tokens == Left(cfg, log, client, s, now)
  }

  /** After a request: the bucket holds the least of what the windows have left, and one from a request attains it. */
  ghost predicate Tight(cfg: Config, log: seq<Record>, client: string, tokens: real, now: real) {
    && Covered(cfg, log, client, tokens, now)
    && (exists s :: Begins(log, client, s) && Reached(cfg, log, client, tokens, now, s))
  }

  /** Before a request, the window that starts with it counts too. */
  ghost predicate TightBefore(cfg: Config, log: seq<Record>, client: string, tokens: real, now: real) {
    && Covered(cfg, log, client, tokens, now)
    && (exists s :: (s == now || Begins(log, client, s)) && Reached(cfg, log, client, tokens, now, s))
  }

  /** The client was not heard of after t. */
  ghost predicate Quiet(log: seq<Record>, client: string, t: real) {
    forall i :: 0 <= i < |log| && log[i].client == client ==> log[i].at <= t
  }

  lemma {:induction false} NoneLater(log: seq<Record>, client: string, t: real, from: real)
    requires Quiet(log, client, t) && t < from
    ensures Admitted(log, client, from) == 0
  {
    if log != [] {
      assert log[|log| - 1].client == client ==> log[|log| - 1].at <= t;
      NoneLater(log[..|log| - 1], client, t, from);
    }
  }

  lemma {:induction false} AdmittedSnoc(log: seq<Record>, e: Record, client: string, from: real)
    ensures Admitted(log + [e], client, from) ==
      Admitted(log, client, from) + (if e.client == client && e.ok && e.at >= from then 1 else 0)
  {
    assert (log + [e])[..|log|] == log;
  }

  /** A bucket that refills up to its burst stays the least of what the windows have left. */
  lemma {:induction false} Refills(cfg: Config, log: seq<Record>, client: string, tokens: real, t: real, now: real)
    requires cfg.Valid() && Tight(cfg, log, client, tokens, t) && Quiet(log, client, t) && t <= now
    ensures TightBefore(cfg, log, client, Min(cfg.Burst(), tokens + cfg.gain(now - t)), now)
  {
    var full := Min(cfg.Burst(), tokens + cfg.gain(now - t));
    forall s | s <= now
      ensures full <= Left(cfg, log, client, s, now)
    {
      if s <= t {
        GainOver(cfg.gain, s, t, now);
        assert tokens <= Left(cfg, log, client, s, t);
      } else {
        NoneLater(log, client, t, s);
        assert cfg.gain(now - s) >= 0.0;
      }
    }
    assert now - now == 0.0;
    if full < cfg.Burst() {
      var s :| Begins(log, client, s) && Reached(cfg, log, client, tokens, t, s);
      GainOver(cfg.gain, s, t, now);
      assert Reached(cfg, log, client, full, now, s);
    } else {
      if t < now {
        NoneLater(log, client, t, now);
      } else {
        assert tokens <= Left(cfg, log, client, t, t);
      }
      assert Reached(cfg, log, client, full, now, now);
    }
  }

  /** The entry takes one from every window that is still open when it is admitted. */
  lemma {:induction false} Spends(cfg: Config, log: seq<Record>, e: Record, tokens: real)
    requires TightBefore(cfg, log, e.client, tokens, e.at)
    ensures Tight(cfg, log + [e], e.client, if e.ok then tokens - 1.0 else tokens, e.at)
  {
    var log', rest := log + [e], if e.ok then tokens - 1.0 else tokens;
    forall s | s <= e.at
      ensures Left(cfg, log', e.client, s, e.at) == Left(cfg, log, e.client, s, e.at) - (tokens - rest)
    {
      AdmittedSnoc(log, e, e.client, s);
    }
    var s :| (s == e.at || Begins(log, e.client, s)) && Reached(cfg, log, e.client, tokens, e.at, s);
    assert Begins(log', e.client, s) by {
      if s == e.at {
        assert log'[|log|] == e;
      } else {
        var i :| 0 <= i < |log| && log[i].client == e.client && log[i].at == s;
        assert log'[i] == log[i];
      }
    }
    assert Reached(cfg, log', e.client, rest, e.at, s);
  }

  /** Another client's entry leaves the account as it is. */
  lemma {:induction false} TightFrame(cfg: Config, log: seq<Record>, e: Record, client: string, tokens: real, now: real)
    requires Tight(cfg, log, client, tokens, now) && e.client != client
    ensures Tight(cfg, log + [e], client, tokens, now)
  {
    var log' := log + [e];
    forall s
      ensures Left(cfg, log', client, s, now) == Left(cfg, log, client, s, now)
    {
      AdmittedSnoc(log, e, client, s);
    }
    var s :| Begins(log, client, s) && Reached(cfg, log, client, tokens, now, s);
    var i :| 0 <= i < |log| && log[i].client == client && log[i].at == s;
    assert log'[i] == log[i];
    assert Begins(log', client, s) && Reached(cfg, log', client, tokens, now, s);
  }

  /** The bucket of the client, and its part of the history. */
  ghost predicate Account(cfg: Config, k: State, log: seq<Record>, client: string, now: real) {
    if client in k.levels then
      var level := k.levels[client];
      && 0.0 <= level.tokens && level.seen <= now
      && Quiet(log, client, level.seen) && Tight(cfg, log, client, level.tokens, level.seen)
    else forall i :: 0 <= i < |log| ==> log[i].client != client
  }

  lemma {:induction false} AccountBefore(cfg: Config, k: State, log: seq<Record>, client: string, last: real, now: real)
    requires cfg.Valid() && Account(cfg, k, log, client, last) && last <= now
    ensures TightBefore(cfg, log, client, Refilled(k.levels, client, cfg.gain, cfg.Burst(), now), now)
    ensures Refilled(k.levels, client, cfg.gain, cfg.Burst(), now) >= 0.0
  {
    if client in k.levels {
      var level := k.levels[client];
      assert cfg.gain(now - level.seen) >= 0.0;
      Refills(cfg, log, client, level.tokens, level.seen, now);
    } else {
      forall s | s <= now
        ensures cfg.Burst() <= Left(cfg, log, client, s, now)
      {
        NoneLater(log, client, s - 1.0, s);
        assert cfg.gain(now - s) >= 0.0;
      }
      NoneLater(log, client, now - 1.0, now);
      assert now - now == 0.0;
      assert Reached(cfg, log, client, cfg.Burst(), now, now);
    }
  }

  lemma {:induction false} AccountAfter(cfg: Config, k: State, log: seq<Record>, r: Request, client: string, last: real)
    requires cfg.Valid() && last <= r.at
    requires Account(cfg, k, log, client, last) && Account(cfg, k, log, r.client, last)
    ensures var (k', ok) := Take(k, r.client, cfg.gain, cfg.Burst(), r.at);
      Account(cfg, k', log + [Record(r.client, r.at, ok)], client, r.at)
  {
    var (k', ok) := Take(k, r.client, cfg.gain, cfg.Burst(), r.at);
    var e := Record(r.client, r.at, ok);
    var log' := log + [e];
    if client == r.client {
      AccountBefore(cfg, k, log, client, last, r.at);
      Spends(cfg, log, e, Refilled(k.levels, client, cfg.gain, cfg.Burst(), r.at));
    } else if client in k.levels {
      TightFrame(cfg, log, e, client, k.levels[client].tokens, k.levels[client].seen);
    }
  }

  lemma {:induction false} RunAccount(cfg: Config, start: real, reqs: seq<Request>, client: string)
    requires cfg.Valid() && Monotone(start, reqs)
    ensures Account(cfg, Run(Stepping(cfg, false), Start(start), reqs), History(Stepping(cfg, false), Start(start), reqs),
                    client, LastTime(start, reqs))
  {
    if reqs != [] {
      var init, r := reqs[..|reqs| - 1], reqs[|reqs| - 1];
      MonotoneInit(start, reqs);
      RunAccount(cfg, start, init, client);
      RunAccount(cfg, start, init, r.client);
      AccountAfter(cfg, Run(Stepping(cfg, false), Start(start), init), History(Stepping(cfg, false), Start(start), init),
                   r, client, LastTime(start, init));
    }
  }

  /** Whether a request is admitted after a run. */
  function Verdict(step: Stepper, start: real, reqs: seq<Request>, r: Request): bool {
    History(step, Start(start), reqs + [r])[|reqs|].ok
  }

  lemma {:induction false} LastVerdict(cfg: Config, start: real, reqs: seq<Request>, r: Request)
    ensures Verdict(Stepping(cfg, false), start, reqs, r) ==
      !(Refilled(Run(Stepping(cfg, false), Start(start), reqs).levels, r.client, cfg.gain, cfg.Burst(), r.at) < 1.0)
  {
    RunSnoc(Stepping(cfg, false), Start(start), reqs, r);
  }

  /** Some window up to now, the last of them starting with this or an earlier request, has no whole admission left. */
  ghost predicate Exhausted(cfg: Config, log: seq<Record>, client: string, now: real, s: real) {
    s <= now && Left(cfg, log, client, s, now) < 1.0
  }

  /** The window starts now or with a request of the client. */
  ghost predicate StartsWindow(log: seq<Record>, client: string, now: real, s: real) {
    s == now || Begins(log, client, s)
  }

  ghost predicate ExhaustedByRequest(cfg: Config, log: seq<Record>, client: string, now: real, s: real) {
    StartsWindow(log, client, now, s) && Exhausted(cfg, log, client, now, s)
  }

  lemma {:induction false} NoTokenIffExhausted(cfg: Config, log: seq<Record>, client: string, tokens: real, now: real)
    requires TightBefore(cfg, log, client, tokens, now)
    ensures (exists s :: Exhausted(cfg, log, client, now, s)) ==> tokens < 1.0
    ensures tokens < 1.0 ==> exists s :: ExhaustedByRequest(cfg, log, client, now, s)
  {
    var s :| (s == now || Begins(log, client, s)) && Reached(cfg, log, client, tokens, now, s);
    assert tokens < 1.0 ==> ExhaustedByRequest(cfg, log, client, now, s);
  }

  lemma {:induction false} RefusedIffExhausted(cfg: Config, start: real, reqs: seq<Request>, r: Request)
    requires cfg.Valid() && Monotone(start, reqs + [r])
    ensures (exists s :: Exhausted(cfg, History(Stepping(cfg, false), Start(start), reqs), r.client, r.at, s)) ==>
      !Verdict(Stepping(cfg, false), start, reqs, r)
    ensures !Verdict(Stepping(cfg, false), start, reqs, r) ==>
      exists s :: ExhaustedByRequest(cfg, History(Stepping(cfg, false), Start(start), reqs), r.client, r.at, s)
  {
    var k, log := Run(Stepping(cfg, false), Start(start), reqs), History(Stepping(cfg, false), Start(start), reqs);
    var tokens := Refilled(k.levels, r.client, cfg.gain, cfg.Burst(), r.at);
    assert TightBefore(cfg, log, r.client, tokens, r.at) by {
      MonotoneInit(start, reqs + [r]);
      assert (reqs + [r])[..|reqs|] == reqs;
      RunAccount(cfg, start, reqs, r.client);
      AccountBefore(cfg, k, log, r.client, LastTime(start, reqs), r.at);
    }
    LastVerdict(cfg, start, reqs, r);
    NoTokenIffExhausted(cfg, log, r.client, tokens, r.at);
  }

  /** One more admission would put more into the window from s to now than its burst and its inflow. */
  predicate WouldOverdraw(rate: real, burst: int, log: seq<Record>, client: string, s: real, now: real) {
    s <= now && (Admitted(log, client, s) + 1) as real > burst as real + (now - s) * rate
  }

  /** The history of the limiter as it is. */
  function Log(rate: real, burst: int, start: real, reqs: seq<Request>): (log: seq<Record>)
    ensures |log| == |reqs|
  {
    History(Stepping(ConfigFor(rate, burst), true), Start(start), reqs)
  }

  lemma {:induction false} OverdrawnIsExhausted(
      rate: real, burst: int, log: seq<Record>, client: string, now: real, s: real)
    ensures Exhausted(ConfigFor(rate, burst), log, client, now, s) <==> WouldOverdraw(rate, burst, log, client, s, now)
  {
  }

  lemma {:induction false} LogWithoutSweep(rate: real, burst: int, start: real, reqs: seq<Request>)
    requires rate > 0.0 && burst >= 1 && rate * SWEEP_INTERVAL >= burst as real && Monotone(start, reqs)
    ensures ConfigFor(rate, burst).Valid()
    ensures Log(rate, burst, start, reqs) == History(Stepping(ConfigFor(rate, burst), false), Start(start), reqs)
  {
    ConstantRateIsSteady(rate);
    RunsAlike(ConfigFor(rate, burst), start, reqs);
  }

  /**
   When idle buckets have time to fill, a request is refused exactly when admitting it would overdraw
   some window up to now; and then one that starts with this or an earlier request of the client.
   */
  lemma {:induction false} ExactLimiter(rate: real, burst: int, start: real, reqs: seq<Request>, r: Request)
    requires rate > 0.0 && burst >= 1 && rate * SWEEP_INTERVAL >= burst as real
    requires Monotone(start, reqs + [r])
    ensures var log := Log(rate, burst, start, reqs);
      var refused := !Log(rate, burst, start, reqs + [r])[|reqs|].ok;
      && (refused <==> exists s :: WouldOverdraw(rate, burst, log, r.client, s, r.at))
      && (refused ==> exists s :: StartsWindow(log, r.client, r.at, s)
                                  && WouldOverdraw(rate, burst, log, r.client, s, r.at))
  {
    var cfg, log := ConfigFor(rate, burst), Log(rate, burst, start, reqs);
    var refused := !Log(rate, burst, start, reqs + [r])[|reqs|].ok;
    assert Monotone(start, reqs) by {
      MonotoneInit(start, reqs + [r]);
      assert (reqs + [r])[..|reqs|] == reqs;
    }
    LogWithoutSweep(rate, burst, start, reqs);
    LogWithoutSweep(rate, burst, start, reqs + [r]);
    RefusedIffExhausted(cfg, start, reqs, r);
    if refused {
      var s :| ExhaustedByRequest(cfg, log, r.client, r.at, s);
      OverdrawnIsExhausted(rate, burst, log, r.client, r.at, s);
    } else {
      forall s
        ensures !WouldOverdraw(rate, burst, log, r.client, s, r.at)
      {
        OverdrawnIsExhausted(rate, burst, log, r.client, r.at, s);
      }
    }
  }

  lemma {:induction false} WindowIsTail(log: seq<Record>, client: string, from: real, to: real)
    requires Quiet(log, client, to)
    ensures AdmittedIn(log, client, from, to) == Admitted(log, client, from)
  {
    if log != [] {
      assert log[|log| - 1].client == client ==> log[|log| - 1].at <= to;
      WindowIsTail(log[..|log| - 1], client, from, to);
    }
  }

  /** The window holds no more admissions than the burst and what flows in over its length. */
  ghost predicate Within(cfg: Config, log: seq<Record>, client: string, from: real, to: real) {
    AdmittedIn(log, client, from, to) as real <= cfg.Burst() + cfg.gain(to - from)
  }

  /** A request inside the window leaves tokens for the rest of it. */
  lemma {:induction false} WindowFromAccount(
      cfg: Config, k: State, log: seq<Record>, client: string, from: real, at: real, to: real)
    requires cfg.Valid() && from <= at <= to
    requires Account(cfg, k, log, client, at) && client in k.levels && k.levels[client].seen == at
    ensures Within(cfg, log, client, from, to)
  {
    var level := k.levels[client];
    assert level.tokens <= Left(cfg, log, client, from, at);
    assert AdmittedIn(log, client, from, to) == Admitted(log, client, from) by {
      assert Quiet(log, client, to);
      WindowIsTail(log, client, from, to);
    }
    GainOver(cfg.gain, from, at, to);
    assert cfg.gain(to - at) >= 0.0;
  }

  lemma {:induction false} WindowSnoc(cfg: Config, log: seq<Record>, e: Record, client: string, from: real, to: real)
    requires Within(cfg, log, client, from, to) && !(e.client == client && from <= e.at <= to)
    ensures Within(cfg, log + [e], client, from, to)
  {
    assert (log + [e])[..|log|] == log;
  }

  lemma {:induction false} WindowBound(
      cfg: Config, start: real, reqs: seq<Request>, client: string, from: real, to: real)
    requires cfg.Valid() && Monotone(start, reqs) && from <= to
    ensures Within(cfg, History(Stepping(cfg, false), Start(start), reqs), client, from, to)
  {
    if reqs == [] {
      assert cfg.gain(to - from) >= 0.0;
    } else {
      var init, r := reqs[..|reqs| - 1], reqs[|reqs| - 1];
      var k, log := Run(Stepping(cfg, false), Start(start), reqs), History(Stepping(cfg, false), Start(start), reqs);
      if r.client == client && from <= r.at <= to {
        assert Account(cfg, k, log, client, r.at) by { RunAccount(cfg, start, reqs, client); }
        WindowFromAccount(cfg, k, log, client, from, r.at, to);
      } else {
        MonotoneInit(start, reqs);
        WindowBound(cfg, start, init, client, from, to);
        WindowSnoc(cfg, History(Stepping(cfg, false), Start(start), init), log[|log| - 1], client, from, to);
      }
    }
  }

  /** The window holds no more admissions of the client than the burst and what flows in over its length. */
  predicate WithinRate(rate: real, burst: int, log: seq<Record>, client: string, from: real, to: real) {
    AdmittedIn(log, client, from, to) as real <= burst as real + (to - from) * rate
  }

  lemma {:induction false} WithinAtRate(rate: real, burst: int, log: seq<Record>, client: string, from: real, to: real)
    requires Within(ConfigFor(rate, burst), log, client, from, to)
    ensures WithinRate(rate, burst, log, client, from, to)
  {
    assert GainAt(rate)(to - from) == (to - from) * rate;
  }

  /** No window of any length ever holds more admissions of a client than its burst and its inflow. */
  lemma {:induction false} NoWindowIsOverdrawn(
      rate: real, burst: int, start: real, reqs: seq<Request>, client: string, from: real, to: real)
    requires rate > 0.0 && burst >= 1 && rate * SWEEP_INTERVAL >= burst as real
    requires Monotone(start, reqs) && from <= to
    ensures WithinRate(rate, burst, Log(rate, burst, start, reqs), client, from, to)
  {
    LogWithoutSweep(rate, burst, start, reqs);
    WindowBound(ConfigFor(rate, burst), start, reqs, client, from, to);
    WithinAtRate(rate, burst, Log(rate, burst, start, reqs), client, from, to);
  }

  // ----- on which configurations the limiter is exact -----

  lemma {:induction false} AllInWindow(log: seq<Record>, client: string, from: real, to: real)
    requires AllOk(log) && forall i :: 0 <= i < |log| ==> log[i].client == client && from <= log[i].at <= to
    ensures AdmittedIn(log, client, from, to) == Admitted(log, client, from) == |log|
  {
    if log != [] {
      AllInWindow(log[..|log| - 1], client, from, to);
    }
  }

  /** Both bursts lie in the window from their first to their last request. */
  lemma {:induction false} BothBurstsInWindow(rate: real, burst: int, t: real)
    requires rate > 0.0 && burst >= 1 && SWEEP_INTERVAL < t
    ensures var log := Log(rate, burst, 0.0, TwoBursts(burst, t));
      && AllOk(log) && AdmittedIn(log, "", 0.0, t) == 2 * burst
      && Admitted(log[..2 * burst - 1], "", 0.0) == 2 * burst - 1
  {
    var cfg, reqs := ConfigFor(rate, burst), TwoBursts(burst, t);
    var log := Log(rate, burst, 0.0, reqs);
    ConstantRateIsSteady(rate);
    assert AllOk(log) by { BothBurstsAdmitted(cfg, t); }
    HistoryOfRequests(Stepping(cfg, true), Start(0.0), reqs);
    AllInWindow(log, "", 0.0, t);
    AllInWindow(log[..2 * burst - 1], "", 0.0, t);
  }

  ghost predicate NeverOverdrawn(rate: real, burst: int) {
    forall start, reqs, client, from, to
      {:trigger WithinRate(rate, burst, Log(rate, burst, start, reqs), client, from, to)} ::
      Monotone(start, reqs) && from <= to ==> WithinRate(rate, burst, Log(rate, burst, start, reqs), client, from, to)
  }

  /** No window of any run is ever overdrawn exactly when idle buckets have time to fill. */
  lemma {:induction false} NeverOverdrawnIff(rate: real, burst: int)
    requires rate > 0.0 && burst >= 1
    ensures NeverOverdrawn(rate, burst) <==> rate * SWEEP_INTERVAL >= burst as real
  {
    if rate * SWEEP_INTERVAL >= burst as real {
      forall start, reqs, client, from, to | Monotone(start, reqs) && from <= to
        ensures WithinRate(rate, burst, Log(rate, burst, start, reqs), client, from, to)
      {
        NoWindowIsOverdrawn(rate, burst, start, reqs, client, from, to);
      }
    } else {
      var t := SlowFill(rate, burst);
      TwoBurstsOverdraw(rate, burst, t);
      assert Monotone(0.0, TwoBursts(burst, t));
    }
  }

  lemma {:induction false} TwoBurstsOverdraw(rate: real, burst: int, t: real)
    requires rate > 0.0 && burst >= 1 && SWEEP_INTERVAL < t && t * rate < burst as real
    ensures !WithinRate(rate, burst, Log(rate, burst, 0.0, TwoBursts(burst, t)), "", 0.0, t)
  {
    BothBurstsInWindow(rate, burst, t);
    assert t - 0.0 == t;
  }

  /** The request is refused exactly when admitting it would overdraw some window up to it. */
  ghost predicate RefusedRightly(rate: real, burst: int, start: real, reqs: seq<Request>, r: Request) {
    Log(rate, burst, start, reqs + [r])[|reqs|].ok <==>
      forall s :: !WouldOverdraw(rate, burst, Log(rate, burst, start, reqs), r.client, s, r.at)
  }

  ghost predicate IsExact(rate: real, burst: int) {
    forall start, reqs, r :: Monotone(start, reqs + [r]) ==> RefusedRightly(rate, burst, start, reqs, r)
  }

  /** The last request of the second burst is admitted, although the window of both is overdrawn by it. */
  lemma {:induction false} LastOverdraws(rate: real, burst: int, t: real)
    requires rate > 0.0 && burst >= 1 && SWEEP_INTERVAL < t && t * rate < burst as real
    ensures var all := TwoBursts(burst, t);
      !RefusedRightly(rate, burst, 0.0, all[..2 * burst - 1], all[2 * burst - 1])
  {
    var all := TwoBursts(burst, t);
    var reqs, r := all[..2 * burst - 1], all[2 * burst - 1];
    BothBurstsInWindow(rate, burst, t);
    assert reqs + [r] == all;
    HistorySnoc(Stepping(ConfigFor(rate, burst), true), Start(0.0), reqs, r);
    assert t - 0.0 == t;
    assert WouldOverdraw(rate, burst, Log(rate, burst, 0.0, reqs), "", 0.0, t);
  }

  /** The limiter refuses exactly the requests it should on every run exactly when idle buckets have time to fill. */
  lemma {:induction false} IsExactIff(rate: real, burst: int)
    requires rate > 0.0 && burst >= 1
    ensures IsExact(rate, burst) <==> rate * SWEEP_INTERVAL >= burst as real
  {
    if rate * SWEEP_INTERVAL >= burst as real {
      forall start, reqs, r: Request | Monotone(start, reqs + [r])
        ensures RefusedRightly(rate, burst, start, reqs, r)
      {
        ExactLimiter(rate, burst, start, reqs, r);
      }
    } else {
      var t := SlowFill(rate, burst);
      var all := TwoBursts(burst, t);
      LastOverdraws(rate, burst, t);
      assert all[..2 * burst - 1] + [all[2 * burst - 1]] == all;
    }
  }

  // ----- no bucket is overdrawn -----

  /** The buckets are recent, and none is overdrawn. */
  ghost predicate Sound(s: State, now: real) {
    Recent(s, now) && forall c :: c in s.levels ==> s.levels[c].tokens >= 0.0
  }

  lemma {:induction false} SoundTaken(cfg: Config, s: State, client: string, now: real)
    requires cfg.Valid() && Sound(s, now)
    ensures Sound(Take(s, client, cfg.gain, cfg.Burst(), now).0, now)
  {
    if client in s.levels { assert cfg.gain(now - s.levels[client].seen) >= 0.0; }
  }

  lemma {:induction false} SoundSwept(s: State, now: real, later: real)
    requires Sound(s, now) && now <= later
    ensures Sound(Sweep(s, later), later)
  {
  }

  lemma {:induction false} SoundStep(cfg: Config, s: State, r: Request, now: real)
    requires cfg.Valid() && Sound(s, now) && now <= r.at
    ensures Sound(Step(cfg, s, r, true).0, r.at)
  {
    SoundSwept(s, now, r.at);
    SoundTaken(cfg, Sweep(s, r.at), r.client, r.at);
  }

  lemma {:induction false} RunIsSound(cfg: Config, start: real, reqs: seq<Request>)
    requires cfg.Valid() && Monotone(start, reqs)
    ensures Sound(Run(Stepping(cfg, true), Start(start), reqs), LastTime(start, reqs))
  {
    if reqs != [] {
      var init, r := reqs[..|reqs| - 1], reqs[|reqs| - 1];
      MonotoneInit(start, reqs);
      RunIsSound(cfg, start, init);
      SoundStep(cfg, Run(Stepping(cfg, true), Start(start), init), r, LastTime(start, init));
    }
  }
}
