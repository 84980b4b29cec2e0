/** The advice a refused client is given, to come back after a number of seconds, and when it is good advice. */
module LimiterAdvice {
  import opened Limiter
  import opened LimiterLaws

  /** The Retry-After header of a refusal: the whole seconds in which a token flows in, at least one. */
  function RetryAfter(rate: real): int
    requires rate > 0.0
  {
    var seconds := (1.0 / rate).Floor;
    if seconds > 1 then seconds else 1
  }

  /** Whoever is refused and comes back after that time is admitted. */
  ghost predicate RetryAfterSuffices(rate: real, burst: int)
    requires rate > 0.0
  {
    AlwaysComesBack(Stepping(ConfigFor(rate, burst), true), RetryAfter(rate) as real)
  }

  ghost predicate AlwaysComesBack(step: Stepper, wait: real) {
    forall start, reqs, r, others, again :: ComesBack(step, start, reqs, r, others, again, wait)
  }

  ghost predicate OfOthers(reqs: seq<Request>, client: string) {
    forall i :: 0 <= i < |reqs| ==> reqs[i].client != client
  }

  /**
   If the request r of a run is refused, and after requests of other clients only the same client comes
   back, at that many seconds later or later still, it is admitted.
   */
  ghost predicate ComesBack(
      step: Stepper, start: real, reqs: seq<Request>, r: Request, others: seq<Request>, again: Request, wait: real) {
    var run := reqs + [r] + others + [again];
    Monotone(start, run) && OfOthers(others, r.client) && again.client == r.client && again.at >= r.at + wait ==>
      var log := History(step, Start(start), run);
      log[|reqs|].ok || log[|run| - 1].ok
  }

  lemma {:induction false} ComesBackMeans(
      step: Stepper, start: real, reqs: seq<Request>, r: Request, others: seq<Request>, again: Request, wait: real)
    requires Monotone(start, reqs + [r] + others + [again]) && OfOthers(others, r.client)
    requires again.client == r.client && again.at >= r.at + wait
    ensures ComesBack(step, start, reqs, r, others, again, wait) ==
      (Verdict(step, start, reqs, r) || Verdict(step, start, reqs + [r] + others, again))
  {
    var run := reqs + [r] + others + [again];
    HistoryPrefix(step, Start(start), run, |reqs| + 1);
    assert run[..|reqs| + 1] == reqs + [r];
  }

  /** What the limiter finds in the bucket of a client after a run, its sweep included. */
  function TokensFor(cfg: Config, k: State, client: string, now: real): real {
    Refilled(Sweep(k, now).levels, client, cfg.gain, cfg.Burst(), now)
  }

  lemma {:induction false} SweptVerdict(cfg: Config, start: real, reqs: seq<Request>, r: Request, k: State)
    requires k == Run(Stepping(cfg, true), Start(start), reqs)
    ensures Verdict(Stepping(cfg, true), start, reqs, r) == !(TokensFor(cfg, k, r.client, r.at) < 1.0)
  {
    RunSnoc(Stepping(cfg, true), Start(start), reqs, r);
  }

  lemma {:induction false} TokenFlowsIn(rate: real)
    requires rate > 0.0
    ensures RetryAfter(rate) as real * rate >= 1.0 <==> rate >= 1.0 || (1.0 / rate).Floor as real == 1.0 / rate
  {
    var w, period := RetryAfter(rate) as real, 1.0 / rate;
    assert period * rate == 1.0;
    if rate >= 1.0 {
      Scale(1.0, w, rate);
    } else {
      assert period > 1.0 by {
        if period <= 1.0 { Scale(period, 1.0, rate); }
      }
      if w < period {
        ScaleStrictly(w, period, rate);
      } else {
        Scale(period, w, rate);
      }
    }
  }

  lemma {:induction false} Scale(a: real, b: real, rate: real)
    requires a <= b && rate > 0.0
    ensures a * rate <= b * rate
  {
  }

  lemma {:induction false} ScaleStrictly(a: real, b: real, rate: real)
    requires a < b && rate > 0.0
    ensures a * rate < b * rate
  {
  }

  lemma {:induction false} PeriodIs(rate: real, period: real)
    requires rate > 0.0 && period * rate == 1.0
    ensures rate >= 1.0 <==> period <= 1.0
  {
    if rate >= 1.0 && period > 1.0 { ScaleStrictly(1.0, period, rate); }
    if rate < 1.0 && period <= 1.0 { Scale(period, 1.0, rate); }
  }

  /** The header says one second at a rate of one or more, and else the largest whole number not above the period. */
  lemma {:induction false} RetryAfterIs(rate: real)
    requires rate > 0.0
    ensures rate >= 1.0 ==> RetryAfter(rate) == 1
    ensures rate < 1.0 ==>
      var seconds := RetryAfter(rate); seconds >= 1 && seconds as real <= 1.0 / rate < seconds as real + 1.0
  {
    var period := 1.0 / rate;
    PeriodIs(rate, period);
  }

  // ----- whoever waits long enough is admitted -----

  /** If the client still has a bucket, it was seen then. */
  ghost predicate SeenAt(k: State, client: string, at: real) {
    client in k.levels ==> k.levels[client].seen == at && k.levels[client].tokens >= 0.0
  }

  lemma {:induction false} StepSees(cfg: Config, s: State, r: Request)
    ensures var k := Step(cfg, s, r, true).0;
      r.client in k.levels && k.levels[r.client].seen == r.at
  {
  }

  lemma {:induction false} StepOfOther(cfg: Config, s: State, r: Request, client: string, at: real)
    requires r.client != client && SeenAt(s, client, at)
    ensures SeenAt(Step(cfg, s, r, true).0, client, at)
  {
  }

  /** Requests of others leave a bucket as it is, or have it collected. */
  lemma {:induction false} OthersLeave(cfg: Config, k: State, others: seq<Request>, client: string, at: real)
    requires SeenAt(k, client, at) && OfOthers(others, client)
    ensures SeenAt(Run(Stepping(cfg, true), k, others), client, at)
  {
    if others != [] {
      var init := others[..|others| - 1];
      OthersLeave(cfg, k, init, client, at);
      StepOfOther(cfg, Run(Stepping(cfg, true), k, init), others[|others| - 1], client, at);
    }
  }

  /**
   Whoever comes back when a token has flowed in finds one; and so does whoever comes back after twice
   the interval, because a bucket last seen then was kept by no sweep later than one interval after.
   */
  lemma {:induction false} TokenOnReturn(
      cfg: Config, k: State, last: real, client: string, at: real, now: real, wait: real)
    requires cfg.Valid() && Sound(k, last) && last <= now && SeenAt(k, client, at) && at + wait <= now
    requires wait >= 0.0 && (cfg.gain(wait) >= 1.0 || wait >= 2.0 * SWEEP_INTERVAL)
    ensures TokensFor(cfg, k, client, now) >= 1.0
  {
    if client in Sweep(k, now).levels {
      assert k.swept <= at + SWEEP_INTERVAL;
      assert wait < 2.0 * SWEEP_INTERVAL;
      GainOver(cfg.gain, at, now - wait, now);
      assert now - (now - wait) == wait;
    }
  }

  lemma {:induction false} PrefixIsMonotone(start: real, reqs: seq<Request>, n: nat)
    requires Monotone(start, reqs) && n <= |reqs|
    ensures Monotone(start, reqs[..n])
    ensures n < |reqs| ==> LastTime(start, reqs[..n]) <= reqs[n].at
  {
  }

  /** The bucket of a client after a request of its own and some of others. */
  lemma {:induction false} AfterOthers(
      cfg: Config, start: real, reqs: seq<Request>, r: Request, others: seq<Request>)
    requires cfg.Valid() && Monotone(start, reqs + [r] + others) && OfOthers(others, r.client)
    ensures SeenAt(Run(Stepping(cfg, true), Start(start), reqs + [r] + others), r.client, r.at)
  {
    var step := Stepping(cfg, true);
    var k := Run(step, Start(start), reqs + [r]);
    assert SeenAt(k, r.client, r.at) by {
      assert (reqs + [r] + others)[..|reqs| + 1] == reqs + [r];
      PrefixIsMonotone(start, reqs + [r] + others, |reqs| + 1);
      RunIsSound(cfg, start, reqs + [r]);
      RunSnoc(step, Start(start), reqs, r);
      StepSees(cfg, Run(step, Start(start), reqs), r);
    }
    RunConcat(step, Start(start), reqs + [r], others);
    OthersLeave(cfg, k, others, r.client, r.at);
  }

  lemma {:induction false} AdmittedOnReturn(
      cfg: Config, start: real, reqs: seq<Request>, r: Request, others: seq<Request>, again: Request, wait: real)
    requires cfg.Valid() && wait >= 0.0 && (cfg.gain(wait) >= 1.0 || wait >= 2.0 * SWEEP_INTERVAL)
    ensures ComesBack(Stepping(cfg, true), start, reqs, r, others, again, wait)
  {
    var tried := reqs + [r] + others;
    if Monotone(start, tried + [again]) && OfOthers(others, r.client) && again.client == r.client
      && again.at >= r.at + wait {
      var k := Run(Stepping(cfg, true), Start(start), tried);
      assert (tried + [again])[..|tried|] == tried && (tried + [again])[|tried|] == again;
      PrefixIsMonotone(start, tried + [again], |tried|);
      assert Sound(k, LastTime(start, tried)) by { RunIsSound(cfg, start, tried); }
      assert SeenAt(k, r.client, r.at) by { AfterOthers(cfg, start, reqs, r, others); }
      TokenOnReturn(cfg, k, LastTime(start, tried), r.client, r.at, again.at, wait);
      SweptVerdict(cfg, start, tried, again, k);
      ComesBackMeans(Stepping(cfg, true), start, reqs, r, others, again, wait);
    }
  }

  // ----- and whoever does not may be refused -----

  /** A refused request leaves the spent bucket as it is. */
  lemma {:induction false} SpentAgain(cfg: Config, reqs: seq<Request>)
    requires cfg.Valid() && Run(Stepping(cfg, true), Start(0.0), reqs) == Alone(Level(0.0, 0.0), 0.0)
    ensures !Verdict(Stepping(cfg, true), 0.0, reqs, Request("", 0.0))
    ensures Run(Stepping(cfg, true), Start(0.0), reqs + [Request("", 0.0)]) == Alone(Level(0.0, 0.0), 0.0)
  {
    RunSnoc(Stepping(cfg, true), Start(0.0), reqs, Request("", 0.0));
    TakeAgain(cfg, Level(0.0, 0.0), 0.0, true);
  }

  /** Another client that asks when the sweep is due, and has the spent bucket kept until the next one. */
  function Meanwhile(wait: real): seq<Request> {
    if wait <= SWEEP_INTERVAL then [] else [Request("b", SWEEP_INTERVAL)]
  }

  /** The spent bucket of the client is there, and no sweep is due before that time. */
  ghost predicate Kept(k: State, now: real) {
    "" in k.levels && k.levels[""] == Level(0.0, 0.0) && "" in Sweep(k, now).levels
  }

  lemma {:induction false} MeanwhileKeeps(cfg: Config, k: State, wait: real)
    requires k == Alone(Level(0.0, 0.0), 0.0) && 0.0 <= wait < 2.0 * SWEEP_INTERVAL
    ensures Kept(Run(Stepping(cfg, true), k, Meanwhile(wait)), wait)
  {
    if wait > SWEEP_INTERVAL {
      var b := Request("b", SWEEP_INTERVAL);
      RunSnoc(Stepping(cfg, true), k, [], b);
      assert [] + [b] == Meanwhile(wait);
      assert "" in Sweep(k, SWEEP_INTERVAL).levels;
    }
  }

  lemma {:induction false} KeptIsShort(cfg: Config, k: State, wait: real)
    requires cfg.Valid() && Kept(k, wait) && cfg.gain(wait) < 1.0
    ensures TokensFor(cfg, k, "", wait) < 1.0
  {
    assert wait - 0.0 == wait;
  }

  lemma {:induction false} RefusedBoth(cfg: Config, wait: real)
    requires cfg.Valid() && 0.0 <= wait < 2.0 * SWEEP_INTERVAL && cfg.gain(wait) < 1.0
    ensures var step, reqs, r := Stepping(cfg, true), Repeat(cfg.burst, 0.0), Request("", 0.0);
      && !Verdict(step, 0.0, reqs, r)
      && !Verdict(step, 0.0, reqs + [r] + Meanwhile(wait), Request("", wait))
  {
    var step, reqs, r := Stepping(cfg, true), Repeat(cfg.burst, 0.0), Request("", 0.0);
    assert Run(step, Start(0.0), reqs) == Alone(Level(0.0, 0.0), 0.0) by { FirstBurst(cfg, true); }
    SpentAgain(cfg, reqs);
    RunConcat(step, Start(0.0), reqs + [r], Meanwhile(wait));
    MeanwhileKeeps(cfg, Alone(Level(0.0, 0.0), 0.0), wait);
    var k := Run(step, Start(0.0), reqs + [r] + Meanwhile(wait));
    KeptIsShort(cfg, k, wait);
    SweptVerdict(cfg, 0.0, reqs + [r] + Meanwhile(wait), Request("", wait), k);
  }

  lemma {:induction false} NeverComesBack(
      step: Stepper, start: real, reqs: seq<Request>, r: Request, others: seq<Request>, again: Request, wait: real)
    requires Monotone(start, reqs + [r] + others + [again]) && OfOthers(others, r.client)
    requires again.client == r.client && again.at >= r.at + wait
    requires !Verdict(step, start, reqs, r) && !Verdict(step, start, reqs + [r] + others, again)
    ensures !ComesBack(step, start, reqs, r, others, again, wait)
  {
    ComesBackMeans(step, start, reqs, r, others, again, wait);
  }

  lemma {:induction false} MeanwhileIsMonotone(n: nat, wait: real)
    requires 0.0 <= wait
    ensures Monotone(0.0, Repeat(n, 0.0) + [Request("", 0.0)] + Meanwhile(wait) + [Request("", wait)])
    ensures OfOthers(Meanwhile(wait), "")
  {
  }

  /** The run in which the advice fails: the burst is spent, one request is refused, and so is the return. */
  lemma {:induction false} RefusedAgain(cfg: Config, wait: real)
    requires cfg.Valid() && 0.0 <= wait < 2.0 * SWEEP_INTERVAL && cfg.gain(wait) < 1.0
    ensures !ComesBack(Stepping(cfg, true), 0.0, Repeat(cfg.burst, 0.0), Request("", 0.0), Meanwhile(wait),
                       Request("", wait), wait)
  {
    RefusedBoth(cfg, wait);
    MeanwhileIsMonotone(cfg.burst, wait);
    NeverComesBack(Stepping(cfg, true), 0.0, Repeat(cfg.burst, 0.0), Request("", 0.0), Meanwhile(wait),
                   Request("", wait), wait);
  }

  lemma {:induction false} AlwaysComesBackIff(cfg: Config, wait: real)
    requires cfg.Valid() && wait >= 0.0
    ensures AlwaysComesBack(Stepping(cfg, true), wait) <==> cfg.gain(wait) >= 1.0 || wait >= 2.0 * SWEEP_INTERVAL
  {
    if cfg.gain(wait) >= 1.0 || wait >= 2.0 * SWEEP_INTERVAL {
      forall start, reqs, r, others, again
        ensures ComesBack(Stepping(cfg, true), start, reqs, r, others, again, wait)
      {
        AdmittedOnReturn(cfg, start, reqs, r, others, again, wait);
      }
    } else {
      RefusedAgain(cfg, wait);
    }
  }

  lemma {:induction false} WaitAtRate(rate: real, burst: int)
    requires rate > 0.0
    ensures var wait := RetryAfter(rate) as real;
      ConfigFor(rate, burst).gain(wait) >= 1.0 <==> rate >= 1.0 || (1.0 / rate).Floor as real == 1.0 / rate
  {
    TokenFlowsIn(rate);
  }

  /**
   The header's truncated seconds suffice, whatever other clients ask meanwhile, exactly when the rate is
   at least one, or its period is whole, or they are at least twice the interval, after which the client's
   bucket has been collected.
   */
  lemma {:induction false} RetryAfterSufficesIff(rate: real, burst: int)
    requires rate > 0.0 && burst >= 1
    ensures RetryAfterSuffices(rate, burst) <==>
      || rate >= 1.0
      || (1.0 / rate).Floor as real == 1.0 / rate
      || RetryAfter(rate) as real >= 2.0 * SWEEP_INTERVAL
  {
    ConstantRateIsSteady(rate);
    WaitAtRate(rate, burst);
    AlwaysComesBackIff(ConfigFor(rate, burst), RetryAfter(rate) as real);
  }

  /** Between one interval and two, another client's request is what keeps the bucket short of a token. */
  lemma {:induction false} RefusedAfterOther()
    ensures RetryAfter(2.0 / 1401.0) == 700
    ensures !ComesBack(Stepping(ConfigFor(2.0 / 1401.0, 1), true), 0.0, Repeat(1, 0.0), Request("", 0.0),
                       [Request("b", 600.0)], Request("", 700.0), 700.0)
  {
    var rate := 2.0 / 1401.0;
    assert 1.0 / rate == 700.5;
    ConstantRateIsSteady(rate);
    assert GainAt(rate)(700.0) < 1.0;
    RefusedAgain(ConfigFor(rate, 1), 700.0);
    assert Meanwhile(700.0) == [Request("b", 600.0)];
  }
}
