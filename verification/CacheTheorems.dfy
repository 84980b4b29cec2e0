/** What the cache promises over every run: collapsing, windows, freshness, invalidation, termination. */
module CacheTheorems {
  import opened Wrappers
  import Board
  import opened CacheProtocol
  import opened CacheInvariants

  // ----- collapsing -----

  /** The entries of a market whose fetch has not settled. */
  function Unsettled(s: State, m: Market): set<Id> {
    set e: Id | e < |s.fetches| && e < |s.mem.cells| && s.fetches[e].market == m && !s.mem.cells[e].closed
  }

  /** How many of these steps invalidate the market. */
  function Invalidations(acts: seq<Action>, m: Market): nat {
    if acts == [] then 0
    else
      var a := acts[|acts| - 1];
      Invalidations(acts[..|acts| - 1], m) + (if a.Invalidate? && Covers(a.names, m) then 1 else 0)
  }

  lemma {:induction false} EpochsCount(cfg: Config, run: seq<State>, acts: seq<Action>, i: nat, m: Market)
    requires IsRun(cfg, run, acts) && i < |run|
    ensures run[i].epochs(m) == Invalidations(acts[..i], m)
  {
    if i > 0 {
      EpochsCount(cfg, run, acts, i - 1, m);
      assert Step(cfg, run[i - 1], acts[i - 1], run[i]);
      assert acts[..i][..i - 1] == acts[..i - 1];
    }
  }

  /** Between two invalidations of its market, an entry is registered only once all earlier ones are closed. */
  lemma {:induction false} EarlierAreClosed(cfg: Config, s: State, d: Id, e: Id)
    requires Entries(cfg, s) && d < e < |s.fetches| && SameTurn(s.fetches[d], s.fetches[e])
    ensures IsClosed(s, d)
    decreases e
  {
    assert EntryOk(cfg, s, e);
    var p := s.fetches[e].prev.value;
    if d < p { EarlierAreClosed(cfg, s, d, p); }
  }

  lemma {:induction false} CountByKey(ids: set<Id>, key: Id -> nat, n: nat)
    requires forall e :: e in ids ==> key(e) < n
    requires forall d, e :: d in ids && e in ids && d != e ==> key(d) != key(e)
    ensures |ids| <= n
  {
    if n == 0 {
      assert ids == {};
    } else if e :| e in ids && key(e) == n - 1 {
      CountByKey(ids - {e}, key, n - 1);
    } else {
      CountByKey(ids, key, n - 1);
    }
  }

  /** At any time, the unsettled fetches of a market number at most one more than its invalidations so far. */
  lemma {:induction false} FetchesAreCollapsed(cfg: Config, run: seq<State>, acts: seq<Action>, i: nat, m: Market)
    requires cfg.Valid() && IsRun(cfg, run, acts) && i < |run|
    ensures |Unsettled(run[i], m)| <= 1 + Invalidations(acts[..i], m)
  {
    var s := run[i];
    var ids, key := Unsettled(s, m), (e: Id) => if e < |s.fetches| then s.fetches[e].epoch else 0;
    RunInv(cfg, run, acts, i);
    EpochsCount(cfg, run, acts, i, m);
    forall e | e in ids
      ensures key(e) < 1 + s.epochs(m)
    {
      assert EntryOk(cfg, s, e);
    }
    forall d, e | d in ids && e in ids && d != e
      ensures key(d) != key(e)
    {
      if key(d) == key(e) {
        EarlierAreClosed(cfg, s, if d < e then d else e, if d < e then e else d);
      }
    }
    CountByKey(ids, key, 1 + s.epochs(m));
  }

  /** Whatever a step takes out of a slot, other than by invalidation, is settled; what it puts there is not. */
  lemma {:induction false} OnlySettledAreReplaced(cfg: Config, run: seq<State>, acts: seq<Action>, i: nat, m: Market)
    requires cfg.Valid() && IsRun(cfg, run, acts) && i < |acts|
    requires !(acts[i].Invalidate? && Covers(acts[i].names, m)) && Slot(run[i + 1].mem, m) != Slot(run[i].mem, m)
    ensures match Slot(run[i].mem, m) case None => true case Some(e) => IsClosed(run[i], e)
    ensures Slot(run[i + 1].mem, m) == Some(|run[i].mem.cells|) && !IsClosed(run[i + 1], |run[i].mem.cells|)
  {
    var s, t := run[i], run[i + 1];
    RunInv(cfg, run, acts, i);
    assert Step(cfg, s, acts[i], t);
    assert acts[i].Register?;
    assert CallOk(cfg, s, acts[i].c, s.calls[acts[i].c]);
  }

  // ----- fetches of a market lie apart -----

  /** How long after its publication an outcome should keep others from being fetched. */
  type Span = Outcome -> Time

  ghost predicate IsSpan(span: Span) {
    forall outcome {:trigger span(outcome)} :: span(outcome) >= 0
  }

  /** The span of the first had passed before the second was fetched. */
  predicate Passed(span: Span, f: Fetch, g: Fetch) {
    f.stage.Finished? && f.stage.at + span(f.stage.outcome) <= g.startedAt
  }

  /** Of two fetches without an invalidation of their market between, the later starts after the span of the earlier. */
  ghost predicate AreApart(span: Span, s: State) {
    forall d, e :: 0 <= d < e < |s.fetches| && SameTurn(s.fetches[d], s.fetches[e]) ==>
      Passed(span, s.fetches[d], s.fetches[e])
  }

  /** From some entry on, each one starts after the span of the one it replaced. */
  ghost predicate NoneEarly(span: Span, s: State, from: Id) {
    forall e :: from <= e < |s.fetches| && s.fetches[e].prev.Some? ==>
      s.fetches[e].prev.value < |s.fetches| && Passed(span, s.fetches[s.fetches[e].prev.value], s.fetches[e])
  }

  lemma {:induction false} PairApart(cfg: Config, span: Span, s: State, d: Id, e: Id)
    requires IsSpan(span) && Entries(cfg, s) && NoneEarly(span, s, d + 1)
    requires d < e < |s.fetches| && SameTurn(s.fetches[d], s.fetches[e])
    ensures Passed(span, s.fetches[d], s.fetches[e])
    decreases e
  {
    assert EntryOk(cfg, s, e);
    var p := s.fetches[e].prev.value;
    assert EntryOk(cfg, s, p);
    assert Passed(span, s.fetches[p], s.fetches[e]);
    if d < p { PairApart(cfg, span, s, d, p); }
  }

  lemma {:induction false} ApartIn(cfg: Config, span: Span, s: State)
    requires IsSpan(span) && Entries(cfg, s)
    ensures AreApart(span, s) <==> NoneEarly(span, s, 0)
  {
    if NoneEarly(span, s, 0) {
      forall d, e | 0 <= d < e < |s.fetches| && SameTurn(s.fetches[d], s.fetches[e])
        ensures Passed(span, s.fetches[d], s.fetches[e])
      {
        PairApart(cfg, span, s, d, e);
      }
    }
    if AreApart(span, s) {
      forall e | 0 <= e < |s.fetches| && s.fetches[e].prev.Some?
        ensures s.fetches[e].prev.value < |s.fetches|
        ensures Passed(span, s.fetches[s.fetches[e].prev.value], s.fetches[e])
      {
        assert EntryOk(cfg, s, e);
      }
    }
  }

  /** The call is about to replace this entry. */
  predicate Replaces(s: State, a: Action, p: Id) {
    && a.Register? && a.c in s.calls && s.calls[a.c].place.Registering? && s.calls[a.c].place.prev == Some(p)
    && p < |s.fetches| && p < |s.mem.cells| && s.fetches[p].stage.Finished?
  }

  /** A call replaces an entry within its span. */
  ghost predicate ReplacesEarly(span: Span, s: State, a: Action) {
    exists p: Id :: Replaces(s, a, p) && s.clock < s.fetches[p].stage.at + span(s.fetches[p].stage.outcome)
  }

  lemma {:induction false} OldPairStays(cfg: Config, s: State, a: Action, t: State, e: Id)
    requires Inv(cfg, s) && Step(cfg, s, a, t) && e < |s.fetches| && s.fetches[e].prev.Some?
    ensures e < |t.fetches| && t.fetches[e] == s.fetches[e].(stage := t.fetches[e].stage)
    ensures var p := s.fetches[e].prev.value; p < |s.fetches| && p < |t.fetches| && t.fetches[p] == s.fetches[p]
  {
    assert EntryOk(cfg, s, e);
    var p := s.fetches[e].prev.value;
    assert EntryOk(cfg, s, p);
    StepGrows(cfg, s, a, t);
    assert FetchGrows(s.fetches[e], t.fetches[e]) && FetchGrows(s.fetches[p], t.fetches[p]);
  }

  /** The new entry starts within the span of the one it replaced exactly if it was replaced early. */
  lemma {:induction false} NewPair(cfg: Config, span: Span, s: State, a: Action, t: State)
    requires Inv(cfg, s) && Step(cfg, s, a, t) && a.Register?
    ensures |t.fetches| == |s.fetches| + 1
    ensures var e, f := |s.fetches|, t.fetches[|s.fetches|];
      && (ReplacesEarly(span, s, a) ==> f.prev.Some?)
      && (f.prev.Some? ==>
           f.prev.value < e && (Passed(span, t.fetches[f.prev.value], f) <==> !ReplacesEarly(span, s, a)))
  {
    assert CallOk(cfg, s, a.c, s.calls[a.c]);
    var prev := s.calls[a.c].place.prev;
    if prev.Some? {
      assert EntryOk(cfg, s, prev.value);
      assert Replaces(s, a, prev.value);
    }
  }

  /** A step brings two fetches too close exactly when it replaces an entry early. */
  lemma {:induction false} ApartStep(cfg: Config, span: Span, s: State, a: Action, t: State, from: Id)
    requires Inv(cfg, s) && Step(cfg, s, a, t) && from <= |s.fetches|
    ensures NoneEarly(span, t, from) <==> NoneEarly(span, s, from) && !ReplacesEarly(span, s, a)
  {
    forall e: Id | from <= e < |s.fetches| && s.fetches[e].prev.Some?
      ensures e < |t.fetches| && t.fetches[e] == s.fetches[e].(stage := t.fetches[e].stage)
      ensures var p := s.fetches[e].prev.value; p < |s.fetches| && p < |t.fetches| && t.fetches[p] == s.fetches[p]
    {
      OldPairStays(cfg, s, a, t, e);
    }
    StepGrows(cfg, s, a, t);
    assert forall e :: 0 <= e < |s.fetches| ==> FetchGrows(s.fetches[e], t.fetches[e]);
    if a.Register? {
      NewPair(cfg, span, s, a, t);
    } else {
      assert |t.fetches| == |s.fetches|;
    }
  }

  /** No such step among those from i to j. */
  ghost predicate NeverReplacesEarly(span: Span, run: seq<State>, acts: seq<Action>, i: nat, j: nat)
    requires i <= j <= |acts| && |run| == |acts| + 1
  {
    forall k {:trigger acts[k]} :: i <= k < j ==> !ReplacesEarly(span, run[k], acts[k])
  }

  lemma {:induction false} ApartFrom(
      cfg: Config, span: Span, run: seq<State>, acts: seq<Action>, i: nat, j: nat, from: Id)
    requires cfg.Valid() && IsRun(cfg, run, acts) && i <= j <= |acts| && from == |run[i].fetches|
    ensures from <= |run[j].fetches|
    ensures NoneEarly(span, run[j], from) <==> NeverReplacesEarly(span, run, acts, i, j)
    decreases j
  {
    if i < j {
      ApartFrom(cfg, span, run, acts, i, j - 1, from);
      RunInv(cfg, run, acts, j - 1);
      assert Step(cfg, run[j - 1], acts[j - 1], run[j]);
      ApartStep(cfg, span, run[j - 1], acts[j - 1], run[j], from);
      StepGrows(cfg, run[j - 1], acts[j - 1], run[j]);
      assert NeverReplacesEarly(span, run, acts, i, j) <==>
        NeverReplacesEarly(span, run, acts, i, j - 1) && !ReplacesEarly(span, run[j - 1], acts[j - 1]);
    }
  }

  /** At any point of a run, the fetches of a market lie apart exactly when no step so far replaced an entry early. */
  lemma {:induction false} ApartIff(cfg: Config, span: Span, run: seq<State>, acts: seq<Action>, i: nat)
    requires cfg.Valid() && IsSpan(span) && IsRun(cfg, run, acts) && i <= |acts|
    ensures AreApart(span, run[i]) <==> NeverReplacesEarly(span, run, acts, 0, i)
  {
    RunInv(cfg, run, acts, i);
    ApartIn(cfg, span, run[i]);
    ApartFrom(cfg, span, run, acts, 0, i, 0);
  }

  // ----- one fetch per window, and per time to live -----

  function Windows(cfg: Config): Span {
    outcome => Window(cfg.ttl, outcome)
  }

  function TimeToLive(cfg: Config): Span {
    outcome => cfg.ttl
  }

  /** Fetches lie a window apart: the time to live, or two seconds after a failure if that is less. */
  ghost predicate OnePerWindow(cfg: Config, s: State) {
    AreApart(Windows(cfg), s)
  }

  /** Fetches lie the whole time to live apart. */
  ghost predicate OnePerTtl(cfg: Config, s: State) {
    AreApart(TimeToLive(cfg), s)
  }

  /** A call replaces an entry that it saw open on its first look and closed on its second, and that has not expired. */
  predicate StraddlesEarly(s: State, a: Action) {
    && a.Register? && a.c in s.calls && s.calls[a.c].place.Registering?
    && var place := s.calls[a.c].place;
    && place.straddled && place.prev.Some? && place.prev.value < |s.mem.cells|
    && s.clock < s.mem.cells[place.prev.value].expires
  }

  /** A call replaces the entry of a failed fetch before the time to live has passed since it was published. */
  predicate RefetchesFailure(cfg: Config, s: State, a: Action) {
    && a.Register? && a.c in s.calls && s.calls[a.c].place.Registering?
    && var place := s.calls[a.c].place;
    && place.prev.Some? && place.prev.value < |s.fetches| && s.fetches[place.prev.value].stage.Finished?
    && var stage := s.fetches[place.prev.value].stage;
    && stage.outcome.err.Some? && s.clock < stage.at + cfg.ttl
  }

  lemma {:induction false} EarlyForWindow(cfg: Config, s: State, a: Action)
    requires Inv(cfg, s) && Enabled(s, a)
    ensures ReplacesEarly(Windows(cfg), s, a) <==> StraddlesEarly(s, a)
  {
    if a.Register? {
      assert CallOk(cfg, s, a.c, s.calls[a.c]);
      var prev := s.calls[a.c].place.prev;
      if prev.Some? {
        assert EntryOk(cfg, s, prev.value);
        assert Replaces(s, a, prev.value);
      }
    }
  }

  lemma {:induction false} EarlyForTtl(cfg: Config, s: State, a: Action)
    requires Inv(cfg, s) && Enabled(s, a)
    ensures ReplacesEarly(TimeToLive(cfg), s, a) <==> StraddlesEarly(s, a) || RefetchesFailure(cfg, s, a)
  {
    if a.Register? {
      assert CallOk(cfg, s, a.c, s.calls[a.c]);
      var prev := s.calls[a.c].place.prev;
      if prev.Some? {
        assert EntryOk(cfg, s, prev.value);
        assert Replaces(s, a, prev.value);
      }
    }
  }

  ghost predicate NeverStraddlesEarly(run: seq<State>, acts: seq<Action>, i: nat, j: nat)
    requires i <= j <= |acts| && |run| == |acts| + 1
  {
    forall k {:trigger acts[k]} :: i <= k < j ==> !StraddlesEarly(run[k], acts[k])
  }

  ghost predicate NeverRefetchesFailure(cfg: Config, run: seq<State>, acts: seq<Action>, i: nat, j: nat)
    requires i <= j <= |acts| && |run| == |acts| + 1
  {
    forall k {:trigger acts[k]} :: i <= k < j ==> !RefetchesFailure(cfg, run[k], acts[k])
  }

  lemma {:induction false} NeverEarly(cfg: Config, run: seq<State>, acts: seq<Action>, i: nat, j: nat)
    requires cfg.Valid() && IsRun(cfg, run, acts) && i <= j <= |acts|
    ensures NeverReplacesEarly(Windows(cfg), run, acts, i, j) <==> NeverStraddlesEarly(run, acts, i, j)
    ensures NeverReplacesEarly(TimeToLive(cfg), run, acts, i, j) <==>
      NeverStraddlesEarly(run, acts, i, j) && NeverRefetchesFailure(cfg, run, acts, i, j)
  {
    forall k {:trigger acts[k]} | i <= k < j
      ensures ReplacesEarly(Windows(cfg), run[k], acts[k]) <==> StraddlesEarly(run[k], acts[k])
      ensures ReplacesEarly(TimeToLive(cfg), run[k], acts[k]) <==>
        StraddlesEarly(run[k], acts[k]) || RefetchesFailure(cfg, run[k], acts[k])
    {
      RunInv(cfg, run, acts, k);
      assert Step(cfg, run[k], acts[k], run[k + 1]);
      EarlyForWindow(cfg, run[k], acts[k]);
      EarlyForTtl(cfg, run[k], acts[k]);
    }
  }

  /**
   The windows hold at any point of a run exactly when no step so far replaced an entry that had not
   expired and whose close it had straddled.
   */
  lemma {:induction false} OnePerWindowIff(cfg: Config, run: seq<State>, acts: seq<Action>, i: nat)
    requires cfg.Valid() && IsRun(cfg, run, acts) && i <= |acts|
    ensures OnePerWindow(cfg, run[i]) <==> NeverStraddlesEarly(run, acts, 0, i)
  {
    ApartIff(cfg, Windows(cfg), run, acts, i);
    NeverEarly(cfg, run, acts, 0, i);
  }

  /** The whole time to live holds exactly when, besides, none replaced a failure before it had passed. */
  lemma {:induction false} OnePerTtlIff(cfg: Config, run: seq<State>, acts: seq<Action>, i: nat)
    requires cfg.Valid() && IsRun(cfg, run, acts) && i <= |acts|
    ensures OnePerTtl(cfg, run[i]) <==>
      NeverStraddlesEarly(run, acts, 0, i) && NeverRefetchesFailure(cfg, run, acts, 0, i)
  {
    ApartIff(cfg, TimeToLive(cfg), run, acts, i);
    NeverEarly(cfg, run, acts, 0, i);
  }

  /** The step registers a fetch of the market. */
  predicate Registers(s: State, a: Action, m: Market) {
    a.Register? && a.c in s.calls && s.calls[a.c].market == m
  }

  ghost predicate NotInvalidated(acts: seq<Action>, i: nat, j: nat, m: Market)
    requires i <= j <= |acts|
  {
    forall k :: i <= k < j && acts[k].Invalidate? ==> !Covers(acts[k].names, m)
  }

  lemma {:induction false} EpochStays(cfg: Config, run: seq<State>, acts: seq<Action>, i: nat, j: nat, m: Market)
    requires IsRun(cfg, run, acts) && i <= j < |run| && NotInvalidated(acts, i, j, m)
    ensures run[j].epochs(m) == run[i].epochs(m)
    decreases j
  {
    if i < j {
      EpochStays(cfg, run, acts, i, j - 1, m);
      assert Step(cfg, run[j - 1], acts[j - 1], run[j]);
    }
  }

  /** The step at which the goroutine of the entry wrote its fields. */
  ghost predicate PublishedAt(run: seq<State>, acts: seq<Action>, p: nat, e: Id, outcome: Outcome) {
    && p < |acts| && |run| == |acts| + 1 && acts[p] == Publish(e)
    && e < |run[p].fetches| && run[p].fetches[e].stage == Returned(outcome)
  }

  lemma {:induction false} PublishedWhen(
      cfg: Config, run: seq<State>, acts: seq<Action>, i: nat, e: Id)
    returns (p: nat)
    requires cfg.Valid() && IsRun(cfg, run, acts) && i < |run| && e < |run[i].fetches|
    requires run[i].fetches[e].stage.Published? || run[i].fetches[e].stage.Finished?
    ensures p < i && PublishedAt(run, acts, p, e, run[i].fetches[e].stage.outcome)
    ensures run[p].clock == run[i].fetches[e].stage.at
  {
    assert Step(cfg, run[i - 1], acts[i - 1], run[i]);
    if acts[i - 1] == Publish(e) {
      p := i - 1;
    } else {
      p := PublishedWhen(cfg, run, acts, i - 1, e);
    }
  }

  /** A registration adds one entry, and leaves the others alone. */
  lemma {:induction false} RegisteredAt(cfg: Config, run: seq<State>, acts: seq<Action>, i: nat, m: Market)
    requires cfg.Valid() && IsRun(cfg, run, acts) && i < |acts| && Registers(run[i], acts[i], m)
    ensures var e := |run[i].mem.cells|;
      && |run[i].fetches| == e && |run[i + 1].fetches| == e + 1 && run[i + 1].fetches[..e] == run[i].fetches
      && run[i + 1].fetches[e].market == m && run[i + 1].fetches[e].epoch == run[i].epochs(m)
      && run[i + 1].fetches[e].startedAt == run[i].clock
  {
    RunInv(cfg, run, acts, i);
    assert Step(cfg, run[i], acts[i], run[i + 1]);
  }

  /** Two fetches of a market without an invalidation of it or an early replacement between lie a span apart. */
  lemma {:induction false} FetchesLieApart(
      cfg: Config, span: Span, run: seq<State>, acts: seq<Action>, i: nat, j: nat, m: Market)
    returns (p: nat, outcome: Outcome)
    requires cfg.Valid() && IsSpan(span) && IsRun(cfg, run, acts) && i < j < |acts|
    requires Registers(run[i], acts[i], m) && Registers(run[j], acts[j], m) && NotInvalidated(acts, i, j, m)
    requires NeverReplacesEarly(span, run, acts, i + 1, j + 1)
    ensures i < p < j && PublishedAt(run, acts, p, |run[i].mem.cells|, outcome)
    ensures run[p].clock + span(outcome) <= run[j].clock
  {
    var d, e, s := |run[i].mem.cells|, |run[j].mem.cells|, run[j + 1];
    RegisteredAt(cfg, run, acts, i, m);
    RegisteredAt(cfg, run, acts, j, m);
    RunInv(cfg, run, acts, j + 1);
    EpochStays(cfg, run, acts, i, j, m);
    RunGrows(cfg, run, acts, i + 1, j);
    assert FetchGrows(run[i + 1].fetches[d], run[j].fetches[d]);
    ApartFrom(cfg, span, run, acts, i + 1, j + 1, d + 1);
    PairApart(cfg, span, s, d, e);
    p := PublishedWhen(cfg, run, acts, j, d);
    outcome := run[j].fetches[d].stage.outcome;
    PublishedLater(cfg, run, acts, i, p, d);
  }

  /**
   Of two fetches of a market without an invalidation of it or an early straddle between them, the
   second starts only when the time to live has passed since the first was published, or two seconds
   after a failure if that is less.
   */
  lemma {:induction false} OneFetchPerWindow(
      cfg: Config, run: seq<State>, acts: seq<Action>, i: nat, j: nat, m: Market)
    requires cfg.Valid() && IsRun(cfg, run, acts) && i < j < |acts|
    requires Registers(run[i], acts[i], m) && Registers(run[j], acts[j], m) && NotInvalidated(acts, i, j, m)
    requires NeverStraddlesEarly(run, acts, i + 1, j + 1)
    ensures exists p: nat, outcome :: (
      && i < p < j && PublishedAt(run, acts, p, |run[i].mem.cells|, outcome)
      && run[p].clock + Window(cfg.ttl, outcome) <= run[j].clock)
  {
    NeverEarly(cfg, run, acts, i + 1, j + 1);
    var p, outcome := FetchesLieApart(cfg, Windows(cfg), run, acts, i, j, m);
  }

  /** A pass that looks at the entry once would never straddle a close. */
  lemma {:induction false} SingleLookNeverStraddles(cfg: Config, run: seq<State>, acts: seq<Action>, i: nat)
    requires cfg.Valid() && !cfg.twoLooks && IsRun(cfg, run, acts) && i < |acts|
    ensures !StraddlesEarly(run[i], acts[i])
  {
    RunInv(cfg, run, acts, i);
    if acts[i].Register? && acts[i].c in run[i].calls {
      assert CallOk(cfg, run[i], acts[i].c, run[i].calls[acts[i].c]);
    }
  }

  lemma {:induction false} PublishedLater(cfg: Config, run: seq<State>, acts: seq<Action>, i: nat, p: nat, e: Id)
    requires cfg.Valid() && IsRun(cfg, run, acts) && i < |run| && p < |acts| && e == |run[i].mem.cells|
    requires acts[p] == Publish(e)
    ensures i < p
  {
    assert Step(cfg, run[p], acts[p], run[p + 1]);
    if p <= i {
      RunGrows(cfg, run, acts, p, i);
    }
  }

  // ----- two looks let a second fetch into a window -----

  function Page(m: Market): Outcome {
    Outcome(Board.Snapshot(m, "", 0, []), None)
  }

  /** A caller, its detached fetch and a second caller whose two looks straddle the close. */
  function Straddling(m: Market): (acts: seq<Action>)
    ensures |acts| == 11
  {
    [Begin(0, m), Acquire(0), Register(0), FetchReturns(0, Page(m)), Publish(0),
     Begin(1, m), Acquire(1), FirstLook(1), Close(0), SecondLook(1), Register(1)]
  }

  function FirstEntry(m: Market, at: Time, stage: Stage): Fetch {
    Fetch(m, WithoutCancel(Of(0)), 0, at, 0, None, false, stage)
  }

  lemma {:induction false} FirstCaller(cfg: Config, s: State, m: Market) returns (run: seq<State>)
    requires Initial(s)
    ensures |run| == 4 && run[0] == s
    ensures forall i :: 0 <= i < 3 ==> Step(cfg, run[i], Straddling(m)[i], run[i + 1])
    ensures run[3].clock == s.clock && run[3].lock == None && run[3].epochs == s.epochs && 1 !in run[3].calls
    ensures run[3].mem == Memory(map[m := 0], [Cell(false, UNSET, 0)])
    ensures run[3].fetches == [FirstEntry(m, s.clock, Running)]
  {
    var acts := Straddling(m);
    var s1 := Apply(cfg, s, acts[0]);
    var s2 := Apply(cfg, s1, acts[1]);
    var s3 := Apply(cfg, s2, acts[2]);
    run := [s, s1, s2, s3];
  }

  /** The first fetch, up to the point where its fields are written and its channel still open. */
  lemma {:induction false} FirstFetch(cfg: Config, s: State, m: Market) returns (run: seq<State>)
    requires Initial(s)
    ensures |run| == 6 && run[0] == s
    ensures forall i :: 0 <= i < 5 ==> Step(cfg, run[i], Straddling(m)[i], run[i + 1])
    ensures run[5].clock == s.clock && run[5].lock == None && run[5].epochs == s.epochs && 1 !in run[5].calls
    ensures run[5].mem == Memory(map[m := 0], [Cell(false, Page(m), s.clock + cfg.ttl)])
    ensures run[5].fetches == [FirstEntry(m, s.clock, Published(Page(m), s.clock))]
  {
    var acts := Straddling(m);
    var caller := FirstCaller(cfg, s, m);
    var s4 := Apply(cfg, caller[3], acts[3]);
    var s5 := Apply(cfg, s4, acts[4]);
    run := caller + [s4, s5];
  }

  /** The second caller looks while the channel is open, and then it is closed. */
  lemma {:induction false} SecondCaller(cfg: Config, s: State, m: Market) returns (run: seq<State>)
    requires 1 !in s.calls && s.lock == None
    requires s.mem == Memory(map[m := 0], [Cell(false, Page(m), s.clock + cfg.ttl)])
    requires s.fetches == [FirstEntry(m, s.clock, Published(Page(m), s.clock))]
    ensures |run| == 5 && run[0] == s
    ensures forall i :: 0 <= i < 4 ==> Step(cfg, run[i], Straddling(m)[5 + i], run[i + 1])
    ensures run[4].clock == s.clock && run[4].epochs == s.epochs && 1 in run[4].calls
    ensures run[4].calls[1] == Call(m, Missed(0, true), [], 1)
    ensures run[4].mem == Memory(map[m := 0], [Cell(true, Page(m), s.clock + cfg.ttl)])
    ensures run[4].fetches == [FirstEntry(m, s.clock, Finished(Page(m), s.clock))]
  {
    var acts := Straddling(m);
    var s1 := Apply(cfg, s, acts[5]);
    var s2 := Apply(cfg, s1, acts[6]);
    var s3 := Apply(cfg, s2, acts[7]);
    var s4 := Apply(cfg, s3, acts[8]);
    run := [s, s1, s2, s3, s4];
  }

  lemma {:induction false} SecondFetch(cfg: Config, s: State, m: Market) returns (run: seq<State>)
    requires cfg.twoLooks && 1 !in s.calls && s.lock == None
    requires s.mem == Memory(map[m := 0], [Cell(false, Page(m), s.clock + cfg.ttl)])
    requires s.fetches == [FirstEntry(m, s.clock, Published(Page(m), s.clock))]
    ensures |run| == 7 && run[0] == s
    ensures forall i :: 0 <= i < 6 ==> Step(cfg, run[i], Straddling(m)[5 + i], run[i + 1])
    ensures run[6].clock == s.clock
    ensures run[6].fetches == [FirstEntry(m, s.clock, Finished(Page(m), s.clock)), NewFetch(s, 1, m, Some(0), true)]
  {
    var acts := Straddling(m);
    var caller := SecondCaller(cfg, s, m);
    var s5 := Apply(cfg, caller[4], acts[9]);
    var s6 := Apply(cfg, s5, acts[10]);
    run := caller + [s5, s6];
  }

  /**
   Whatever the time to live, there is a run without invalidation whose second fetch starts as the first is
   published.
   */
  lemma {:induction false} TwoLooksBreakTheWindow(cfg: Config, s: State, m: Market)
    requires cfg.Valid() && cfg.twoLooks && Initial(s)
    ensures exists run: seq<State> :: (
      IsRun(cfg, run, Straddling(m)) && run[0] == s && run[11].clock == s.clock && !OnePerWindow(cfg, run[11]))
  {
    var first := FirstFetch(cfg, s, m);
    assert first[5].epochs(m) == 0;
    var second := SecondFetch(cfg, first[5], m);
    var run, acts := first[..5] + second, Straddling(m);
    forall i | 0 <= i < 11
      ensures Step(cfg, run[i], acts[i], run[i + 1])
    {
      if i < 5 { assert Step(cfg, first[i], acts[i], first[i + 1]); }
      else { assert Step(cfg, second[i - 5], acts[5 + (i - 5)], second[i - 5 + 1]); }
    }
    var fetches := run[11].fetches;
    assert SameTurn(fetches[0], fetches[1]) && !Passed(Windows(cfg), fetches[0], fetches[1]);
    assert IsRun(cfg, run, acts);
  }

  // ----- a failure is fetched again before the time to live has passed -----

  const FAILED := Outcome(UNSET.snap, Some(DeadlineExceeded))

  /** A fetch that fails, and a second caller two seconds later. */
  function Refetching(m: Market): (acts: seq<Action>)
    ensures |acts| == 12
  {
    [Begin(0, m), Acquire(0), Register(0), FetchReturns(0, FAILED), Publish(0), Close(0), Tick(FAILURE_TTL),
     Begin(1, m), Acquire(1), FirstLook(1), SecondLook(1), Register(1)]
  }

  lemma {:induction false} Fails(cfg: Config, s: State, m: Market, at: Time) returns (run: seq<State>)
    requires cfg.ttl > FAILURE_TTL && s.clock == at && s.lock == None
    requires s.mem == Memory(map[m := 0], [Cell(false, UNSET, 0)]) && s.fetches == [FirstEntry(m, at, Running)]
    ensures |run| == 3 && run[0] == s
    ensures forall i :: 0 <= i < 2 ==> Step(cfg, run[i], Refetching(m)[3 + i], run[i + 1])
    ensures run[2].clock == at && run[2].lock == None && run[2].epochs == s.epochs && run[2].calls == s.calls
    ensures run[2].mem == Memory(map[m := 0], [Cell(false, FAILED, at + FAILURE_TTL)])
    ensures run[2].fetches == [FirstEntry(m, at, Published(FAILED, at))]
  {
    var s1 := Apply(cfg, s, Refetching(m)[3]);
    var s2 := Apply(cfg, s1, Refetching(m)[4]);
    run := [s, s1, s2];
  }

  lemma {:induction false} Expires(cfg: Config, s: State, m: Market, at: Time) returns (run: seq<State>)
    requires s.clock == at && s.lock == None
    requires s.mem == Memory(map[m := 0], [Cell(false, FAILED, at + FAILURE_TTL)])
    requires s.fetches == [FirstEntry(m, at, Published(FAILED, at))]
    ensures |run| == 3 && run[0] == s
    ensures forall i :: 0 <= i < 2 ==> Step(cfg, run[i], Refetching(m)[5 + i], run[i + 1])
    ensures run[2].clock == at + FAILURE_TTL && run[2].lock == None && run[2].epochs == s.epochs
    ensures run[2].calls == s.calls
    ensures run[2].mem == Memory(map[m := 0], [Cell(true, FAILED, at + FAILURE_TTL)])
    ensures run[2].fetches == [FirstEntry(m, at, Finished(FAILED, at))]
  {
    var s1 := Apply(cfg, s, Refetching(m)[5]);
    var s2 := Apply(cfg, s1, Refetching(m)[6]);
    run := [s, s1, s2];
  }

  lemma {:induction false} FailedFetch(cfg: Config, s: State, m: Market) returns (run: seq<State>)
    requires Initial(s) && cfg.ttl > FAILURE_TTL
    ensures |run| == 8 && run[0] == s
    ensures forall i :: 0 <= i < 7 ==> Step(cfg, run[i], Refetching(m)[i], run[i + 1])
    ensures run[7].clock == s.clock + FAILURE_TTL && run[7].lock == None && run[7].epochs == s.epochs
    ensures 1 !in run[7].calls
    ensures run[7].mem == Memory(map[m := 0], [Cell(true, FAILED, s.clock + FAILURE_TTL)])
    ensures run[7].fetches == [FirstEntry(m, s.clock, Finished(FAILED, s.clock))]
  {
    var caller := FirstCaller(cfg, s, m);
    var failed := Fails(cfg, caller[3], m, s.clock);
    var expired := Expires(cfg, failed[2], m, s.clock);
    run := caller[..3] + failed[..2] + expired;
    forall i | 0 <= i < 7
      ensures Step(cfg, run[i], Refetching(m)[i], run[i + 1])
    {
      if i < 3 { assert Step(cfg, caller[i], Straddling(m)[i], caller[i + 1]); }
      else if i < 5 { assert Step(cfg, failed[i - 3], Refetching(m)[3 + (i - 3)], failed[i - 3 + 1]); }
      else { assert Step(cfg, expired[i - 5], Refetching(m)[5 + (i - 5)], expired[i - 5 + 1]); }
    }
  }

  lemma {:induction false} FetchedAgain(cfg: Config, s: State, m: Market, at: Time) returns (run: seq<State>)
    requires 1 !in s.calls && s.lock == None && s.clock == at + FAILURE_TTL
    requires s.mem == Memory(map[m := 0], [Cell(true, FAILED, at + FAILURE_TTL)])
    requires s.fetches == [FirstEntry(m, at, Finished(FAILED, at))]
    ensures |run| == 6 && run[0] == s
    ensures forall i :: 0 <= i < 5 ==> Step(cfg, run[i], Refetching(m)[7 + i], run[i + 1])
    ensures run[5].fetches == [FirstEntry(m, at, Finished(FAILED, at)), NewFetch(s, 1, m, Some(0), false)]
  {
    var acts := Refetching(m);
    var s1 := Apply(cfg, s, acts[7]);
    var s2 := Apply(cfg, s1, acts[8]);
    var s3 := Apply(cfg, s2, acts[9]);
    var s4 := Apply(cfg, s3, acts[10]);
    var s5 := Apply(cfg, s4, acts[11]);
    run := [s, s1, s2, s3, s4, s5];
  }

  /** With a time to live above two seconds, a run without invalidation or straddle fetches twice within it. */
  lemma {:induction false} FailuresBreakTheTtl(cfg: Config, s: State, m: Market)
    requires cfg.Valid() && cfg.ttl > FAILURE_TTL && Initial(s)
    ensures exists run: seq<State> :: (
      && IsRun(cfg, run, Refetching(m)) && run[0] == s
      && OnePerWindow(cfg, run[12]) && !OnePerTtl(cfg, run[12]))
  {
    var first := FailedFetch(cfg, s, m);
    assert first[7].epochs(m) == 0;
    var second := FetchedAgain(cfg, first[7], m, s.clock);
    var run, acts := first[..7] + second, Refetching(m);
    forall i | 0 <= i < 12
      ensures Step(cfg, run[i], acts[i], run[i + 1])
    {
      if i < 7 { assert Step(cfg, first[i], acts[i], first[i + 1]); }
      else { assert Step(cfg, second[i - 7], acts[7 + (i - 7)], second[i - 7 + 1]); }
    }
    var fetches := run[12].fetches;
    assert SameTurn(fetches[0], fetches[1]) && !Passed(TimeToLive(cfg), fetches[0], fetches[1]);
    assert Passed(Windows(cfg), fetches[0], fetches[1]);
    assert IsRun(cfg, run, acts);
  }

  // ----- what an invalidation stops -----

  /** The entry a call will answer from, or has answered from, whatever happens next. */
  function ResultOf(place: Place): Option<Id> {
    match place
    case Leading(e) => Some(e)
    case Hit(e, _) => Some(e)
    case Answered(Cached(e, _, _)) => Some(e)
    case Answered(Fresh(e, _)) => Some(e)
    case _ => None
  }

  /** Once it has a result, a call takes the lock no more, and keeps the result unless it gives up. */
  lemma {:induction false} ResultStays(cfg: Config, run: seq<State>, acts: seq<Action>, i: nat, j: nat, c: Caller)
    requires IsRun(cfg, run, acts) && i <= j < |run| && c in run[i].calls
    requires ResultOf(run[i].calls[c].place).Some? || run[i].calls[c].place.Answered?
    ensures c in run[j].calls && run[j].calls[c].passes == run[i].calls[c].passes
    ensures var before, after := run[i].calls[c].place, run[j].calls[c].place;
      || after == Answered(GaveUp)
      || (ResultOf(after) == ResultOf(before) && (after.Hit? || after.Leading? || after.Answered?))
    decreases j
  {
    if i < j {
      ResultStays(cfg, run, acts, i, j - 1, c);
      assert Step(cfg, run[j - 1], acts[j - 1], run[j]);
    }
  }

  /** What the table and a call have of the market dates from the k-th entry or later. */
  predicate SlotFrom(s: State, m: Market, k: nat) {
    m in s.mem.slots ==> s.mem.slots[m] >= k
  }

  predicate PlaceFrom(place: Place, k: nat) {
    (place.Locked? || place.Missed? ==> place.e >= k)
    && (ResultOf(place).Some? ==> ResultOf(place).value >= k)
  }

  lemma {:induction false} StepFrom(cfg: Config, s: State, a: Action, t: State, m: Market, k: nat, c: Caller)
    requires Step(cfg, s, a, t) && SlotFrom(s, m, k) && k <= |s.mem.cells|
    ensures SlotFrom(t, m, k) && k <= |t.mem.cells|
    ensures c in t.calls && t.calls[c].market == m && (c in s.calls ==> PlaceFrom(s.calls[c].place, k)) ==>
      (c in s.calls ==> s.calls[c].market == m) && PlaceFrom(t.calls[c].place, k)
  {
  }

  lemma {:induction false} RunFrom(
      cfg: Config, run: seq<State>, acts: seq<Action>, i: nat, j: nat, m: Market, k: nat, c: Caller)
    requires IsRun(cfg, run, acts) && i <= j < |run|
    requires SlotFrom(run[i], m, k) && k <= |run[i].mem.cells|
    requires c in run[i].calls ==> PlaceFrom(run[i].calls[c].place, k)
    requires c in run[j].calls && run[j].calls[c].market == m
    ensures SlotFrom(run[j], m, k) && k <= |run[j].mem.cells| && PlaceFrom(run[j].calls[c].place, k)
    decreases j
  {
    if i < j {
      assert Step(cfg, run[j - 1], acts[j - 1], run[j]);
      if c in run[j - 1].calls {
        RunFrom(cfg, run, acts, i, j - 1, m, k, c);
      } else {
        SlotsFrom(cfg, run, acts, i, j - 1, m, k);
      }
      StepFrom(cfg, run[j - 1], acts[j - 1], run[j], m, k, c);
    }
  }

  lemma {:induction false} SlotsFrom(cfg: Config, run: seq<State>, acts: seq<Action>, i: nat, j: nat, m: Market, k: nat)
    requires IsRun(cfg, run, acts) && i <= j < |run| && SlotFrom(run[i], m, k) && k <= |run[i].mem.cells|
    ensures SlotFrom(run[j], m, k) && k <= |run[j].mem.cells|
    decreases j
  {
    if i < j {
      assert Step(cfg, run[j - 1], acts[j - 1], run[j]);
      SlotsFrom(cfg, run, acts, i, j - 1, m, k);
      StepFrom(cfg, run[j - 1], acts[j - 1], run[j], m, k, 0);
    }
  }

  /**
   An invalidation that names no market empties the table, and one that names some leaves exactly the others in
   it. Entries, fetches and calls stay as they are.
   */
  lemma {:induction false} InvalidationDrops(cfg: Config, s: State, names: seq<Market>, t: State)
    requires Step(cfg, s, Invalidate(names), t)
    ensures names == [] ==> t.mem.slots == map[]
    ensures names != [] ==> t.mem.slots.Keys == set m | m in s.mem.slots && m !in names
    ensures forall m :: m in t.mem.slots ==> t.mem.slots[m] == s.mem.slots[m]
    ensures forall m :: t.epochs(m) == s.epochs(m) + (if names == [] || m in names then 1 else 0)
    ensures t == s.(mem := s.mem.(slots := t.mem.slots), epochs := t.epochs)
  {
    if names == [] { assert t.mem.slots.Keys == {}; }
  }

  /**
   A call that answers, after an invalidation of its market, from an entry registered before it, was
   by then committed to that entry: it had found it fresh, or it is the call that started the fetch.
   Calls that come later, that have not looked yet or that are waiting for an orphaned entry answer
   from entries registered after the invalidation.
   */
  lemma {:induction false} InvalidationBarrier(
      cfg: Config, run: seq<State>, acts: seq<Action>, i: nat, j: nat, c: Caller)
    requires cfg.Valid() && IsRun(cfg, run, acts) && i < j < |run| && c in run[j].calls
    requires acts[i].Invalidate? && (acts[i].names == [] || run[j].calls[c].market in acts[i].names)
    requires ResultOf(run[j].calls[c].place).Some?
    ensures var e := ResultOf(run[j].calls[c].place).value;
      e < |run[i].mem.cells| ==>
        && c in run[i].calls && ResultOf(run[i].calls[c].place) == Some(e)
        && (run[i].calls[c].place.Leading? ==> e < |run[i].fetches| && run[i].fetches[e].leader == c)
  {
    var k, m := |run[i].mem.cells|, run[j].calls[c].market;
    RunInv(cfg, run, acts, i);
    assert Step(cfg, run[i], acts[i], run[i + 1]);
    assert SlotFrom(run[i + 1], m, k);
    if c in run[i].calls {
      assert CallOk(cfg, run[i], c, run[i].calls[c]);
      if ResultOf(run[i].calls[c].place).Some? || run[i].calls[c].place.Answered? {
        ResultStays(cfg, run, acts, i, j, c);
      } else {
        RunFrom(cfg, run, acts, i + 1, j, m, k, c);
      }
    } else {
      RunFrom(cfg, run, acts, i + 1, j, m, k, c);
    }
  }

  // ----- freshness and provenance -----

  /** The look at the clock that made an answer a hit. */
  lemma {:induction false} HitWhen(cfg: Config, run: seq<State>, acts: seq<Action>, j: nat, c: Caller, e: Id, at: Time)
    returns (l: nat)
    requires cfg.Valid() && IsRun(cfg, run, acts) && j < |run| && c in run[j].calls
    requires var place := run[j].calls[c].place;
      place == Hit(e, at) || (place.Answered? && place.answer.Cached? && place.answer.e == e && place.answer.at == at)
    ensures l < j && acts[l] == FirstLook(c) && run[l].clock == at && IsClosed(run[l], e)
  {
    assert Step(cfg, run[j - 1], acts[j - 1], run[j]);
    if acts[j - 1] == FirstLook(c) {
      l := j - 1;
    } else {
      l := HitWhen(cfg, run, acts, j - 1, c, e, at);
    }
  }

  /** A closed entry holds what its goroutine published: an outcome that is no caller's cancellation, for its market. */
  lemma {:induction false} ClosedIsPublished(
      cfg: Config, run: seq<State>, acts: seq<Action>, i: nat, e: Id)
    returns (p: nat)
    requires cfg.Valid() && IsRun(cfg, run, acts) && i < |run| && IsClosed(run[i], e)
    ensures e < |run[i].fetches| && p < i && PublishedAt(run, acts, p, e, run[i].mem.cells[e].outcome)
    ensures run[i].mem.cells[e].expires == run[p].clock + Window(cfg.ttl, run[i].mem.cells[e].outcome)
    ensures Honest(run[i].fetches[e].market, run[i].mem.cells[e].outcome)
  {
    RunInv(cfg, run, acts, i);
    assert EntryOk(cfg, run[i], e);
    p := PublishedWhen(cfg, run, acts, i, e);
  }

  /** A fetch of the market, published at that step, returned the outcome. */
  ghost predicate FetchedAt(run: seq<State>, acts: seq<Action>, p: nat, e: Id, m: Market, outcome: Outcome) {
    PublishedAt(run, acts, p, e, outcome) && run[p].fetches[e].market == m && Honest(m, outcome)
  }

  lemma {:induction false} MarketStays(cfg: Config, run: seq<State>, acts: seq<Action>, i: nat, j: nat, e: Id)
    requires cfg.Valid() && IsRun(cfg, run, acts) && i <= j < |run| && e < |run[i].fetches|
    ensures e < |run[j].fetches| && run[j].fetches[e].market == run[i].fetches[e].market
    ensures run[j].fetches[e].leader == run[i].fetches[e].leader
  {
    RunGrows(cfg, run, acts, i, j);
    assert FetchGrows(run[i].fetches[e], run[j].fetches[e]);
  }

  /**
   An answer said to be cached was published by a fetch of the same market, and looked up later, less
   than the time to live after that, or less than two seconds after a failure if that is less.
   */
  lemma {:induction false} CachedAnswersAreFresh(cfg: Config, run: seq<State>, acts: seq<Action>, j: nat, c: Caller)
    requires cfg.Valid() && IsRun(cfg, run, acts) && j < |run| && c in run[j].calls
    requires run[j].calls[c].place.Answered? && run[j].calls[c].place.answer.Cached?
    ensures var answer := run[j].calls[c].place.answer;
      exists p: nat, l: nat :: (
        && p < l < j && acts[l] == FirstLook(c)
        && FetchedAt(run, acts, p, answer.e, run[j].calls[c].market, answer.outcome)
        && run[p].clock <= run[l].clock < run[p].clock + Window(cfg.ttl, answer.outcome))
  {
    var m, answer := run[j].calls[c].market, run[j].calls[c].place.answer;
    RunInv(cfg, run, acts, j);
    assert CallOk(cfg, run[j], c, run[j].calls[c]);
    var l := HitWhen(cfg, run, acts, j, c, answer.e, answer.at);
    var p := ClosedIsPublished(cfg, run, acts, l, answer.e);
    RunGrows(cfg, run, acts, l, j);
    assert CellGrows(run[l].mem.cells[answer.e], run[j].mem.cells[answer.e]);
    MarketStays(cfg, run, acts, p, l, answer.e);
    MarketStays(cfg, run, acts, l, j, answer.e);
    RunGrows(cfg, run, acts, p, l);
    assert FetchedAt(run, acts, p, answer.e, m, answer.outcome);
  }

  /** Any other answer is the outcome of the fetch the call itself started. */
  lemma {:induction false} FreshAnswersAreOwn(cfg: Config, run: seq<State>, acts: seq<Action>, j: nat, c: Caller)
    requires cfg.Valid() && IsRun(cfg, run, acts) && j < |run| && c in run[j].calls
    requires run[j].calls[c].place.Answered? && run[j].calls[c].place.answer.Fresh?
    ensures var answer := run[j].calls[c].place.answer;
      exists p: nat :: (
        && p < j && FetchedAt(run, acts, p, answer.e, run[j].calls[c].market, answer.outcome)
        && run[p].fetches[answer.e].leader == c)
  {
    var answer := run[j].calls[c].place.answer;
    RunInv(cfg, run, acts, j);
    assert CallOk(cfg, run[j], c, run[j].calls[c]);
    var p := ClosedIsPublished(cfg, run, acts, j, answer.e);
    MarketStays(cfg, run, acts, p, j, answer.e);
    assert FetchedAt(run, acts, p, answer.e, run[j].calls[c].market, answer.outcome);
  }

  /** The fields of an entry are set once, by its own goroutine and before its channel closes. */
  lemma {:induction false} FieldsAreWrittenOnce(cfg: Config, run: seq<State>, acts: seq<Action>, i: nat, e: Id)
    requires cfg.Valid() && IsRun(cfg, run, acts) && i < |acts| && e < |run[i].mem.cells|
    ensures e < |run[i + 1].mem.cells|
    ensures var before, after := run[i].mem.cells[e], run[i + 1].mem.cells[e];
      after.(closed := before.closed) != before ==>
        acts[i] == Publish(e) && before == Cell(false, UNSET, 0) && !after.closed
    ensures acts[i] == Publish(e) ==> forall j :: i < j < |acts| ==> acts[j] != Publish(e)
  {
    RunInv(cfg, run, acts, i);
    assert Step(cfg, run[i], acts[i], run[i + 1]) && EntryOk(cfg, run[i], e);
    if acts[i] == Publish(e) {
      forall j | i < j < |acts|
        ensures acts[j] != Publish(e)
      {
        RunGrows(cfg, run, acts, i + 1, j);
        assert FetchGrows(run[i + 1].fetches[e], run[j].fetches[e]);
        assert Step(cfg, run[j], acts[j], run[j + 1]);
      }
    }
  }

  // ----- walking away -----

  lemma {:induction false} CancelledWhen(cfg: Config, run: seq<State>, acts: seq<Action>, i: nat, c: Caller)
    requires IsRun(cfg, run, acts) && i < |run|
    ensures c in run[i].cancelled <==> Cancel(c) in acts[..i]
  {
    if i > 0 {
      CancelledWhen(cfg, run, acts, i - 1, c);
      assert Step(cfg, run[i - 1], acts[i - 1], run[i]);
      assert acts[..i] == acts[..i - 1] + [acts[i - 1]];
    }
  }

  /** A call goes without an answer only after its own caller has cancelled. */
  lemma {:induction false} OnlyTheCancelledGiveUp(cfg: Config, run: seq<State>, acts: seq<Action>, i: nat, c: Caller)
    requires IsRun(cfg, run, acts) && i < |run| && c in run[i].calls && run[i].calls[c].place == Answered(GaveUp)
    ensures Cancel(c) in acts[..i]
  {
    assert Step(cfg, run[i - 1], acts[i - 1], run[i]);
    assert acts[..i] == acts[..i - 1] + [acts[i - 1]];
    if acts[i - 1] == GiveUp(c) {
      CancelledWhen(cfg, run, acts, i - 1, c);
    } else {
      OnlyTheCancelledGiveUp(cfg, run, acts, i - 1, c);
    }
  }

  /** A cancelled call that waits need not wait, and its leaving changes nothing for anyone else. */
  lemma {:induction false} CancelledMayLeave(cfg: Config, run: seq<State>, acts: seq<Action>, i: nat, c: Caller)
    requires IsRun(cfg, run, acts) && i < |run| && c in run[i].calls && Cancel(c) in acts[..i]
    requires run[i].calls[c].place.Waiting? || run[i].calls[c].place.Leading?
    ensures Enabled(run[i], GiveUp(c))
    ensures var s, t := run[i], Apply(cfg, run[i], GiveUp(c));
      t == s.(calls := t.calls) && t.calls == s.calls[c := s.calls[c].(place := Answered(GaveUp))]
  {
    CancelledWhen(cfg, run, acts, i, c);
  }

  // ----- termination -----

  /** The entries ever registered for a market. */
  function EntriesOf(s: State, m: Market): set<Id> {
    set e: Id | e < |s.fetches| && s.fetches[e].market == m
  }

  lemma {:induction false} DistinctFit(waited: seq<Id>, ids: set<Id>)
    requires forall i :: 0 <= i < |waited| ==> waited[i] in ids
    requires forall i, j :: 0 <= i < j < |waited| ==> waited[i] != waited[j]
    ensures |waited| <= |ids|
  {
    if waited != [] {
      var n := |waited| - 1;
      DistinctFit(waited[..n], ids - {waited[n]});
    }
  }

  /** A call waits for an entry at most once, so it takes the lock at most once more than there are entries. */
  lemma {:induction false} WaitersTerminate(cfg: Config, run: seq<State>, acts: seq<Action>, i: nat, c: Caller)
    requires cfg.Valid() && IsRun(cfg, run, acts) && i < |run| && c in run[i].calls
    ensures var call := run[i].calls[c];
      && (forall k, l :: 0 <= k < l < |call.waited| ==> call.waited[k] != call.waited[l])
      && (call.place.Waiting? ==> call.place.e !in call.waited)
      && |call.waited| <= |EntriesOf(run[i], call.market)|
      && call.passes <= |EntriesOf(run[i], call.market)| + 1
  {
    var s, call := run[i], run[i].calls[c];
    RunInv(cfg, run, acts, i);
    assert CallOk(cfg, s, c, call);
    forall k | 0 <= k < |call.waited|
      ensures call.waited[k] in EntriesOf(s, call.market)
    {
      assert Belongs(s, call.waited[k], call.market);
    }
    DistinctFit(call.waited, EntriesOf(s, call.market));
  }

  /** The steps that are the call's own. */
  function OwnSteps(acts: seq<Action>, c: Caller): nat {
    if acts == [] then 0
    else OwnSteps(acts[..|acts| - 1], c) + (if Actor(acts[|acts| - 1]) == Some(c) then 1 else 0)
  }

  /** How far into a pass a place is at most. */
  function Depth(place: Place): nat {
    match place
    case Start => 0
    case Locked(_) => 1
    case Missed(_, _) => 2
    case Registering(_, _) => 3
    case Waiting(_) => 3
    case Leading(_) => 4
    case Hit(_, _) => 2
    case Answered(_) => 5
  }

  lemma {:induction false} StepsByPass(cfg: Config, run: seq<State>, acts: seq<Action>, i: nat, c: Caller)
    requires IsRun(cfg, run, acts) && i < |run|
    ensures OwnSteps(acts[..i], c) <=
      if c in run[i].calls then 1 + 4 * |run[i].calls[c].waited| + Depth(run[i].calls[c].place) else 0
  {
    if i > 0 {
      StepsByPass(cfg, run, acts, i - 1, c);
      assert Step(cfg, run[i - 1], acts[i - 1], run[i]);
      assert acts[..i][..i - 1] == acts[..i - 1];
    }
  }

  /**
   With k entries registered for its market, a call has taken at most 4k + 6 steps of its own, whatever the
   others do.
   */
  lemma {:induction false} CallsTakeFewSteps(cfg: Config, run: seq<State>, acts: seq<Action>, i: nat, c: Caller)
    requires cfg.Valid() && IsRun(cfg, run, acts) && i < |run| && c in run[i].calls
    ensures OwnSteps(acts[..i], c) <= 4 * |EntriesOf(run[i], run[i].calls[c].market)| + 6
  {
    StepsByPass(cfg, run, acts, i, c);
    WaitersTerminate(cfg, run, acts, i, c);
  }

  /** A step a goroutine of the cache takes of its own accord. */
  predicate IsProgress(a: Action) {
    !a.Begin? && !a.Cancel? && !a.Invalidate? && !a.Tick?
  }

  lemma {:induction false} EntryAdvances(cfg: Config, s: State, e: Id)
    requires Inv(cfg, s) && s.lock == None && e < |s.fetches| && !IsClosed(s, e)
    ensures exists a :: IsProgress(a) && Enabled(s, a)
  {
    assert EntryOk(cfg, s, e);
    var timeout := FetchReturns(e, Outcome(UNSET.snap, Some(DeadlineExceeded)));
    var a := match s.fetches[e].stage
      case Running => timeout
      case Returned(_) => Publish(e)
      case Published(_, _) => Close(e)
      case Finished(_, _) => timeout;
    assert IsProgress(a) && Enabled(s, a);
  }

  /** While any call is unanswered, some goroutine can take a step: nobody waits for a lock or a channel in vain. */
  lemma {:induction false} NoDeadlock(cfg: Config, run: seq<State>, acts: seq<Action>, i: nat, c: Caller)
    requires cfg.Valid() && IsRun(cfg, run, acts) && i < |run|
    requires c in run[i].calls && !run[i].calls[c].place.Answered?
    ensures exists a :: IsProgress(a) && Enabled(run[i], a)
  {
    var s := run[i];
    RunInv(cfg, run, acts, i);
    var b := if s.lock.Some? then s.lock.value else c;
    assert CallOk(cfg, s, b, s.calls[b]) && CallOk(cfg, s, c, s.calls[c]);
    match s.calls[b].place
    case Start => assert IsProgress(Acquire(b)) && Enabled(s, Acquire(b));
    case Locked(_) => assert IsProgress(FirstLook(b)) && Enabled(s, FirstLook(b));
    case Missed(_, _) => assert IsProgress(SecondLook(b)) && Enabled(s, SecondLook(b));
    case Registering(_, _) => assert IsProgress(Register(b)) && Enabled(s, Register(b));
    case Hit(_, _) => assert IsProgress(ReadHit(b)) && Enabled(s, ReadHit(b));
    case Waiting(e) =>
      if IsClosed(s, e) {
        assert IsProgress(Wake(b)) && Enabled(s, Wake(b));
      } else {
        EntryAdvances(cfg, s, e);
      }
    case Leading(e) =>
      if IsClosed(s, e) {
        assert IsProgress(ReadFresh(b)) && Enabled(s, ReadFresh(b));
      } else {
        EntryAdvances(cfg, s, e);
      }
    case Answered(_) => assert false;
  }
}
