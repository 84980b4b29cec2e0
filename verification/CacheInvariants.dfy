/** What every step of the cache protocol keeps. */
module CacheInvariants {
  import opened Wrappers
  import opened CacheProtocol

  // ----- what only ever grows -----

  predicate CellGrows(a: Cell, b: Cell) {
    a.closed ==> b == a
  }

  predicate StageGrows(a: Stage, b: Stage) {
    match a
    case Running => true
    case Returned(outcome) => !b.Running? && b.outcome == outcome
    case Published(outcome, at) => (b.Published? || b.Finished?) && b.outcome == outcome && b.at == at
    case Finished(_, _) => b == a
  }

  predicate FetchGrows(a: Fetch, b: Fetch) {
    b == a.(stage := b.stage) && StageGrows(a.stage, b.stage)
  }

  ghost predicate EntriesGrow(s: State, t: State) {
    && |s.mem.cells| <= |t.mem.cells| && |s.fetches| <= |t.fetches|
    && (forall e :: 0 <= e < |s.mem.cells| ==> CellGrows(s.mem.cells[e], t.mem.cells[e]))
    && (forall e :: 0 <= e < |s.fetches| ==> FetchGrows(s.fetches[e], t.fetches[e]))
  }

  /** Entries are never removed, closed ones never change, and neither do the origins of the others. */
  ghost predicate Grows(s: State, t: State) {
    && s.clock <= t.clock
    && (forall m :: s.epochs(m) <= t.epochs(m))
    && EntriesGrow(s, t)
  }

  /** What a step of anyone else leaves to a call. */
  ghost predicate Rely(s: State, t: State, c: Caller) {
    && Grows(s, t)
    && (c in s.calls ==> c in t.calls && t.calls[c] == s.calls[c])
    && (s.lock == Some(c) <==> t.lock == Some(c))
    && (s.lock == Some(c) ==> t.mem.slots == s.mem.slots)
  }

  // ----- the invariant of an entry -----

  /** No cancellation of a caller, and a snapshot of the market asked for. */
  predicate Honest(market: Market, outcome: Outcome) {
    && outcome.err != Some(Canceled)
    && (outcome.err == None ==> outcome.snap.market == market)
  }

  /** The fields of an entry are those its goroutine wrote, and its channel is closed once the goroutine is done. */
  predicate CellOk(ttl: Time, cell: Cell, f: Fetch, clock: Time) {
    && f.ctx == WithoutCancel(Of(f.leader))
    && f.startedAt <= clock
    && (cell.closed <==> f.stage.Finished?)
    && (!f.stage.Running? ==> Honest(f.market, f.stage.outcome))
    && (f.stage.Running? || f.stage.Returned? ==> cell == Cell(false, UNSET, 0))
    && (f.stage.Published? || f.stage.Finished? ==>
         && cell.outcome == f.stage.outcome
         && cell.expires == f.stage.at + Window(ttl, f.stage.outcome)
         && f.startedAt <= f.stage.at <= clock)
  }

  /**
   Unless its market was invalidated since, an entry is the one in the table, or closed and replaced by a
   later one.
   */
  predicate Current(s: State, e: Id)
    requires e < |s.mem.cells| && e < |s.fetches|
  {
    var f := s.fetches[e];
    && f.epoch <= s.epochs(f.market)
    && (f.epoch == s.epochs(f.market) ==>
         f.market in s.mem.slots && e <= s.mem.slots[f.market] && (e < s.mem.slots[f.market] ==> IsClosed(s, e)))
  }

  predicate SameTurn(f: Fetch, g: Fetch) {
    f.market == g.market && f.epoch == g.epoch
  }

  /** An entry replaces the last one before it, and unless it straddled the close, one that had expired. */
  ghost predicate Succeeds(cfg: Config, s: State, e: Id)
    requires e < |s.mem.cells| && e < |s.fetches|
  {
    var f := s.fetches[e];
    && (f.prev.Some? ==>
         var p := f.prev.value;
         && p < e && SameTurn(s.fetches[p], f) && IsClosed(s, p)
         && (!f.straddled ==> s.mem.cells[p].expires <= f.startedAt)
         && (f.straddled ==> cfg.twoLooks))
    && (forall d :: 0 <= d < e && SameTurn(s.fetches[d], f) ==> f.prev.Some? && d <= f.prev.value)
  }

  ghost predicate EntryOk(cfg: Config, s: State, e: Id)
    requires e < |s.mem.cells| && e < |s.fetches|
  {
    && CellOk(cfg.ttl, s.mem.cells[e], s.fetches[e], s.clock)
    && Current(s, e)
    && Succeeds(cfg, s, e)
  }

  predicate SlotOk(s: State, m: Market) {
    m in s.mem.slots ==>
      var e := s.mem.slots[m];
      e < |s.fetches| && s.fetches[e].market == m && s.fetches[e].epoch == s.epochs(m)
  }

  // ----- the invariant of a call -----

  /** The entry was registered for this market. */
  predicate Belongs(s: State, e: Id, m: Market) {
    e < |s.mem.cells| && e < |s.fetches| && s.fetches[e].market == m
  }

  predicate InSlot(s: State, e: Id, m: Market) {
    m in s.mem.slots && s.mem.slots[m] == e && Belongs(s, e, m)
  }

  predicate Expired(s: State, e: Id) {
    IsClosed(s, e) && s.mem.cells[e].expires <= s.clock
  }

  /** A hit was published before it was looked up, and had not expired. */
  predicate HitOk(s: State, m: Market, e: Id, at: Time) {
    && Belongs(s, e, m) && IsClosed(s, e) && s.fetches[e].stage.Finished?
    && s.fetches[e].stage.at <= at < s.mem.cells[e].expires && at <= s.clock
  }

  predicate AnswerOk(s: State, c: Caller, m: Market, answer: Answer) {
    match answer
    case Cached(e, at, outcome) => HitOk(s, m, e, at) && outcome == s.mem.cells[e].outcome
    case Fresh(e, outcome) =>
      Belongs(s, e, m) && IsClosed(s, e) && s.fetches[e].leader == c && outcome == s.mem.cells[e].outcome
    case GaveUp => true
  }

  predicate PlaceOk(cfg: Config, s: State, c: Caller, call: Call) {
    match call.place
    case Start => true
    case Locked(e) => InSlot(s, e, call.market)
    case Missed(e, open) =>
      InSlot(s, e, call.market) && (if open then e !in call.waited else Expired(s, e))
    case Registering(prev, straddled) =>
      (match prev
       case None => call.market !in s.mem.slots && !straddled
       case Some(p) =>
         InSlot(s, p, call.market) && IsClosed(s, p) && (if straddled then cfg.twoLooks else Expired(s, p)))
    case Waiting(e) => Belongs(s, e, call.market) && e !in call.waited
    case Leading(e) => Belongs(s, e, call.market) && s.fetches[e].leader == c
    case Hit(e, at) => HitOk(s, call.market, e, at)
    case Answered(answer) => AnswerOk(s, c, call.market, answer)
  }

  predicate Holds(place: Place) {
    place.Locked? || place.Missed? || place.Registering?
  }

  /** The entries waited for are closed, of the market, and all different. */
  predicate WaitedOk(s: State, m: Market, waited: seq<Id>) {
    && (forall i :: 0 <= i < |waited| ==> Belongs(s, waited[i], m) && IsClosed(s, waited[i]))
    && (forall i, j :: 0 <= i < j < |waited| ==> waited[i] != waited[j])
  }

  ghost predicate CallOk(cfg: Config, s: State, c: Caller, call: Call) {
    && (s.lock == Some(c) <==> Holds(call.place))
    && PlaceOk(cfg, s, c, call)
    && WaitedOk(s, call.market, call.waited)
    && call.passes == |call.waited| + (if call.place.Start? then 0 else 1)
  }

  ghost predicate Entries(cfg: Config, s: State) {
    && |s.mem.cells| == |s.fetches|
    && (forall e :: 0 <= e < |s.fetches| ==> EntryOk(cfg, s, e))
    && (forall m :: SlotOk(s, m))
  }

  ghost predicate Calls(cfg: Config, s: State) {
    && (forall c :: c in s.calls ==> CallOk(cfg, s, c, s.calls[c]))
    && (s.lock.Some? ==> s.lock.value in s.calls)
  }

  ghost predicate Inv(cfg: Config, s: State) {
    cfg.Valid() && Entries(cfg, s) && Calls(cfg, s)
  }

  // ----- a call is left alone by the steps of others -----

  lemma {:induction false} HitStays(s: State, t: State, m: Market, e: Id, at: Time)
    requires Grows(s, t) && HitOk(s, m, e, at)
    ensures HitOk(t, m, e, at) && t.mem.cells[e] == s.mem.cells[e]
  {
    assert CellGrows(s.mem.cells[e], t.mem.cells[e]) && FetchGrows(s.fetches[e], t.fetches[e]);
  }

  lemma {:induction false} ClosedStays(s: State, t: State, e: Id)
    requires Grows(s, t) && IsClosed(s, e)
    ensures IsClosed(t, e) && t.mem.cells[e] == s.mem.cells[e]
  {
    assert CellGrows(s.mem.cells[e], t.mem.cells[e]);
  }

  lemma {:induction false} BelongsStays(s: State, t: State, e: Id, m: Market)
    requires Grows(s, t) && Belongs(s, e, m)
    ensures Belongs(t, e, m) && t.fetches[e].leader == s.fetches[e].leader
  {
    assert FetchGrows(s.fetches[e], t.fetches[e]);
  }

  lemma {:induction false} WaitedStays(s: State, t: State, m: Market, waited: seq<Id>)
    requires Grows(s, t) && WaitedOk(s, m, waited)
    ensures WaitedOk(t, m, waited)
  {
    forall i | 0 <= i < |waited|
      ensures Belongs(t, waited[i], m) && IsClosed(t, waited[i])
    {
      ClosedStays(s, t, waited[i]);
      BelongsStays(s, t, waited[i], m);
    }
  }

  lemma {:induction false} AnswerStays(s: State, t: State, c: Caller, m: Market, answer: Answer)
    requires Grows(s, t) && AnswerOk(s, c, m, answer)
    ensures AnswerOk(t, c, m, answer)
  {
    match answer
    case Cached(e, at, _) => HitStays(s, t, m, e, at);
    case Fresh(e, _) =>
      ClosedStays(s, t, e);
      BelongsStays(s, t, e, m);
    case GaveUp =>
  }

  lemma {:induction false} HolderStays(cfg: Config, s: State, t: State, c: Caller, call: Call)
    requires Grows(s, t) && t.mem.slots == s.mem.slots
    requires Holds(call.place) && PlaceOk(cfg, s, c, call)
    ensures PlaceOk(cfg, t, c, call)
  {
    match call.place
    case Locked(e) => BelongsStays(s, t, e, call.market);
    case Missed(e, open) =>
      BelongsStays(s, t, e, call.market);
      if !open { ClosedStays(s, t, e); }
    case Registering(prev, _) =>
      if prev.Some? {
        BelongsStays(s, t, prev.value, call.market);
        ClosedStays(s, t, prev.value);
      }
  }

  lemma {:induction false} PlaceStays(cfg: Config, s: State, t: State, c: Caller, call: Call)
    requires Rely(s, t, c) && (s.lock == Some(c) <==> Holds(call.place)) && PlaceOk(cfg, s, c, call)
    ensures PlaceOk(cfg, t, c, call)
  {
    if Holds(call.place) {
      HolderStays(cfg, s, t, c, call);
    } else {
      match call.place
      case Start =>
      case Waiting(e) => BelongsStays(s, t, e, call.market);
      case Leading(e) => BelongsStays(s, t, e, call.market);
      case Hit(e, at) => HitStays(s, t, call.market, e, at);
      case Answered(answer) => AnswerStays(s, t, c, call.market, answer);
    }
  }

  lemma {:induction false} CallStays(cfg: Config, s: State, t: State, c: Caller, call: Call)
    requires Rely(s, t, c) && CallOk(cfg, s, c, call)
    ensures CallOk(cfg, t, c, call)
  {
    PlaceStays(cfg, s, t, c, call);
    WaitedStays(s, t, call.market, call.waited);
  }

  // ----- every step only adds -----

  lemma {:induction false} StagedGrows(s: State, t: State, e: Id, stage: Stage, cell: Cell)
    requires e < |s.fetches| && e < |s.mem.cells|
    requires StageGrows(s.fetches[e].stage, stage) && CellGrows(s.mem.cells[e], cell)
    requires t.fetches == s.fetches[e := s.fetches[e].(stage := stage)] && t.mem.cells == s.mem.cells[e := cell]
    ensures EntriesGrow(s, t)
  {
  }

  lemma {:induction false} StepGrows(cfg: Config, s: State, a: Action, t: State)
    requires Inv(cfg, s) && Step(cfg, s, a, t)
    ensures Grows(s, t)
  {
    if a.FetchReturns? || a.Publish? || a.Close? {
      StageStepGrows(cfg, s, a, t);
    }
  }

  lemma {:induction false} StageStepGrows(cfg: Config, s: State, a: Action, t: State)
    requires Inv(cfg, s) && Step(cfg, s, a, t) && (a.FetchReturns? || a.Publish? || a.Close?)
    ensures EntriesGrow(s, t)
  {
    var e := a.e;
    assert EntryOk(cfg, s, e);
    if a.FetchReturns? { assert s.mem.cells == s.mem.cells[e := s.mem.cells[e]]; }
    StagedGrows(s, t, e, t.fetches[e].stage, t.mem.cells[e]);
  }

  /** The call whose step it is. */
  function Actor(a: Action): Option<Caller> {
    match a
    case Begin(c, _) => Some(c)
    case Acquire(c) => Some(c)
    case FirstLook(c) => Some(c)
    case SecondLook(c) => Some(c)
    case Register(c) => Some(c)
    case Wake(c) => Some(c)
    case ReadHit(c) => Some(c)
    case ReadFresh(c) => Some(c)
    case GiveUp(c) => Some(c)
    case _ => None
  }

  lemma {:induction false} StepRely(cfg: Config, s: State, a: Action, t: State, c: Caller)
    requires Inv(cfg, s) && Step(cfg, s, a, t) && Actor(a) != Some(c)
    ensures Rely(s, t, c)
  {
    StepGrows(cfg, s, a, t);
    if Actor(a).Some? && Actor(a).value in s.calls {
      assert CallOk(cfg, s, Actor(a).value, s.calls[Actor(a).value]);
    }
  }

  // ----- the entries after a step -----

  /** Entries stay as they are while nobody touches them, however late it gets. */
  lemma {:induction false} EntriesStay(cfg: Config, s: State, t: State)
    requires Entries(cfg, s)
    requires t.mem == s.mem && t.fetches == s.fetches && t.epochs == s.epochs && s.clock <= t.clock
    ensures Entries(cfg, t)
  {
    forall e | 0 <= e < |t.fetches|
      ensures EntryOk(cfg, t, e)
    {
      assert EntryOk(cfg, s, e);
    }
    forall m
      ensures SlotOk(t, m)
    {
      assert SlotOk(s, m);
    }
  }

  /** Only the stage and the cell of one entry change, and they go on matching each other. */
  lemma {:induction false} EntriesStaged(cfg: Config, s: State, t: State, e: Id, stage: Stage, cell: Cell)
    requires Entries(cfg, s) && e < |s.fetches|
    requires s.clock == t.clock && s.epochs == t.epochs && t.mem.slots == s.mem.slots
    requires t.fetches == s.fetches[e := s.fetches[e].(stage := stage)] && t.mem.cells == s.mem.cells[e := cell]
    requires CellOk(cfg.ttl, cell, t.fetches[e], t.clock) && !s.mem.cells[e].closed
    ensures Entries(cfg, t)
  {
    forall d | 0 <= d < |t.fetches|
      ensures EntryOk(cfg, t, d)
    {
      assert EntryOk(cfg, s, d);
      assert Succeeds(cfg, t, d);
    }
    forall m
      ensures SlotOk(t, m)
    {
      assert SlotOk(s, m);
    }
  }

  lemma {:induction false} EntriesDropped(cfg: Config, s: State, t: State, names: seq<Market>)
    requires Entries(cfg, s) && t == AfterInvalidate(s, names)
    ensures Entries(cfg, t) && t.fetches == s.fetches && t.mem.cells == s.mem.cells
    ensures forall e :: 0 <= e < |s.fetches| && Covers(names, s.fetches[e].market) ==>
      s.fetches[e].market !in t.mem.slots && s.fetches[e].epoch < t.epochs(s.fetches[e].market)
  {
    forall e | 0 <= e < |t.fetches|
      ensures EntryOk(cfg, t, e)
      ensures Covers(names, s.fetches[e].market) ==> s.fetches[e].epoch < t.epochs(s.fetches[e].market)
    {
      assert EntryOk(cfg, s, e);
      assert Succeeds(cfg, t, e);
    }
    forall m
      ensures SlotOk(t, m)
    {
      assert SlotOk(s, m);
    }
  }

  lemma {:induction false} OldEntryAfterRegister(cfg: Config, s: State, t: State, c: Caller, e: Id)
    requires Inv(cfg, s) && Step(cfg, s, Register(c), t) && e < |s.fetches|
    ensures EntryOk(cfg, t, e)
  {
    assert EntryOk(cfg, s, e) && CallOk(cfg, s, c, s.calls[c]);
    assert CellOk(cfg.ttl, t.mem.cells[e], t.fetches[e], t.clock);
    assert Succeeds(cfg, t, e);
  }

  lemma {:induction false} NewEntryAfterRegister(cfg: Config, s: State, t: State, c: Caller)
    requires Inv(cfg, s) && Step(cfg, s, Register(c), t)
    ensures EntryOk(cfg, t, |s.fetches|)
  {
    var e, m, prev := |s.fetches|, s.calls[c].market, s.calls[c].place.prev;
    assert CallOk(cfg, s, c, s.calls[c]) && SlotOk(s, m);
    forall d | 0 <= d < e && SameTurn(t.fetches[d], t.fetches[e])
      ensures prev.Some? && d <= prev.value
    {
      assert EntryOk(cfg, s, d);
    }
    assert Succeeds(cfg, t, e);
  }

  lemma {:induction false} EntriesAfterRegister(cfg: Config, s: State, t: State, c: Caller)
    requires Inv(cfg, s) && Step(cfg, s, Register(c), t)
    ensures Entries(cfg, t)
  {
    forall e | 0 <= e < |t.fetches|
      ensures EntryOk(cfg, t, e)
    {
      if e < |s.fetches| { OldEntryAfterRegister(cfg, s, t, c, e); } else { NewEntryAfterRegister(cfg, s, t, c); }
    }
    forall m
      ensures SlotOk(t, m)
    {
      assert SlotOk(s, m);
    }
  }

  lemma {:induction false} EntriesAfterStage(cfg: Config, s: State, a: Action, t: State)
    requires Entries(cfg, s) && Step(cfg, s, a, t)
    requires a.FetchReturns? || a.Publish? || a.Close?
    ensures Entries(cfg, t)
  {
    var e := a.e;
    assert EntryOk(cfg, s, e);
    if a.FetchReturns? { assert s.mem.cells == s.mem.cells[e := s.mem.cells[e]]; }
    EntriesStaged(cfg, s, t, e, t.fetches[e].stage, t.mem.cells[e]);
  }

  lemma {:induction false} StepEntries(cfg: Config, s: State, a: Action, t: State)
    requires Inv(cfg, s) && Step(cfg, s, a, t)
    ensures Entries(cfg, t)
  {
    if a.FetchReturns? || a.Publish? || a.Close? {
      EntriesAfterStage(cfg, s, a, t);
    } else if a.Register? {
      EntriesAfterRegister(cfg, s, t, a.c);
    } else if a.Invalidate? {
      EntriesDropped(cfg, s, t, a.names);
    } else {
      EntriesStay(cfg, s, t);
    }
  }

  // ----- the calls after a step -----

  lemma {:induction false} OwnUnderLock(cfg: Config, s: State, a: Action, t: State, c: Caller)
    requires Inv(cfg, s) && Step(cfg, s, a, t) && Actor(a) == Some(c)
    requires a.Acquire? || a.FirstLook? || a.SecondLook?
    ensures CallOk(cfg, t, c, t.calls[c])
  {
    var m := s.calls[c].market;
    assert CallOk(cfg, s, c, s.calls[c]) && SlotOk(s, m);
    if a.FirstLook? { assert EntryOk(cfg, s, s.calls[c].place.e); }
  }

  lemma {:induction false} OwnAfterRegister(cfg: Config, s: State, t: State, c: Caller)
    requires Inv(cfg, s) && Step(cfg, s, Register(c), t)
    ensures CallOk(cfg, t, c, t.calls[c])
  {
    var call := s.calls[c];
    assert CallOk(cfg, s, c, call);
    StepGrows(cfg, s, Register(c), t);
    WaitedStays(s, t, call.market, call.waited);
  }

  lemma {:induction false} OwnAfterWake(cfg: Config, s: State, t: State, c: Caller)
    requires Inv(cfg, s) && Step(cfg, s, Wake(c), t)
    ensures CallOk(cfg, t, c, t.calls[c])
  {
    assert CallOk(cfg, s, c, s.calls[c]);
  }

  lemma {:induction false} OwnAnswer(cfg: Config, s: State, a: Action, t: State, c: Caller)
    requires Inv(cfg, s) && Step(cfg, s, a, t) && Actor(a) == Some(c)
    requires a.Begin? || a.ReadHit? || a.ReadFresh? || a.GiveUp?
    ensures CallOk(cfg, t, c, t.calls[c])
  {
    if c in s.calls { assert CallOk(cfg, s, c, s.calls[c]); }
  }

  lemma {:induction false} StepOwn(cfg: Config, s: State, a: Action, t: State, c: Caller)
    requires Inv(cfg, s) && Step(cfg, s, a, t) && Actor(a) == Some(c)
    ensures c in t.calls && CallOk(cfg, t, c, t.calls[c])
  {
    match a
    case Register(_) => OwnAfterRegister(cfg, s, t, c);
    case Wake(_) => OwnAfterWake(cfg, s, t, c);
    case Begin(_, _) => OwnAnswer(cfg, s, a, t, c);
    case ReadHit(_) => OwnAnswer(cfg, s, a, t, c);
    case ReadFresh(_) => OwnAnswer(cfg, s, a, t, c);
    case GiveUp(_) => OwnAnswer(cfg, s, a, t, c);
    case _ => OwnUnderLock(cfg, s, a, t, c);
  }

  lemma {:induction false} SameCallers(cfg: Config, s: State, a: Action, t: State)
    requires Step(cfg, s, a, t)
    ensures t.calls.Keys == s.calls.Keys + (if a.Begin? then {a.c} else {})
    ensures t.lock.Some? ==> t.lock == s.lock || (Actor(a) == t.lock && t.lock.value in t.calls)
  {
  }

  lemma {:induction false} StepCalls(cfg: Config, s: State, a: Action, t: State)
    requires Inv(cfg, s) && Step(cfg, s, a, t)
    ensures Calls(cfg, t)
  {
    SameCallers(cfg, s, a, t);
    forall c | c in t.calls
      ensures CallOk(cfg, t, c, t.calls[c])
    {
      if Actor(a) == Some(c) {
        StepOwn(cfg, s, a, t, c);
      } else {
        StepRely(cfg, s, a, t, c);
        CallStays(cfg, s, t, c, s.calls[c]);
      }
    }
  }

  /** Every step keeps the invariant. */
  lemma {:induction false} StepKeepsInv(cfg: Config, s: State, a: Action, t: State)
    requires Inv(cfg, s) && Step(cfg, s, a, t)
    ensures Inv(cfg, t)
  {
    StepEntries(cfg, s, a, t);
    StepCalls(cfg, s, a, t);
  }

  lemma {:induction false} InitialInv(cfg: Config, s: State)
    requires cfg.Valid() && Initial(s)
    ensures Inv(cfg, s)
  {
  }

  lemma {:induction false} RunInv(cfg: Config, run: seq<State>, acts: seq<Action>, i: nat)
    requires cfg.Valid() && IsRun(cfg, run, acts) && i < |run|
    ensures Inv(cfg, run[i])
  {
    if i == 0 {
      InitialInv(cfg, run[0]);
    } else {
      RunInv(cfg, run, acts, i - 1);
      StepKeepsInv(cfg, run[i - 1], acts[i - 1], run[i]);
    }
  }

  lemma {:induction false} GrowsTransitive(s: State, t: State, u: State)
    requires Grows(s, t) && Grows(t, u)
    ensures Grows(s, u)
  {
    forall e | 0 <= e < |s.mem.cells|
      ensures CellGrows(s.mem.cells[e], u.mem.cells[e])
    {
      assert CellGrows(s.mem.cells[e], t.mem.cells[e]) && CellGrows(t.mem.cells[e], u.mem.cells[e]);
    }
    forall e | 0 <= e < |s.fetches|
      ensures FetchGrows(s.fetches[e], u.fetches[e])
    {
      assert FetchGrows(s.fetches[e], t.fetches[e]) && FetchGrows(t.fetches[e], u.fetches[e]);
    }
  }

  lemma {:induction false} GrowsReflexive(s: State)
    ensures Grows(s, s)
  {
  }

  lemma {:induction false} GrowsOn(cfg: Config, s: State, t: State, a: Action, u: State)
    requires Grows(s, t) && Inv(cfg, t) && Step(cfg, t, a, u)
    ensures Grows(s, u)
  {
    StepGrows(cfg, t, a, u);
    GrowsTransitive(s, t, u);
  }

  lemma {:induction false} RunGrows(cfg: Config, run: seq<State>, acts: seq<Action>, i: nat, j: nat)
    requires cfg.Valid() && IsRun(cfg, run, acts) && i <= j < |run|
    ensures Grows(run[i], run[j])
    decreases j
  {
    if i == j {
      GrowsReflexive(run[i]);
    } else {
      RunGrows(cfg, run, acts, i, j - 1);
      RunInv(cfg, run, acts, j - 1);
      GrowsOn(cfg, run[i], run[j - 1], acts[j - 1], run[j]);
    }
  }
}
