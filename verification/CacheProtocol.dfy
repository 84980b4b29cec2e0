/**
 The snapshot cache as the protocol its goroutines run. Callers, detached fetches and invalidators
 share a table of entries under one mutex; a step below is what one of them does between two points
 where another may come in. Times are in nanoseconds, and the clock never goes back.
 */
module CacheProtocol {
  import opened Wrappers
  import Board

  type Market = Board.Market
  type Time = int

  /** A call of the cache. */
  type Caller = nat

  /** An entry, by the order in which it was registered. */
  type Id = nat

  /** How long a failed fetch is remembered at most: two seconds. */
  const FAILURE_TTL: Time := 2_000_000_000

  datatype Failure = Canceled | DeadlineExceeded | Upstream(message: string)

  /** What a fetch returns: a snapshot and an error. */
  datatype Outcome = Outcome(snap: Board.Snapshot, err: Option<Failure>)

  const UNSET := Outcome(Board.Snapshot("", "", 0, []), None)

  // ----- the memory the goroutines share -----

  /** An entry: whether its channel is closed, and its fields. */
  datatype Cell = Cell(closed: bool, outcome: Outcome, expires: Time)

  datatype Memory = Memory(slots: map<Market, Id>, cells: seq<Cell>)

  /** How long an outcome is remembered: the time to live, and a failure no longer than its own limit. */
  function Window(ttl: Time, outcome: Outcome): (window: Time)
    ensures window <= ttl && (outcome.err == None ==> window == ttl)
    ensures outcome.err.Some? ==> window <= 2_000_000_000 && (window == ttl || window == 2_000_000_000)
  {
    if outcome.err == None || ttl < FAILURE_TTL then ttl else FAILURE_TTL
  }

  function Slot(mem: Memory, m: Market): Option<Id> {
    if m in mem.slots then Some(mem.slots[m]) else None
  }

  function Added(mem: Memory, m: Market): Memory {
    Memory(mem.slots[m := |mem.cells|], mem.cells + [Cell(false, UNSET, 0)])
  }

  function Written(mem: Memory, e: Id, outcome: Outcome, expires: Time): Memory
    requires e < |mem.cells|
  {
    mem.(cells := mem.cells[e := mem.cells[e].(outcome := outcome, expires := expires)])
  }

  function Closed(mem: Memory, e: Id): Memory
    requires e < |mem.cells|
  {
    mem.(cells := mem.cells[e := mem.cells[e].(closed := true)])
  }

  /** An invalidation names markets, or drops them all. */
  predicate Covers(names: seq<Market>, m: Market) {
    names == [] || m in names
  }

  function Dropped(mem: Memory, names: seq<Market>): Memory {
    mem.(slots := map m | m in mem.slots && !Covers(names, m) :: mem.slots[m])
  }

  // ----- the goroutines -----

  datatype Context = Of(caller: Caller) | WithoutCancel(parent: Context)

  /** A context detached from cancellation is never done. */
  predicate Done(cancelled: set<Caller>, ctx: Context) {
    ctx.Of? && ctx.caller in cancelled
  }

  datatype Stage =
    | Running
    | Returned(outcome: Outcome)
    | Published(outcome: Outcome, at: Time)
    | Finished(outcome: Outcome, at: Time)

  /**
   The goroutine behind an entry. Its context and its stage are its own; the rest records how the
   entry came about: by which caller and when, after how many invalidations of its market, in place
   of which entry, and whether that entry's channel was closed between the two looks at it.
   */
  datatype Fetch = Fetch(
    market: Market, ctx: Context, leader: Caller, startedAt: Time, epoch: nat,
    prev: Option<Id>, straddled: bool, stage: Stage)

  datatype Answer =
    | Cached(e: Id, at: Time, outcome: Outcome)
    | Fresh(e: Id, outcome: Outcome)
    | GaveUp

  datatype Place =
    | Start                                        // about to take the lock
    | Locked(e: Id)                                // has found an entry
    | Missed(e: Id, open: bool)                    // has looked at it once, and it was no hit
    | Registering(prev: Option<Id>, straddled: bool)
    | Waiting(e: Id)
    | Leading(e: Id)
    | Hit(e: Id, at: Time)                         // has released the lock, and not yet read the fields
    | Answered(answer: Answer)

  /** A call: its market, where it is, the entries it has waited for and how often it took the lock. */
  datatype Call = Call(market: Market, place: Place, waited: seq<Id>, passes: nat)

  datatype State = State(
    clock: Time,
    lock: Option<Caller>,
    mem: Memory,
    fetches: seq<Fetch>,
    calls: map<Caller, Call>,
    cancelled: set<Caller>,
    epochs: Market -> nat)

  /** The time to live, and whether a pass looks at the channel of an entry once or twice. */
  datatype Config = Config(ttl: Time, twoLooks: bool) {
    predicate Valid() { ttl > 0 }
  }

  ghost predicate Initial(s: State) {
    && s.lock == None && s.mem == Memory(map[], []) && s.fetches == [] && s.calls == map[] && s.cancelled == {}
    && forall m :: s.epochs(m) == 0
  }

  // ----- the steps -----

  datatype Action =
    | Begin(c: Caller, m: Market)
    | Acquire(c: Caller)
    | FirstLook(c: Caller)
    | SecondLook(c: Caller)
    | Register(c: Caller)
    | Wake(c: Caller)
    | ReadHit(c: Caller)
    | ReadFresh(c: Caller)
    | GiveUp(c: Caller)
    | Cancel(c: Caller)
    | FetchReturns(e: Id, outcome: Outcome)
    | Publish(e: Id)
    | Close(e: Id)
    | Invalidate(names: seq<Market>)
    | Tick(elapsed: Time)

  function PlaceOf(s: State, c: Caller): Place
    requires c in s.calls
  {
    s.calls[c].place
  }

  predicate IsClosed(s: State, e: Id) {
    e < |s.mem.cells| && s.mem.cells[e].closed
  }

  predicate InStage(s: State, e: Id) {
    e < |s.fetches| && e < |s.mem.cells|
  }

  predicate Enabled(s: State, a: Action) {
    match a
    case Begin(c, _) => c !in s.calls
    case Acquire(c) => c in s.calls && PlaceOf(s, c).Start? && s.lock == None
    case FirstLook(c) => c in s.calls && PlaceOf(s, c).Locked? && PlaceOf(s, c).e < |s.mem.cells|
    case SecondLook(c) => c in s.calls && PlaceOf(s, c).Missed?
    case Register(c) => c in s.calls && PlaceOf(s, c).Registering?
    case Wake(c) => c in s.calls && PlaceOf(s, c).Waiting? && IsClosed(s, PlaceOf(s, c).e)
    case ReadHit(c) => c in s.calls && PlaceOf(s, c).Hit? && PlaceOf(s, c).e < |s.mem.cells|
    case ReadFresh(c) => c in s.calls && PlaceOf(s, c).Leading? && IsClosed(s, PlaceOf(s, c).e)
    case GiveUp(c) => c in s.calls && (PlaceOf(s, c).Waiting? || PlaceOf(s, c).Leading?) && Done(s.cancelled, Of(c))
    case Cancel(c) => true
    case FetchReturns(e, outcome) =>
      && InStage(s, e) && s.fetches[e].stage.Running?
      && (outcome.err == Some(Canceled) ==> Done(s.cancelled, s.fetches[e].ctx))
      && (outcome.err == None ==> outcome.snap.market == s.fetches[e].market)
    case Publish(e) => InStage(s, e) && s.fetches[e].stage.Returned? && s.lock == None
    case Close(e) => InStage(s, e) && s.fetches[e].stage.Published?
    case Invalidate(_) => s.lock == None
    case Tick(elapsed) => elapsed > 0
  }

  /** The call moves on. */
  function Moved(s: State, c: Caller, place: Place): State
    requires c in s.calls
  {
    s.(calls := s.calls[c := s.calls[c].(place := place)])
  }

  function Staged(s: State, e: Id, stage: Stage): State
    requires e < |s.fetches|
  {
    s.(fetches := s.fetches[e := s.fetches[e].(stage := stage)])
  }

  function AfterAcquire(s: State, c: Caller): State
    requires c in s.calls
  {
    var call := s.calls[c];
    var place := match Slot(s.mem, call.market) case Some(e) => Locked(e) case None => Registering(None, false);
    s.(lock := Some(c), calls := s.calls[c := call.(place := place, passes := call.passes + 1)])
  }

  /** Settled and not expired: a hit, and the lock is released. */
  function AfterFirstLook(s: State, c: Caller, e: Id): State
    requires c in s.calls && e < |s.mem.cells|
  {
    var cell := s.mem.cells[e];
    if cell.closed && s.clock < cell.expires then Moved(s, c, Hit(e, s.clock)).(lock := None)
    else Moved(s, c, Missed(e, !cell.closed))
  }

  /** Not settled, on a second look or as it was on the first: someone else is fetching, and the lock is released. */
  function AfterSecondLook(cfg: Config, s: State, c: Caller, e: Id, open: bool): State
    requires c in s.calls
  {
    var wait := if cfg.twoLooks then !IsClosed(s, e) else open;
    if wait then Moved(s, c, Waiting(e)).(lock := None)
    else Moved(s, c, Registering(Some(e), open))
  }

  function NewFetch(s: State, c: Caller, m: Market, prev: Option<Id>, straddled: bool): Fetch {
    Fetch(m, WithoutCancel(Of(c)), c, s.clock, s.epochs(m), prev, straddled, Running)
  }

  function AfterRegister(s: State, c: Caller, prev: Option<Id>, straddled: bool): State
    requires c in s.calls
  {
    var m := s.calls[c].market;
    Moved(s, c, Leading(|s.mem.cells|)).(
      lock := None, mem := Added(s.mem, m), fetches := s.fetches + [NewFetch(s, c, m, prev, straddled)])
  }

  function AfterWake(s: State, c: Caller, e: Id): State
    requires c in s.calls
  {
    s.(calls := s.calls[c := s.calls[c].(place := Start, waited := s.calls[c].waited + [e])])
  }

  function AfterPublish(cfg: Config, s: State, e: Id, outcome: Outcome): State
    requires InStage(s, e)
  {
    Staged(s, e, Published(outcome, s.clock)).(
      mem := Written(s.mem, e, outcome, s.clock + Window(cfg.ttl, outcome)))
  }

  function AfterInvalidate(s: State, names: seq<Market>): State {
    var epochs := s.epochs;
    s.(mem := Dropped(s.mem, names), epochs := m => if Covers(names, m) then epochs(m) + 1 else epochs(m))
  }

  function Apply(cfg: Config, s: State, a: Action): State
    requires Enabled(s, a)
  {
    match a
    case Begin(c, m) => s.(calls := s.calls[c := Call(m, Start, [], 0)])
    case Acquire(c) => AfterAcquire(s, c)
    case FirstLook(c) => AfterFirstLook(s, c, PlaceOf(s, c).e)
    case SecondLook(c) => AfterSecondLook(cfg, s, c, PlaceOf(s, c).e, PlaceOf(s, c).open)
    case Register(c) => AfterRegister(s, c, PlaceOf(s, c).prev, PlaceOf(s, c).straddled)
    case Wake(c) => AfterWake(s, c, PlaceOf(s, c).e)
    case ReadHit(c) =>
      Moved(s, c, Answered(Cached(PlaceOf(s, c).e, PlaceOf(s, c).at, s.mem.cells[PlaceOf(s, c).e].outcome)))
    case ReadFresh(c) => Moved(s, c, Answered(Fresh(PlaceOf(s, c).e, s.mem.cells[PlaceOf(s, c).e].outcome)))
    case GiveUp(c) => Moved(s, c, Answered(GaveUp))
    case Cancel(c) => s.(cancelled := s.cancelled + {c})
    case FetchReturns(e, outcome) => Staged(s, e, Returned(outcome))
    case Publish(e) => AfterPublish(cfg, s, e, s.fetches[e].stage.outcome)
    case Close(e) =>
      Staged(s, e, Finished(s.fetches[e].stage.outcome, s.fetches[e].stage.at)).(mem := Closed(s.mem, e))
    case Invalidate(names) => AfterInvalidate(s, names)
    case Tick(elapsed) => s.(clock := s.clock + elapsed)
  }

  ghost predicate Step(cfg: Config, s: State, a: Action, t: State) {
    Enabled(s, a) && t == Apply(cfg, s, a)
  }

  /** A run: from an empty cache, one step after the other. */
  ghost predicate IsRun(cfg: Config, run: seq<State>, acts: seq<Action>) {
    && |run| == |acts| + 1 && Initial(run[0])
    && forall i {:trigger acts[i]} :: 0 <= i < |acts| ==> Step(cfg, run[i], acts[i], run[i + 1])
  }
}
