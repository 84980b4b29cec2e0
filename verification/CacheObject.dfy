/**
 The cache as an object: the sections of code that run under its lock, or that a fetch runs on its
 own entry, each changing the shared memory as the corresponding steps of the protocol do.
 */
module CacheObject {
  import opened Wrappers
  import opened CacheProtocol
  import Board

  /** What a pass under the lock comes to. */
  datatype Verdict = Reuse(e: Id) | Wait(e: Id) | Lead(e: Id)

  /**
   A pass over the memory, at some time: the first look at the entry in the slot, possibly the close of
   its channel, the second look, and a new entry if neither look settles the matter.
   */
  function Pass(mem: Memory, m: Market, now: Time, closing: bool): (Memory, Verdict)
    requires m in mem.slots ==> mem.slots[m] < |mem.cells|
  {
    match Slot(mem, m)
    case None => (Added(mem, m), Lead(|mem.cells|))
    case Some(e) =>
      if mem.cells[e].closed && now < mem.cells[e].expires then (mem, Reuse(e))
      else
        var after := if closing then Closed(mem, e) else mem;
        if !after.cells[e].closed then (after, Wait(e)) else (Added(after, m), Lead(|after.cells|))
  }

  class Entry {
    ghost const id: Id
    var closed: bool
    var snap: Board.Snapshot
    var err: Option<Failure>
    var expires: Time

    constructor (ghost id: Id)
      ensures this.id == id && AsCell() == Cell(false, UNSET, 0)
    {
      this.id := id;
      closed, snap, err, expires := false, UNSET.snap, UNSET.err, 0;
    }

    ghost function AsCell(): Cell
      reads this
    {
      Cell(closed, Outcome(snap, err), expires)
    }

    predicate Settled()
      reads this
    {
      closed
    }
  }

  /** What is left of a table once these markets are deleted from it. */
  ghost predicate Kept(was: map<Market, Entry>, now: map<Market, Entry>, gone: seq<Market>) {
    && (forall m :: m in now <==> m in was && m !in gone)
    && (forall m :: m in now ==> now[m] == was[m])
  }

  class Cache {
    const ttl: Time
    var entries: map<Market, Entry>
    ghost var all: seq<Entry>

    ghost predicate Valid()
      reads this
    {
      && (forall i :: 0 <= i < |all| ==> all[i].id == i)
      && (forall m :: m in entries ==> entries[m].id < |all| && all[entries[m].id] == entries[m])
    }

    ghost function Cells(): (cells: seq<Cell>)
      reads this, all
      ensures |cells| == |all| && forall i :: 0 <= i < |all| ==> cells[i] == all[i].AsCell()
    {
      seq(|all|, i requires 0 <= i < |all| reads this, all => all[i].AsCell())
    }

    ghost function Slots(): map<Market, Id>
      reads this
    {
      map m | m in entries :: entries[m].id
    }

    ghost function Contents(): Memory
      reads this, all
    {
      Memory(Slots(), Cells())
    }

    constructor (ttl: Time)
      ensures Valid() && this.ttl == ttl && Contents() == Memory(map[], [])
    {
      this.ttl := ttl;
      entries := map[];
      all := [];
    }

    /** The entry to reuse, to wait for or to fill, found under the lock. */
    method Lookup(m: Market, now: Time, closing: bool) returns (e: Entry, ghost verdict: Verdict)
      requires Valid()
      modifies this, all
      ensures Valid() && old(all) <= all && fresh(set i | |old(all)| <= i < |all| :: all[i])
      ensures (Contents(), verdict) == Pass(old(Contents()), m, now, closing)
      ensures e in all && e.id == verdict.e
    {
      if m in entries {
        e := entries[m];
        if e.Settled() && now < e.expires {
          return e, Reuse(e.id);
        }
        if closing { Close(e); }
        if !e.Settled() {
          return e, Wait(e.id);
        }
      }
      e := Register(m);
      verdict := Lead(e.id);
    }

    method Register(m: Market) returns (leader: Entry)
      requires Valid()
      modifies this
      ensures Valid() && fresh(leader) && all == old(all) + [leader]
      ensures leader.id == |old(all)| && Contents() == Added(old(Contents()), m)
    {
      ghost var mem := Contents();
      leader := new Entry(|all|);
      entries := entries[m := leader];
      all := all + [leader];
      assert Slots() == mem.slots[m := leader.id];
      assert Cells() == mem.cells + [Cell(false, UNSET, 0)];
    }

    /** The goroutine of an entry writes what it fetched, and until when that may be reused. */
    method Publish(leader: Entry, snap: Board.Snapshot, err: Option<Failure>, now: Time)
      requires Valid() && leader in all
      modifies leader
      ensures Valid()
      ensures var outcome := Outcome(snap, err);
        leader.id < |all| && Contents() == Written(old(Contents()), leader.id, outcome, now + Window(ttl, outcome))
    {
      leader.snap, leader.err := snap, err;
      leader.expires := now + ttl;
      if err != None {
        leader.expires := now + (if FAILURE_TTL < ttl then FAILURE_TTL else ttl);
      }
    }

    method Close(e: Entry)
      requires Valid() && e in all
      modifies e`closed
      ensures Valid() && e.closed
      ensures e.id < |all| && Contents() == Closed(old(Contents()), e.id)
    {
      e.closed := true;
    }

    method Invalidate(markets: seq<Market>)
      requires Valid()
      modifies this`entries
      ensures Valid()
      ensures Contents() == Dropped(old(Contents()), markets)
      ensures markets == [] ==> entries == map[]
      ensures markets != [] ==> Kept(old(entries), entries, markets)
    {
      if |markets| == 0 {
        entries := map[];
        return;
      }
      ghost var was := entries;
      for i := 0 to |markets|
        invariant Kept(was, entries, markets[..i])
      {
        entries := map m | m in entries && m != markets[i] :: entries[m];
      }
      assert markets[..|markets|] == markets;
      assert Slots() == Dropped(old(Contents()), markets).slots;
    }
  }

  // ----- a pass of the object is a pass of the protocol -----

  /** The steps of one pass of a call, with or without the close in the middle. */
  function PassSteps(mem: Memory, m: Market, c: Caller, now: Time, closing: bool): seq<Action>
    requires m in mem.slots ==> mem.slots[m] < |mem.cells|
  {
    match Slot(mem, m)
    case None => [Acquire(c), Register(c)]
    case Some(e) =>
      if mem.cells[e].closed && now < mem.cells[e].expires then [Acquire(c), FirstLook(c)]
      else
        [Acquire(c), FirstLook(c)] + (if closing then [CacheProtocol.Close(e)] else []) + [SecondLook(c)]
        + (if mem.cells[e].closed || closing then [CacheProtocol.Register(c)] else [])
  }

  /** Where the call is after the pass. */
  function PlaceAfter(verdict: Verdict, now: Time): Place {
    match verdict
    case Reuse(e) => Hit(e, now)
    case Wait(e) => Waiting(e)
    case Lead(e) => Leading(e)
  }

  /** These steps can be taken one after the other. */
  ghost predicate Path(cfg: Config, s: State, acts: seq<Action>, t: State)
    decreases |acts|
  {
    if acts == [] then t == s
    else Enabled(s, acts[0]) && Path(cfg, Apply(cfg, s, acts[0]), acts[1..], t)
  }

  lemma {:induction false} PathSnoc(cfg: Config, s: State, acts: seq<Action>, t: State, a: Action)
    requires Path(cfg, s, acts, t) && Enabled(t, a)
    ensures Path(cfg, s, acts + [a], Apply(cfg, t, a))
    decreases |acts|
  {
    if acts == [] {
      assert acts + [a] == [a];
    } else {
      PathSnoc(cfg, Apply(cfg, s, acts[0]), acts[1..], t, a);
      assert (acts + [a])[0] == acts[0] && (acts + [a])[1..] == acts[1..] + [a];
    }
  }

  /**
   A caller that is about to take the free lock, in a state where the entry in its slot can be closed if it is
   to be.
   */
  predicate Ready(s: State, c: Caller, closing: bool) {
    && s.lock == None && c in s.calls && s.calls[c].place == Start
    && |s.fetches| == |s.mem.cells|
    && var m := s.calls[c].market;
      && (m in s.mem.slots ==> s.mem.slots[m] < |s.mem.cells|)
      && (closing ==> m in s.mem.slots && s.fetches[s.mem.slots[m]].stage.Published?)
  }

  /** A pass of the object does to the memory, and decides, what these steps of the protocol do and decide. */
  lemma {:induction false} PassIsPath(cfg: Config, s: State, c: Caller, closing: bool) returns (t: State)
    requires cfg.twoLooks && Ready(s, c, closing)
    ensures var m := s.calls[c].market;
      && Path(cfg, s, PassSteps(s.mem, m, c, s.clock, closing), t)
      && c in t.calls && t.lock == None
      && var (mem, verdict) := Pass(s.mem, m, s.clock, closing);
      t.mem == mem && t.calls[c].place == PlaceAfter(verdict, s.clock)
  {
    var m := s.calls[c].market;
    var s1 := Apply(cfg, s, Acquire(c));
    assert Path(cfg, s, [], s);
    PathSnoc(cfg, s, [], s, Acquire(c));
    if m !in s.mem.slots {
      t := Apply(cfg, s1, CacheProtocol.Register(c));
      PathSnoc(cfg, s, [Acquire(c)], s1, CacheProtocol.Register(c));
    } else {
      t := LooksArePath(cfg, s, s1, c, closing);
    }
  }

  lemma {:induction false} LooksArePath(cfg: Config, s: State, s1: State, c: Caller, closing: bool) returns (t: State)
    requires cfg.twoLooks && Ready(s, c, closing) && s.calls[c].market in s.mem.slots
    requires s1 == Apply(cfg, s, Acquire(c)) && Path(cfg, s, [Acquire(c)], s1)
    ensures var m := s.calls[c].market;
      && Path(cfg, s, PassSteps(s.mem, m, c, s.clock, closing), t)
      && c in t.calls && t.lock == None
      && var (mem, verdict) := Pass(s.mem, m, s.clock, closing);
      t.mem == mem && t.calls[c].place == PlaceAfter(verdict, s.clock)
  {
    var e := s.mem.slots[s.calls[c].market];
    var s2 := Apply(cfg, s1, FirstLook(c));
    var acts := [Acquire(c), FirstLook(c)];
    PathSnoc(cfg, s, [Acquire(c)], s1, FirstLook(c));
    assert [Acquire(c)] + [FirstLook(c)] == acts;
    if s2.calls[c].place.Hit? {
      t := s2;
    } else {
      var s3 := s2;
      if closing {
        s3 := Apply(cfg, s2, CacheProtocol.Close(e));
        PathSnoc(cfg, s, acts, s2, CacheProtocol.Close(e));
        acts := acts + [CacheProtocol.Close(e)];
      }
      t := Apply(cfg, s3, SecondLook(c));
      PathSnoc(cfg, s, acts, s3, SecondLook(c));
      acts := acts + [SecondLook(c)];
      if t.calls[c].place.Registering? {
        PathSnoc(cfg, s, acts, t, CacheProtocol.Register(c));
        t := Apply(cfg, t, CacheProtocol.Register(c));
        acts := acts + [CacheProtocol.Register(c)];
      }
      assert acts == PassSteps(s.mem, s.calls[c].market, c, s.clock, closing);
    }
  }
}
