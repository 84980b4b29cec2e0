/**
 The per client token bucket, with the collection of idle buckets. Times and tokens are reals, and
 times are in seconds.
 */
module Limiter {

  /** How often idle buckets are collected: ten minutes. */
  const SWEEP_INTERVAL := 600.0

  function Min(a: real, b: real): real {
    if a < b then a else b
  }

  // ----- the state the limiter keeps, as a value -----

  datatype Level = Level(tokens: real, seen: real)

  datatype State = State(levels: map<string, Level>, swept: real)

  function Start(now: real): State {
    State(map[], now)
  }

  /** The buckets that survive a sweep. */
  function Swept(levels: map<string, Level>, now: real): map<string, Level> {
    map client | client in levels && !(now - levels[client].seen > SWEEP_INTERVAL) :: levels[client]
  }

  function Sweep(s: State, now: real): State {
    if now - s.swept < SWEEP_INTERVAL then s else State(Swept(s.levels, now), now)
  }

  /** How many tokens flow in over so many seconds. */
  type Gain = real -> real

  function GainAt(rate: real): Gain {
    seconds => seconds * rate
  }

  /** The tokens of a client at a request: a full bucket the first time, refilled since the last request after that. */
  function Refilled(levels: map<string, Level>, client: string, gain: Gain, burst: real, now: real): real {
    if client in levels then Min(burst, levels[client].tokens + gain(now - levels[client].seen)) else burst
  }

  /** A request takes a token if there is one, and is seen in any case. */
  function Take(s: State, client: string, gain: Gain, burst: real, now: real): (State, bool) {
    var tokens := Refilled(s.levels, client, gain, burst, now);
    var ok := !(tokens < 1.0);
    (s.(levels := s.levels[client := Level(if ok then tokens - 1.0 else tokens, now)]), ok)
  }

  function Allow(s: State, client: string, gain: Gain, burst: real, now: real): (State, bool) {
    Take(Sweep(s, now), client, gain, burst, now)
  }

  // ----- the limiter itself -----

  class Bucket {
    var tokens: real
    var seen: real

    constructor (tokens: real, seen: real)
      ensures this.tokens == tokens && this.seen == seen
    {
      this.tokens := tokens;
      this.seen := seen;
    }
  }

  class RateLimiter {
    const rate: real
    const burst: real
    var buckets: map<string, Bucket>
    var swept: real

    /** No two clients share a bucket. */
    ghost predicate Valid()
      reads this
    {
      forall c, d :: c in buckets && d in buckets && c != d ==> buckets[c] != buckets[d]
    }

    ghost function Contents(): State
      reads this, buckets.Values
    {
      State(map c | c in buckets :: Level(buckets[c].tokens, buckets[c].seen), swept)
    }

    constructor (rate: real, burst: int, now: real)
      ensures Valid() && Contents() == Start(now)
      ensures this.rate == rate && this.burst == burst as real
    {
      this.rate := rate;
      this.burst := burst as real;
      buckets := map[];
      swept := now;
    }

    method AllowRequest(client: string, now: real) returns (ok: bool)
      requires Valid()
      modifies this, buckets.Values
      ensures Valid() && fresh(buckets.Values - old(buckets.Values))
      ensures (Contents(), ok) == Allow(old(Contents()), client, GainAt(rate), burst, now)
    {
      SweepIdle(now);
      ghost var levels := Contents().levels;
      var b := BucketOf(client, now);
      ghost var level := Contents().levels[client];
      assert level == Level(b.tokens, now);
      ok := !(b.tokens < 1.0);
      if ok { Spend(client, b); }
      assert levels[client := level][client := level.(tokens := level.tokens - 1.0)]
          == levels[client := level.(tokens := level.tokens - 1.0)];
    }

    /** The bucket of the client, refilled up to now, or a full one. */
    method BucketOf(client: string, now: real) returns (b: Bucket)
      requires Valid()
      modifies this, buckets.Values
      ensures Valid() && fresh(buckets.Values - old(buckets.Values))
      ensures client in buckets && buckets[client] == b
      ensures var s := old(Contents());
        Contents() == s.(levels := s.levels[client := Level(Refilled(s.levels, client, GainAt(rate), burst, now), now)])
    {
      ghost var levels := Contents().levels;
      if client !in buckets {
        b := new Bucket(burst, now);
        buckets := buckets[client := b];
        assert Contents().levels == levels[client := Level(burst, now)];
      } else {
        b := buckets[client];
        b.tokens := Min(burst, b.tokens + (now - b.seen) * rate);
        b.seen := now;
        assert Contents().levels == levels[client := Level(b.tokens, now)];
      }
      assert b.tokens == Refilled(levels, client, GainAt(rate), burst, now);
    }

    method Spend(client: string, b: Bucket)
      requires Valid() && client in buckets && buckets[client] == b
      modifies b
      ensures Valid()
      ensures var s := old(Contents());
        Contents() == s.(levels := s.levels[client := s.levels[client].(tokens := s.levels[client].tokens - 1.0)])
    {
      b.tokens := b.tokens - 1.0;
    }

    /** Deletes, key by key in some order, the buckets not seen for longer than the interval. */
    method SweepIdle(now: real)
      requires Valid()
      modifies this
      ensures Valid() && buckets.Values <= old(buckets.Values)
      ensures Contents() == Sweep(old(Contents()), now)
    {
      if now - swept < SWEEP_INTERVAL { return; }
      swept := now;
      DeleteIdle(now);
    }

    method DeleteIdle(now: real)
      requires Valid()
      modifies this`buckets
      ensures Valid() && buckets.Values <= old(buckets.Values)
      ensures Contents().levels == Swept(old(Contents()).levels, now)
    {
      var keys := buckets.Keys;
      ghost var all := buckets;
      while keys != {}
        invariant keys <= all.Keys
        invariant forall c :: c in buckets <==> c in all && (c in keys || !(now - all[c].seen > SWEEP_INTERVAL))
        invariant forall c :: c in buckets ==> buckets[c] == all[c]
        decreases keys
      {
        var key :| key in keys;
        if now - buckets[key].seen > SWEEP_INTERVAL {
          buckets := map c | c in buckets && c != key :: buckets[c];
        }
        keys := keys - {key};
      }
      forall b | b in buckets.Values
        ensures b in all.Values
      {
        var c :| c in buckets && buckets[c] == b;
        assert all[c] == b;
      }
      assert Contents().levels == Swept(old(Contents()).levels, now);
    }
  }
}
