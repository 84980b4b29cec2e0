/** Fetching a page with retries: when it stops, what it returns, and how long it pauses in between. */
module Retry {
  import opened Wrappers

  const MAX_INT64 := 0x7fff_ffff_ffff_ffff

  predicate IsInt64(x: int) {
    -MAX_INT64 - 1 <= x <= MAX_INT64
  }

  /** The value a 64 bit machine keeps. */
  function Wrap(x: int): int {
    (x + MAX_INT64 + 1) % (2 * MAX_INT64 + 2) - MAX_INT64 - 1
  }

  datatype Policy = Policy(maxAttempts: int, backoff: int, maxBackoff: int) {
    predicate Valid() {
      IsInt64(backoff) && IsInt64(maxBackoff)
    }

    function Attempts(): int {
      if maxAttempts > 1 then maxAttempts else 1
    }
  }

  // ----- one try -----

  datatype Sentinel = RequestFailed | UnexpectedStatus | BodyTooLarge | ContextEnded

  /** An error, as the set of sentinels it wraps. */
  type Fault = set<Sentinel>

  /** What came of one request: no response, or a status and a body that may break off. */
  datatype Exchange =
    | NoResponse(cause: Fault)
    | Response(status: int, body: string, broken: Option<Fault>)

  datatype Reply = Reply(body: string, status: int, err: Option<Fault>)

  /** One byte over the limit is read, to tell a body that is too long from one that just fits. */
  function Try(x: Exchange, limit: nat): Reply {
    match x
    case NoResponse(cause) => Reply("", 0, Some({RequestFailed} + cause))
    case Response(status, body, broken) =>
      if status != 200 then Reply("", status, Some({UnexpectedStatus}))
      else if broken.Some? && |body| <= limit then Reply("", status, Some({RequestFailed} + broken.value))
      else if |body| > limit then Reply("", status, Some({BodyTooLarge}))
      else Reply(body, status, None)
  }

  /** A 200 whose body arrives whole and within the limit. */
  predicate Complete(x: Exchange, limit: nat) {
    x.Response? && x.status == 200 && x.broken == None && |x.body| <= limit
  }

  /**
   A try succeeds exactly on a complete response, and a body over the limit is told apart from one that breaks
   off.
   */
  lemma {:induction false} TryMeans(x: Exchange, limit: nat)
    ensures Try(x, limit).err == None <==> Complete(x, limit)
    ensures Complete(x, limit) ==> Try(x, limit).body == x.body
    ensures x.Response? && x.status != 200 ==> Try(x, limit).err == Some({UnexpectedStatus})
    ensures x.Response? ==> (Try(x, limit).err == Some({BodyTooLarge}) <==> x.status == 200 && |x.body| > limit)
    ensures Try(x, limit).status == (if x.Response? then x.status else 0)
  {
  }

  predicate Retryable(err: Fault, status: int) {
    if BodyTooLarge in err then false
    else if status == 0 then true
    else if status == 429 || status == 408 then true
    else status >= 500
  }

  // ----- the loop -----

  /**
   What the surroundings do after the k-th try: the exchange itself, whether the context has ended, and
   whether it ends the pause.
   */
  datatype World = World(exchange: int -> Exchange, context: int -> Option<Fault>, pause: int -> Option<Fault>)

  datatype Result =
    | Page(body: string)
    | Failure(status: int, attempts: int, err: Fault)

  /** The k-th try failed, and another could plausibly succeed. */
  predicate Transient(limit: nat, w: World, k: int) {
    var reply := Try(w.exchange(k), limit);
    reply.err.Some? && Retryable(reply.err.value, reply.status)
  }

  /** Another try follows the k-th. */
  predicate GoesOn(policy: Policy, limit: nat, w: World, k: int) {
    Transient(limit, w, k) && w.context(k) == None && k < policy.Attempts() && w.pause(k) == None
  }

  /** How long the pause after the k-th try is: doubled each time in 64 bits, and capped from the second on. */
  function Pause(policy: Policy, k: nat): int
    requires k >= 1
  {
    if k == 1 then policy.backoff else Doubled(policy, Pause(policy, k - 1))
  }

  function Doubled(policy: Policy, pause: int): int {
    Capped(policy, Wrap(2 * pause))
  }

  function Capped(policy: Policy, pause: int): int {
    if policy.maxBackoff > 0 && policy.maxBackoff < pause then policy.maxBackoff else pause
  }

  function Pauses(policy: Policy, n: nat): (pauses: seq<int>)
    ensures |pauses| == n && forall k :: 0 <= k < n ==> pauses[k] == Pause(policy, k + 1)
  {
    seq(n, k requires 0 <= k < n => Pause(policy, k + 1))
  }

  /**
   Retrieves a page. Besides the result it returns how many tries were made and how long each pause
   was to be.
   */
  method Get(policy: Policy, limit: nat, w: World) returns (result: Result, tries: nat, pauses: seq<int>)
    // It stops at the first try after which nothing more is to be hoped for.
    ensures 1 <= tries <= policy.Attempts() && (tries == 1 || tries <= policy.maxAttempts)
    ensures forall k :: 1 <= k < tries ==> GoesOn(policy, limit, w, k)
    ensures !GoesOn(policy, limit, w, tries)
    // As long as there is hope it makes every try it may.
    ensures (forall k :: 1 <= k <= policy.maxAttempts ==>
              Transient(limit, w, k) && w.context(k) == None && w.pause(k) == None) ==>
      tries == if policy.maxAttempts >= 1 then policy.maxAttempts else 1
    // A page comes from a complete response of the last try, and from nowhere else.
    ensures result.Page? <==> Complete(w.exchange(tries), limit)
    ensures result.Page? ==> result.body == w.exchange(tries).body
    // A failure counts the tries, and says what the last one came to or that the context ended.
    ensures result.Failure? ==> result.attempts == tries
    ensures var reply := Try(w.exchange(tries), limit);
      result.Failure? ==>
        if !Transient(limit, w, tries) then (result.status, result.err) == (reply.status, reply.err.value)
        else if w.context(tries).Some? then
          (result.status, result.err) == (reply.status, {RequestFailed} + w.context(tries).value)
        else if tries == policy.Attempts() then (result.status, result.err) == (reply.status, reply.err.value)
        else w.pause(tries).Some? && (result.status, result.err) == (0, {RequestFailed} + w.pause(tries).value)
    // Every try but the first follows a pause; so does the end of the context in a pause.
    ensures |pauses| == tries - 1 || |pauses| == tries < policy.Attempts()
    ensures |pauses| == tries <==> Transient(limit, w, tries) && w.context(tries) == None && tries < policy.Attempts()
    ensures pauses == Pauses(policy, |pauses|)
  {
    var attempts := if policy.maxAttempts > 1 then policy.maxAttempts else 1;
    var backoff := policy.backoff;
    var lastErr: Fault, lastStatus := {}, 0;
    pauses, tries := [], 0;
    var attempt := 1;
    while attempt <= attempts
      invariant 1 <= attempt <= attempts + 1 && tries == attempt - 1
      invariant |pauses| == (if tries == 0 then 0 else tries - 1)
      invariant forall k :: 0 <= k < |pauses| ==> pauses[k] == Pause(policy, k + 1)
      invariant backoff == Pause(policy, if attempt <= 2 then 1 else attempt - 1)
      invariant forall k :: 1 <= k < tries ==> GoesOn(policy, limit, w, k)
      invariant tries > 0 ==> Transient(limit, w, tries) && w.context(tries) == None
      invariant tries > 0 ==> Try(w.exchange(tries), limit) == Reply("", lastStatus, Some(lastErr))
    {
      if attempt > 1 {
        pauses := pauses + [backoff];
        var ended := w.pause(attempt - 1);
        if ended.Some? {
          return Failure(0, attempt - 1, {RequestFailed} + ended.value), tries, pauses;
        }
        backoff := Wrap(backoff * 2);
        if policy.maxBackoff > 0 {
          backoff := if policy.maxBackoff < backoff then policy.maxBackoff else backoff;
        }
      }
      var reply := Try(w.exchange(attempt), limit);
      tries := attempt;
      if reply.err == None {
        return Page(reply.body), tries, pauses;
      } else if !Retryable(reply.err.value, reply.status) {
        return Failure(reply.status, attempt, reply.err.value), tries, pauses;
      }
      lastErr, lastStatus := reply.err.value, reply.status;
      var ctx := w.context(attempt);
      if ctx.Some? {
        return Failure(reply.status, attempt, {RequestFailed} + ctx.value), tries, pauses;
      }
      attempt := attempt + 1;
    }
    result := Failure(lastStatus, attempts, lastErr);
  }

  /**
   Which exchanges are tried again: those without a response, unless what failed was an oversized
   body, and timeouts, rate limits and server errors. A page that breaks off is not.
   */
  lemma {:induction false} TransientIff(limit: nat, w: World, k: int)
    ensures Transient(limit, w, k) <==>
      match w.exchange(k)
      case NoResponse(cause) => BodyTooLarge !in cause
      case Response(status, _, _) => status == 0 || status == 408 || status == 429 || status >= 500
  {
  }

  /** A fault that breaks off the body of a 200 ends the call; the same fault without a response is tried again. */
  lemma {:induction false} BrokenBodyIsFinal(limit: nat, w: World, k: int, body: string, fault: Fault)
    requires w.exchange(k) == Response(200, body, Some(fault)) && |body| <= limit
    ensures Try(w.exchange(k), limit).err == Some({RequestFailed} + fault) && !Transient(limit, w, k)
    ensures Try(NoResponse(fault), limit).err == Some({RequestFailed} + fault)
    ensures BodyTooLarge !in fault ==> Retryable({RequestFailed} + fault, Try(NoResponse(fault), limit).status)
  {
  }

  // ----- the pauses -----

  function Pow2(n: nat): nat {
    if n == 0 then 1 else 2 * Pow2(n - 1)
  }

  function Least(a: int, b: int): int {
    if a < b then a else b
  }

  /**
   The pause after the k-th try if integers had no bound: the first as given, the k-th doubled k - 1 times and at
   most the cap, if there is one.
   */
  function Ideal(policy: Policy, k: nat): int
    requires k >= 1
  {
    var doubled := policy.backoff * Pow2(k - 1);
    if k == 1 then policy.backoff
    else if policy.maxBackoff > 0 then Least(doubled, policy.maxBackoff)
    else doubled
  }

  lemma {:induction false} IdealDoubles(policy: Policy, k: nat)
    requires k >= 1
    ensures Ideal(policy, k + 1) == Capped(policy, 2 * Ideal(policy, k))
  {
    assert policy.backoff * Pow2(k) == 2 * (policy.backoff * Pow2(k - 1));
    if k == 1 { assert policy.backoff * Pow2(0) == policy.backoff; }
  }

  /** No doubling among the first n pauses leaves the 64 bits. */
  ghost predicate NoOverflow(policy: Policy, n: nat) {
    forall k :: 1 <= k < n ==> IsInt64(2 * Ideal(policy, k))
  }

  ghost predicate Exact(policy: Policy, n: nat) {
    forall k :: 1 <= k <= n ==> Pause(policy, k) == Ideal(policy, k)
  }

  lemma {:induction false} PauseFits(policy: Policy, k: nat)
    requires policy.Valid() && k >= 1
    ensures IsInt64(Pause(policy, k))
  {
  }

  lemma {:induction false} WrapChanges(x: int)
    requires IsInt64(x)
    ensures IsInt64(2 * x) ==> Wrap(2 * x) == 2 * x
    ensures 2 * x > MAX_INT64 ==> Wrap(2 * x) == 2 * x - 2 * MAX_INT64 - 2 < 0
    ensures 2 * x < -MAX_INT64 - 1 ==> Wrap(2 * x) == 2 * x + 2 * MAX_INT64 + 2 >= 0
  {
  }

  /** The pauses are the doubled and capped ones exactly as long as no doubling overflows. */
  lemma {:induction false} PausesAreExactIff(policy: Policy, n: nat)
    requires policy.Valid()
    ensures Exact(policy, n) <==> NoOverflow(policy, n)
  {
    if n >= 2 {
      var k := n - 1;
      PausesAreExactIff(policy, k);
      if Exact(policy, k) {
        PauseFits(policy, k);
        WrapChanges(Ideal(policy, k));
        IdealDoubles(policy, k);
        assert Exact(policy, n) <==> Pause(policy, n) == Ideal(policy, n);
        assert NoOverflow(policy, n) <==> IsInt64(2 * Ideal(policy, k));
      } else {
        assert !Exact(policy, n) && !NoOverflow(policy, n);
      }
    }
  }

  /** From the second on, the pauses move away from zero. */
  lemma {:induction false} IdealMovesOn(policy: Policy, k: nat)
    requires k >= 2
    ensures if policy.backoff >= 0 then 0 <= Ideal(policy, k) <= Ideal(policy, k + 1)
      else Ideal(policy, k + 1) <= Ideal(policy, k) <= 0
  {
    assert policy.backoff * Pow2(k) == 2 * (policy.backoff * Pow2(k - 1));
    if policy.backoff >= 0 {
      Product(policy.backoff, Pow2(k - 1));
    } else {
      Product(-policy.backoff, Pow2(k - 1));
    }
  }

  lemma {:induction false} IdealBetween(policy: Policy, k: nat, n: nat)
    requires 2 <= k <= n
    ensures if policy.backoff >= 0 then 0 <= Ideal(policy, k) <= Ideal(policy, n)
      else Ideal(policy, n) <= Ideal(policy, k) <= 0
  {
    IdealMovesOn(policy, n);
    if k < n {
      IdealBetween(policy, k, n - 1);
      IdealMovesOn(policy, n - 1);
    }
  }

  /** Up to how many pauses that is: what is doubled last, and the first pause, which is not capped, must fit. */
  lemma {:induction false} NoOverflowIff(policy: Policy, n: nat)
    ensures NoOverflow(policy, n) <==>
      (n >= 2 ==> IsInt64(2 * policy.backoff))
      && (n >= 3 ==> IsInt64(2 * Ideal(policy, n - 1)))
  {
    if n >= 3 && IsInt64(2 * policy.backoff) && IsInt64(2 * Ideal(policy, n - 1)) {
      forall k | 1 <= k < n
        ensures IsInt64(2 * Ideal(policy, k))
      {
        if k >= 2 { IdealBetween(policy, k, n - 1); }
      }
    }
    if n >= 2 && NoOverflow(policy, n) {
      assert IsInt64(2 * Ideal(policy, n - 1)) && IsInt64(2 * Ideal(policy, 1));
    }
  }

  /** The pause after a doubling that overflows upwards is skipped. */
  lemma {:induction false} OverflowSkipsThePause(policy: Policy, k: nat)
    requires policy.Valid() && k >= 1 && 2 * Pause(policy, k) > MAX_INT64
    ensures Pause(policy, k + 1) < 0
  {
    PauseFits(policy, k);
    WrapChanges(Pause(policy, k));
  }

  /** A negative pause, which takes no time, is not negative any more after a doubling that overflows downwards. */
  lemma {:induction false} OverflowTurnsThePause(policy: Policy, k: nat)
    requires policy.Valid() && k >= 1 && 2 * Pause(policy, k) < -MAX_INT64 - 1
    ensures Pause(policy, k + 1) == Capped(policy, 2 * Pause(policy, k) + 2 * MAX_INT64 + 2) >= 0
    ensures Pause(policy, k) > -MAX_INT64 - 1 ==> Pause(policy, k + 1) > 0
  {
    PauseFits(policy, k);
    WrapChanges(Pause(policy, k));
  }

  /** Without a cap that may be close to three centuries. */
  lemma {:induction false} LongPauseAfterOverflow()
    ensures var policy := Policy(3, -0x4000_0000_0000_0001, 0);
      policy.Valid() && Pause(policy, 2) == MAX_INT64 - 1
  {
    var policy := Policy(3, -0x4000_0000_0000_0001, 0);
    assert Pause(policy, 1) == -0x4000_0000_0000_0001;
    assert Pause(policy, 2) == Wrap(-0x8000_0000_0000_0002);
  }

  /** A later pause may be positive again: what wrapping leaves of a doubled negative one, here four nanoseconds. */
  lemma {:induction false} PauseAfterOverflow()
    ensures var policy := Policy(4, 0x4000_0000_0000_0001, 0);
      policy.Valid() && Pause(policy, 2) < 0 && Pause(policy, 3) == 4
  {
    var policy := Policy(4, 0x4000_0000_0000_0001, 0);
    assert Pause(policy, 1) == 0x4000_0000_0000_0001;
    assert Pause(policy, 2) == Wrap(0x8000_0000_0000_0002);
  }

  /** The cap holds for every pause, whatever the arithmetic does, exactly when it holds for the first. */
  lemma {:induction false} CapHoldsIff(policy: Policy)
    requires policy.maxBackoff > 0
    ensures (forall k: nat :: k >= 1 ==> Pause(policy, k) <= policy.maxBackoff) <==> policy.backoff <= policy.maxBackoff
  {
    assert Pause(policy, 1) == policy.backoff;
  }

  // ----- the time spent pausing -----

  function Positive(x: int): nat {
    if x > 0 then x else 0
  }

  /** A pause that is not positive takes no time. */
  function Waited(pauses: seq<int>): nat {
    if pauses == [] then 0 else Waited(pauses[..|pauses| - 1]) + Positive(pauses[|pauses| - 1])
  }

  lemma {:induction false} WaitedSnoc(policy: Policy, n: nat)
    ensures Waited(Pauses(policy, n + 1)) == Waited(Pauses(policy, n)) + Positive(Pause(policy, n + 1))
  {
    assert Pauses(policy, n + 1)[..n] == Pauses(policy, n);
  }

  /** With a cap, n pauses take at most the first and n - 1 times the cap, even if a doubling overflows. */
  lemma {:induction false} CappedWait(policy: Policy, n: nat)
    requires policy.maxBackoff > 0 && n >= 1
    ensures Waited(Pauses(policy, n)) <= Positive(policy.backoff) + (n - 1) * policy.maxBackoff
  {
    WaitedSnoc(policy, n - 1);
    if n > 1 {
      CappedWait(policy, n - 1);
      LaterPauseIsCapped(policy, n);
      OneMore(n - 1, policy.maxBackoff);
    }
  }

  lemma {:induction false} LaterPauseIsCapped(policy: Policy, k: nat)
    requires policy.maxBackoff > 0 && k >= 2
    ensures Positive(Pause(policy, k)) <= policy.maxBackoff
  {
  }

  lemma {:induction false} OneMore(n: nat, m: int)
    ensures n * m == (n - 1) * m + m
  {
  }

  /** Without a cap and overflow, n pauses take 2^n - 1 times the first, and no time if that is negative. */
  lemma {:induction false} UncappedWait(policy: Policy, n: nat)
    requires policy.Valid() && policy.maxBackoff <= 0 && NoOverflow(policy, n)
    ensures Waited(Pauses(policy, n)) == Positive(policy.backoff) * (Pow2(n) - 1)
  {
    if n > 0 {
      UncappedWait(policy, n - 1);
      WaitedSnoc(policy, n - 1);
      UncappedPause(policy, n);
      Sums(Positive(policy.backoff), Pow2(n - 1));
    }
  }

  lemma {:induction false} UncappedPause(policy: Policy, n: nat)
    requires policy.Valid() && policy.maxBackoff <= 0 && NoOverflow(policy, n) && n >= 1
    ensures Positive(Pause(policy, n)) == Positive(policy.backoff) * Pow2(n - 1)
  {
    assert Pause(policy, n) == Ideal(policy, n) by { PausesAreExactIff(policy, n); }
    UncappedIdeal(policy, n);
  }

  lemma {:induction false} UncappedIdeal(policy: Policy, n: nat)
    requires policy.maxBackoff <= 0 && n >= 1
    ensures Positive(Ideal(policy, n)) == Positive(policy.backoff) * Pow2(n - 1)
  {
    if n == 1 { assert policy.backoff * Pow2(0) == policy.backoff; }
    if policy.backoff >= 0 {
      Product(policy.backoff, Pow2(n - 1));
    } else {
      Product(-policy.backoff, Pow2(n - 1));
    }
  }

  lemma {:induction false} Product(b: int, p: nat)
    requires b >= 0
    ensures b * p >= 0 && (-b) * p <= 0
  {
  }

  lemma {:induction false} Sums(b: int, p: int)
    ensures b * (p - 1) + b * p == b * (2 * p - 1)
  {
  }
}
