/**
 The fixed-window limiter in its two forms: the in-memory bucket, and the Redis counter that also counts
 rejected requests. Instants and window lengths are milliseconds.
 */
module RateLimit {
  import opened Options

  datatype Bucket = Bucket(remaining: nat, resetAt: nat)
  datatype Counter = Counter(count: nat, expiresAt: nat)
  datatype Decision = Decision(allowed: bool, remaining: nat)

  predicate BucketIsOpen(b: Option<Bucket>, now: nat) {
    b.Some? && now < b.value.resetAt
  }

  /** One request against a bucket: the bucket afterwards and the answer. */
  function BucketHit(b: Option<Bucket>, limit: nat, window: nat, now: nat): (Bucket, Decision) {
    var bucket := if BucketIsOpen(b, now) then b.value else Bucket(limit, now + window);
    if bucket.remaining == 0 then (bucket, Decision(false, 0))
    else (bucket.(remaining := bucket.remaining - 1), Decision(true, bucket.remaining - 1))
  }

  /** INCR, then EXPIRE NX: the expiry is set only when the key has none, that is, when it is new. */
  function CounterHit(c: Option<Counter>, limit: nat, window: nat, now: nat): (Counter, Decision) {
    var counter := if c.Some? && now < c.value.expiresAt then c.value.(count := c.value.count + 1)
                   else Counter(1, now + window);
    if counter.count > limit then (counter, Decision(false, 0))
    else (counter, Decision(true, limit - counter.count))
  }

  class BucketLimiter {
    const limit: nat
    const window: nat
    var store: map<string, Bucket>

    constructor (limit: nat, windowSeconds: nat)
      ensures store == map[] && this.limit == limit && window == 1000 * windowSeconds
    {
      this.limit := limit;
      this.window := 1000 * windowSeconds;
      store := map[];
    }

    /** The middleware: the decision, and the seconds until the window ends, rounded up. */
    method Allow(id: string, now: nat) returns (d: Decision, resetSec: nat)
      modifies this`store
      ensures id in store && (store[id], d) == BucketHit(Lookup(old(store), id), limit, window, now)
      ensures forall k :: k != id ==> Lookup(store, k) == Lookup(old(store), k)
      ensures 1000 * resetSec >= store[id].resetAt - now > 1000 * (resetSec - 1)
    {
      var bucket;
      if id !in store || now >= store[id].resetAt {
        bucket := Bucket(limit, now + window);
        store := store[id := bucket];
      } else {
        bucket := store[id];
      }
      resetSec := (bucket.resetAt - now + 999) / 1000;
      if bucket.remaining <= 0 {
        return Decision(false, 0), resetSec;
      }
      bucket := bucket.(remaining := bucket.remaining - 1);
      store := store[id := bucket];
      return Decision(true, bucket.remaining), resetSec;
    }
  }

  class CounterLimiter {
    var keys: map<string, Counter>

    constructor ()
      ensures keys == map[]
    {
      keys := map[];
    }

    method Incr(key: string, now: nat) returns (count: nat, hasExpiry: bool)
      modifies this
      ensures hasExpiry <==> key in old(keys) && now < old(keys)[key].expiresAt
      ensures count == if hasExpiry then old(keys)[key].count + 1 else 1
      ensures key in keys && keys[key].count == count && (hasExpiry ==> keys[key].expiresAt == old(keys)[key].expiresAt)
      ensures forall k :: k != key ==> Lookup(keys, k) == Lookup(old(keys), k)
    {
      hasExpiry := key in keys && now < keys[key].expiresAt;
      if hasExpiry {
        count := keys[key].count + 1;
        keys := keys[key := keys[key].(count := count)];
      } else {
        count := 1;
        keys := keys[key := Counter(1, now)];
      }
    }

    /** TTL in whole seconds: off by half a second at most, and upwards when it is exactly that. */
    method Ttl(key: string, now: nat) returns (seconds: nat)
      requires key in keys && now <= keys[key].expiresAt
      ensures -500 < 1000 * seconds - (keys[key].expiresAt - now) <= 500
    {
      seconds := (keys[key].expiresAt - now + 500) / 1000;
    }

    /** The decision and, for a rejected request, the seconds after which to try again. */
    method Allow(key: string, limit: nat, windowSec: nat, now: nat) returns (d: Decision, retryAfter: nat)
      modifies this
      ensures key in keys && (keys[key], d) == CounterHit(Lookup(old(keys), key), limit, 1000 * windowSec, now)
      ensures forall k :: k != key ==> Lookup(keys, k) == Lookup(old(keys), k)
      ensures !d.allowed ==>
                var left := keys[key].expiresAt - now;
                retryAfter == if left < 1500 then 1 else (left + 500) / 1000
    {
      var count, hasExpiry := Incr(key, now);
      if !hasExpiry {
        keys := keys[key := keys[key].(expiresAt := now + 1000 * windowSec)];  // EXPIRE NX
      }
      var ttlLeft := Ttl(key, now);
      if count > limit { return Decision(false, 0), if ttlLeft < 1 then 1 else ttlLeft; }
      return Decision(true, limit - count), 0;
    }
  }

  // ---------------------------------------------------------------------- runs

  datatype Request = Request(key: string, now: nat)

  /** The limiter's parameters, the same for every request of a run. */
  datatype Rule = Rule(limit: nat, window: nat)

  function Buckets(run: seq<Request>, n: nat, rule: Rule): map<string, Bucket>
    requires n <= |run|
  {
    if n == 0 then map[]
    else
      var before := Buckets(run, n - 1, rule);
      before[run[n - 1].key := BucketHit(Lookup(before, run[n - 1].key), rule.limit, rule.window, run[n - 1].now).0]
  }

  function Counters(run: seq<Request>, n: nat, rule: Rule): map<string, Counter>
    requires n <= |run|
  {
    if n == 0 then map[]
    else
      var before := Counters(run, n - 1, rule);
      before[run[n - 1].key := CounterHit(Lookup(before, run[n - 1].key), rule.limit, rule.window, run[n - 1].now).0]
  }

  function BucketAt(run: seq<Request>, n: nat, rule: Rule, key: string): Option<Bucket>
    requires n <= |run|
  {
    Lookup(Buckets(run, n, rule), key)
  }

  function BucketSays(run: seq<Request>, i: nat, rule: Rule): Decision
    requires i < |run|
  {
    BucketHit(BucketAt(run, i, rule, run[i].key), rule.limit, rule.window, run[i].now).1
  }

  function CounterSays(run: seq<Request>, i: nat, rule: Rule): Decision
    requires i < |run|
  {
    CounterHit(Lookup(Counters(run, i, rule), run[i].key), rule.limit, rule.window, run[i].now).1
  }

  ghost predicate Timed(run: seq<Request>) {
    forall i, j :: 0 <= i < j < |run| ==> run[i].now <= run[j].now
  }

  // ------------------------------------------------------------ the two agree

  /** The bucket holds what the limit leaves over, even while the counter runs past the limit. */
  ghost predicate Agree(b: Option<Bucket>, c: Option<Counter>, limit: nat) {
    match (b, c)
    case (None, None) => true
    case (Some(bucket), Some(counter)) =>
      && bucket.resetAt == counter.expiresAt
      && bucket.remaining == if counter.count <= limit then limit - counter.count else 0
    case _ => false
  }

  lemma {:induction false} StoresAgree(run: seq<Request>, n: nat, rule: Rule, key: string)
    requires n <= |run|
    ensures Agree(BucketAt(run, n, rule, key), Lookup(Counters(run, n, rule), key), rule.limit)
  {
    if n > 0 { StoresAgree(run, n - 1, rule, key); }
  }

  /** On every request sequence both limiters decide alike and report the same remaining count. */
  lemma SameDecisions(run: seq<Request>, i: nat, rule: Rule)
    requires i < |run|
    ensures BucketSays(run, i, rule) == CounterSays(run, i, rule)
  {
    StoresAgree(run, i, rule, run[i].key);
  }

  // -------------------------------------------------- how many are let through

  /** Requests for `key` among the first n, at or after `from` and before `to`. */
  function Asked(run: seq<Request>, n: nat, key: string, from: int, to: int): nat
    requires n <= |run|
  {
    if n == 0 then 0
    else Asked(run, n - 1, key, from, to) + if run[n - 1].key == key && from <= run[n - 1].now < to then 1 else 0
  }

  /** Those of them that were let through. */
  function Admitted(run: seq<Request>, n: nat, rule: Rule, key: string, from: int, to: int): nat
    requires n <= |run|
  {
    if n == 0 then 0
    else
      Admitted(run, n - 1, rule, key, from, to)
      + if run[n - 1].key == key && from <= run[n - 1].now < to && BucketSays(run, n - 1, rule).allowed then 1 else 0
  }

  /** What the bucket's own window tells about the half-open interval of one window length from `from` on. */
  ghost predicate Within(b: Option<Bucket>, admitted: nat, rule: Rule, from: int, last: int) {
    match b
    case None => admitted == 0
    case Some(bucket) =>
      var start := bucket.resetAt - rule.window;
      && bucket.remaining < rule.limit && start <= last
      && (bucket.resetAt <= from ==> admitted == 0)
      && (start < from ==> admitted <= rule.limit - 1 - bucket.remaining)
      && (from <= start < from + rule.window ==> admitted <= 2 * rule.limit - 1 - bucket.remaining)
      && admitted <= 2 * rule.limit - 1
  }

  lemma {:induction false} AdmittedWithin(run: seq<Request>, n: nat, rule: Rule, key: string, from: int)
    requires Timed(run) && rule.limit > 0 && rule.window > 0 && n <= |run|
    ensures Within(BucketAt(run, n, rule, key), Admitted(run, n, rule, key, from, from + rule.window), rule, from,
                   if n == 0 then 0 else run[n - 1].now)
  {
    if n > 0 {
      AdmittedWithin(run, n - 1, rule, key, from);
      assert n > 1 ==> run[n - 2].now <= run[n - 1].now;
    }
  }

  /**
   In any half-open interval of one window length at most 2·limit - 1 requests per key get through: a
   window opens with an admitted request, so two full windows never fit.
   */
  lemma AdmittedInAnyInterval(run: seq<Request>, rule: Rule, key: string, from: int)
    requires Timed(run) && rule.window > 0
    ensures Admitted(run, |run|, rule, key, from, from + rule.window)
            <= if rule.limit == 0 then 0 else 2 * rule.limit - 1
  {
    if rule.limit == 0 {
      NoneAdmitted(run, |run|, rule, key, from, from + rule.window);
    } else {
      AdmittedWithin(run, |run|, rule, key, from);
    }
  }

  lemma {:induction false} NoneAdmitted(run: seq<Request>, n: nat, rule: Rule, key: string, from: int, to: int)
    requires rule.limit == 0 && n <= |run|
    ensures Admitted(run, n, rule, key, from, to) == 0
    ensures forall k :: k in Buckets(run, n, rule) ==> Buckets(run, n, rule)[k].remaining == 0
  {
    if n > 0 { NoneAdmitted(run, n - 1, rule, key, from, to); }
  }

  /** Request i finds its bucket absent or over and opens a window. */
  predicate Opens(run: seq<Request>, i: nat, rule: Rule)
    requires i < |run|
  {
    !BucketIsOpen(BucketAt(run, i, rule, run[i].key), run[i].now)
  }

  /** In its own window a key gets exactly the first `limit` of its requests through; the bucket holds the rest. */
  lemma {:induction false} OwnWindowAdmitsLimit(run: seq<Request>, i: nat, n: nat, rule: Rule)
    requires Timed(run) && rule.window > 0 && i < n <= |run| && Opens(run, i, rule)
    requires run[n - 1].now < run[i].now + rule.window
    ensures var asked := Asked(run, n, run[i].key, run[i].now, run[i].now + rule.window);
            && asked > 0
            && Admitted(run, n, rule, run[i].key, run[i].now, run[i].now + rule.window)
               == (if asked <= rule.limit then asked else rule.limit)
            && BucketAt(run, n, rule, run[i].key)
               == Some(Bucket(if asked <= rule.limit then rule.limit - asked else 0, run[i].now + rule.window))
    decreases n
  {
    if n - 1 == i {
      NothingSinceOpening(run, i, i, rule);
    } else {
      assert run[n - 2].now <= run[n - 1].now && run[i].now <= run[n - 1].now;
      OwnWindowAdmitsLimit(run, i, n - 1, rule);
    }
  }

  /**
   What each request of a window is told: that it may pass, and how many more may, until `limit` have; then that it may
   not.
   */
  lemma AnswerInOwnWindow(run: seq<Request>, i: nat, n: nat, rule: Rule)
    requires Timed(run) && rule.window > 0 && i <= n < |run| && Opens(run, i, rule)
    requires run[n].key == run[i].key && run[n].now < run[i].now + rule.window
    ensures var earlier := Asked(run, n, run[i].key, run[i].now, run[i].now + rule.window);
            BucketSays(run, n, rule) == if earlier < rule.limit then Decision(true, rule.limit - 1 - earlier)
                                        else Decision(false, 0)
  {
    if i < n {
      assert run[n - 1].now <= run[n].now;
      OwnWindowAdmitsLimit(run, i, n, rule);
    } else {
      NothingSinceOpening(run, i, i, rule);
    }
  }

  /** Before a window opens, no request of its key falls in it. */
  lemma {:induction false} NothingSinceOpening(run: seq<Request>, i: nat, n: nat, rule: Rule)
    requires Timed(run) && rule.window > 0 && n <= i < |run| && Opens(run, i, rule)
    ensures Asked(run, n, run[i].key, run[i].now, run[i].now + rule.window) == 0
    ensures Admitted(run, n, rule, run[i].key, run[i].now, run[i].now + rule.window) == 0
  {
    if n > 0 {
      NothingSinceOpening(run, i, n - 1, rule);
      if run[n - 1].key == run[i].key {
        StaysOpen(run, n - 1, i, rule);
        assert run[n - 1].now <= run[i].now;
      }
    }
  }

  /** After a request its bucket is open for every later instant before some end beyond the request. */
  lemma {:induction false} StaysOpen(run: seq<Request>, j: nat, n: nat, rule: Rule)
    requires Timed(run) && rule.window > 0 && j < n <= |run|
    ensures BucketAt(run, n, rule, run[j].key).Some?
    ensures BucketAt(run, n, rule, run[j].key).value.resetAt > run[j].now
    decreases n
  {
    if n - 1 > j {
      StaysOpen(run, j, n - 1, rule);
      assert run[j].now <= run[n - 1].now;
    }
  }

  // ------------------------------------------------------- the bound is reached

  /** One request opens a window, limit - 1 follow in its last instant, limit more in the next window's first. */
  function Burst(rule: Rule): seq<Request>
    requires rule.window > 0
  {
    seq(2 * rule.limit, i requires 0 <= i =>
      Request("k", if i == 0 then 0 else if i < rule.limit then rule.window - 1 else rule.window))
  }

  /** The bucket after the first n requests of the burst. */
  function BurstBucket(rule: Rule, n: nat): Option<Bucket>
    requires n <= 2 * rule.limit
  {
    if n == 0 then None
    else if n <= rule.limit then Some(Bucket(rule.limit - n, rule.window))
    else Some(Bucket(2 * rule.limit - n, 2 * rule.window))
  }

  lemma BurstHit(rule: Rule, n: nat)
    requires rule.window > 1 && n < 2 * rule.limit
    ensures var hit := BucketHit(BurstBucket(rule, n), rule.limit, rule.window, Burst(rule)[n].now);
            Some(hit.0) == BurstBucket(rule, n + 1) && hit.1.allowed
  {}

  lemma BucketStep(run: seq<Request>, n: nat, rule: Rule)
    requires n < |run|
    ensures BucketAt(run, n + 1, rule, run[n].key)
            == Some(BucketHit(BucketAt(run, n, rule, run[n].key), rule.limit, rule.window, run[n].now).0)
  {}

  lemma {:induction false} BurstBuckets(rule: Rule, n: nat)
    requires rule.window > 1 && n <= 2 * rule.limit
    ensures BucketAt(Burst(rule), n, rule, "k") == BurstBucket(rule, n)
  {
    if n > 0 {
      BurstBuckets(rule, n - 1);
      BucketStep(Burst(rule), n - 1, rule);
      BurstHit(rule, n - 1);
    }
  }

  lemma {:induction false} BurstPasses(rule: Rule, n: nat)
    requires rule.limit > 0 && rule.window > 1 && 0 < n <= 2 * rule.limit
    ensures Admitted(Burst(rule), n, rule, "k", rule.window - 1, 2 * rule.window - 1) == n - 1
  {
    BurstBuckets(rule, n - 1);
    BurstHit(rule, n - 1);
    if n > 1 { BurstPasses(rule, n - 1); }
  }

  /** For every limit and every window longer than one tick some run lets 2·limit - 1 requests through. */
  lemma BoundIsReached(rule: Rule)
    requires rule.limit > 0 && rule.window > 1
    ensures Timed(Burst(rule))
    ensures Admitted(Burst(rule), |Burst(rule)|, rule, "k", rule.window - 1, (rule.window - 1) + rule.window)
            == 2 * rule.limit - 1
  {
    BurstPasses(rule, 2 * rule.limit);
  }
}
