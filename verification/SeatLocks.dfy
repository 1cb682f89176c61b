/**
 User seat locks in Redis: acquisition (one seat of a request, as the acquiring script treats it), release and
 extension. Instants are milliseconds; the steps of one call share one instant.
 */
module SeatLocks {
  import opened Options

  datatype LockKey = LockKey(event: string, seat: string)

  /** The stored record, which does not name its seat; `expiresAt` is None for a key without a time to live. */
  datatype Lock = Lock(user: string, token: string, acquiredAt: nat, extensionCount: nat, maxExtensions: nat,
                       expiresAt: Option<nat>)

  type LockTable = map<LockKey, Lock>

  datatype Reason = LockNotFound | NotOwner | InvalidToken | MaxExtensionsReached
  datatype Failure = Failure(seat: string, reason: Reason)

  /** GET: a lock whose time has run out is gone. */
  predicate IsHeld(locks: LockTable, k: LockKey, now: nat) {
    k in locks && (locks[k].expiresAt.Some? ==> now < locks[k].expiresAt.value)
  }

  /** SET with a time to live in seconds; the adapter writes none when it is zero. */
  function Ttl(now: nat, seconds: nat): Option<nat> {
    if seconds == 0 then None else Some(now + 1000 * seconds)
  }

  function FencingToken(user: string, event: string, timestamp: string, random: string): string {
    user + ":" + event + ":" + timestamp + ":" + random
  }

  /** A seat that is held, by whomever, keeps its lock and its token; a free one gets a new lock. */
  function AcquireOne(locks: LockTable, k: LockKey, user: string, master: string, ttl: nat, maxExtensions: nat,
                      now: nat)
    : LockTable
  {
    if IsHeld(locks, k, now) then locks
    else locks[k := Lock(user, master + ":" + k.seat, now, 0, maxExtensions, Some(now + 1000 * ttl))]
  }

  // -------------------------------------------------------------------- release

  /** Why the seat cannot be released, if it cannot. A token is good if the stored one starts with it. */
  function ReleaseRefusal(locks: LockTable, k: LockKey, user: string, token: string, now: nat): Option<Reason> {
    if !IsHeld(locks, k, now) then Some(LockNotFound)
    else if locks[k].user != user then Some(NotOwner)
    else if !(token <= locks[k].token) then Some(InvalidToken)
    else None
  }

  datatype Released = Released(locks: LockTable, released: seq<string>, failed: seq<Failure>)

  /** The outcome after the first n seats of the request. */
  function ReleaseSome(locks: LockTable, event: string, seats: seq<string>, n: nat, user: string, token: string,
                       now: nat)
    : Released
    requires n <= |seats|
  {
    if n == 0 then Released(locks, [], [])
    else
      var r := ReleaseSome(locks, event, seats, n - 1, user, token, now);
      var k := LockKey(event, seats[n - 1]);
      match ReleaseRefusal(r.locks, k, user, token, now)
      case Some(reason) => r.(failed := r.failed + [Failure(k.seat, reason)])
      case None => r.(locks := r.locks - {k}, released := r.released + [k.seat])
  }

  function ReleaseAll(locks: LockTable, event: string, seats: seq<string>, user: string, token: string, now: nat)
    : Released
  {
    ReleaseSome(locks, event, seats, |seats|, user, token, now)
  }

  // ------------------------------------------------------------------ extension

  /** The owner is checked, the fencing token is not. */
  function ExtendRefusal(locks: LockTable, k: LockKey, user: string, now: nat): Option<Reason> {
    if !IsHeld(locks, k, now) then Some(LockNotFound)
    else if locks[k].user != user then Some(InvalidToken)
    else if locks[k].extensionCount >= locks[k].maxExtensions then Some(MaxExtensionsReached)
    else None
  }

  /** The new time to live counts from now, not from the old expiry. */
  function Extended(lock: Lock, seconds: nat, now: nat): Lock {
    lock.(extensionCount := lock.extensionCount + 1, expiresAt := Ttl(now, seconds))
  }

  datatype Extension = Extension(locks: LockTable, extended: seq<Lock>, failed: seq<Failure>)

  function ExtendSome(locks: LockTable, event: string, seats: seq<string>, n: nat, user: string, seconds: nat, now: nat)
    : Extension
    requires n <= |seats|
  {
    if n == 0 then Extension(locks, [], [])
    else
      var r := ExtendSome(locks, event, seats, n - 1, user, seconds, now);
      var k := LockKey(event, seats[n - 1]);
      match ExtendRefusal(r.locks, k, user, now)
      case Some(reason) => r.(failed := r.failed + [Failure(k.seat, reason)])
      case None =>
        var lock := Extended(r.locks[k], seconds, now);
        r.(locks := r.locks[k := lock], extended := r.extended + [lock])
  }

  function ExtendAll(locks: LockTable, event: string, seats: seq<string>, user: string, seconds: nat, now: nat)
    : Extension
  {
    ExtendSome(locks, event, seats, |seats|, user, seconds, now)
  }

  // -------------------------------------------------------------------- service

  class LockService {
    var locks: LockTable
    var userLocks: map<string, set<string>>

    constructor ()
      ensures locks == map[] && userLocks == map[]
    {
      locks := map[];
      userLocks := map[];
    }

    /** The seats a request names, or, if it names none, the user's recorded seats that belong to the event. */
    method SeatsFor(event: string, seatIds: seq<string>, user: string) returns (seats: seq<string>)
      ensures seatIds != [] ==> seats == seatIds
      ensures seatIds == [] ==>
                && (forall s :: s in seats <==> user in userLocks && s in userLocks[user] && event <= s)
                && forall i, j :: 0 <= i < j < |seats| ==> seats[i] != seats[j]
    {
      if seatIds != [] { return seatIds; }
      seats := [];
      if user !in userLocks { return; }
      var mine := set s | s in userLocks[user] && event <= s;
      var left := mine;
      while left != {}
        invariant left <= mine
        invariant forall s :: s in seats <==> s in mine - left
        invariant forall i, j :: 0 <= i < j < |seats| ==> seats[i] != seats[j]
        decreases left
      {
        var s :| s in left;
        assert s !in seats;
        seats := seats + [s];
        left := left - {s};
      }
    }

    method Release(event: string, seats: seq<string>, user: string, token: string, now: nat)
      returns (released: seq<string>, failed: seq<Failure>)
      modifies this
      ensures Released(locks, released, failed) == ReleaseAll(old(locks), event, seats, user, token, now)
      ensures forall u :: u != user ==> Lookup(userLocks, u) == Lookup(old(userLocks), u)
      ensures user in userLocks ==>
                user in old(userLocks) && userLocks[user] == old(userLocks)[user] - (set s | s in released)
      ensures user in old(userLocks) ==> user in userLocks
    {
      released, failed := [], [];
      var i := 0;
      while i < |seats|
        invariant 0 <= i <= |seats|
        invariant Released(locks, released, failed) == ReleaseSome(old(locks), event, seats, i, user, token, now)
        invariant forall u :: u != user ==> Lookup(userLocks, u) == Lookup(old(userLocks), u)
        invariant user in userLocks <==> user in old(userLocks)
        invariant user in userLocks ==> userLocks[user] == old(userLocks)[user] - (set s | s in released)
      {
        var k := LockKey(event, seats[i]);
        i := i + 1;
        if !IsHeld(locks, k, now) {
          failed := failed + [Failure(k.seat, LockNotFound)];
          continue;
        }
        if locks[k].user != user {
          failed := failed + [Failure(k.seat, NotOwner)];
          continue;
        }
        if !(token <= locks[k].token) {
          failed := failed + [Failure(k.seat, InvalidToken)];
          continue;
        }
        locks := locks - {k};
        if user in userLocks {
          userLocks := userLocks[user := userLocks[user] - {k.seat}];
        }
        released := released + [k.seat];
      }
    }

    method Extend(event: string, seats: seq<string>, user: string, seconds: nat, now: nat)
      returns (extended: seq<Lock>, failed: seq<Failure>, extensionsRemaining: nat)
      modifies this`locks
      ensures Extension(locks, extended, failed) == ExtendAll(old(locks), event, seats, user, seconds, now)
      ensures extended == [] ==> extensionsRemaining == 0
      ensures extended != [] ==>
                var last := extended[|extended| - 1];
                && last.extensionCount <= last.maxExtensions
                && extensionsRemaining == last.maxExtensions - last.extensionCount
    {
      extended, failed, extensionsRemaining := [], [], 0;
      var i := 0;
      while i < |seats|
        invariant 0 <= i <= |seats|
        invariant Extension(locks, extended, failed) == ExtendSome(old(locks), event, seats, i, user, seconds, now)
        invariant extended == [] ==> extensionsRemaining == 0
        invariant extended != [] ==>
                    var last := extended[|extended| - 1];
                    && last.extensionCount <= last.maxExtensions
                    && extensionsRemaining == last.maxExtensions - last.extensionCount
      {
        var k := LockKey(event, seats[i]);
        i := i + 1;
        if !IsHeld(locks, k, now) {
          failed := failed + [Failure(k.seat, LockNotFound)];
          continue;
        }
        var lock := locks[k];
        if lock.user != user {
          failed := failed + [Failure(k.seat, InvalidToken)];
          continue;
        }
        if lock.extensionCount >= lock.maxExtensions {
          failed := failed + [Failure(k.seat, MaxExtensionsReached)];
          continue;
        }
        lock := lock.(extensionCount := lock.extensionCount + 1);
        lock := lock.(expiresAt := Ttl(now, seconds));
        extensionsRemaining := lock.maxExtensions - lock.extensionCount;
        locks := locks[k := lock];
        extended := extended + [lock];
      }
    }
  }

  // ------------------------------------------------------- what release guarantees

  function FailedSeats(failed: seq<Failure>): seq<string> {
    seq(|failed|, i requires 0 <= i < |failed| => failed[i].seat)
  }

  /** A lock stands at k that has no expiry or has not reached it. */
  predicate Stands(locks: LockTable, k: LockKey, now: nat) {
    k in locks && (locks[k].expiresAt == None || locks[k].expiresAt.value > now)
  }

  /** The lock stands, it is the caller's, and its token starts with the one shown. */
  predicate Releasable(locks: LockTable, event: string, seat: string, user: string, token: string, now: nat) {
    var k := LockKey(event, seat);
    Stands(locks, k, now) && locks[k].user == user && token <= locks[k].token
  }

  /** The locks left after n seats: all but the releasable ones named so far, and unchanged. */
  lemma {:induction false} ReleaseSomeLocks(locks: LockTable, event: string, seats: seq<string>, n: nat,
                                            user: string, token: string, now: nat)
    requires n <= |seats|
    ensures var r := ReleaseSome(locks, event, seats, n, user, token, now);
            && (forall k :: k in r.locks <==>
                  k in locks
                  && !(k.event == event && k.seat in seats[..n] && Releasable(locks, event, k.seat, user, token, now)))
            && (forall k :: k in r.locks ==> r.locks[k] == locks[k])
  {
    if n > 0 {
      ReleaseSomeLocks(locks, event, seats, n - 1, user, token, now);
      assert forall s :: s in seats[..n] <==> s in seats[..n - 1] || s == seats[n - 1];
    }
  }

  lemma NamedSoFar(seats: seq<string>, n: nat)
    requires n < |seats|
    ensures forall s :: s in seats[..n + 1] <==> s in seats[..n] || s == seats[n]
  {
    assert seats[..n + 1] == seats[..n] + [seats[n]];
  }

  /** The seats released after n: the releasable ones named so far. */
  lemma {:induction false} ReleaseSomeSeats(locks: LockTable, event: string, seats: seq<string>, n: nat, user: string,
                                            token: string, now: nat)
    requires n <= |seats|
    ensures var r := ReleaseSome(locks, event, seats, n, user, token, now);
            forall s :: s in r.released <==> s in seats[..n] && Releasable(locks, event, s, user, token, now)
  {
    if n > 0 {
      ReleaseSomeSeats(locks, event, seats, n - 1, user, token, now);
      NextRelease(locks, event, seats, n - 1, user, token, now);
      NamedSoFar(seats, n - 1);
    }
  }

  /** The next seat is released iff it is releasable and has not been released yet. */
  lemma NextRelease(locks: LockTable, event: string, seats: seq<string>, n: nat, user: string, token: string, now: nat)
    requires n < |seats|
    ensures var before, s := ReleaseSome(locks, event, seats, n, user, token, now), seats[n];
            Releasable(before.locks, event, s, user, token, now)
            <==> Releasable(locks, event, s, user, token, now) && s !in seats[..n]
  {
    ReleaseSomeLocks(locks, event, seats, n, user, token, now);
  }

  /** No seat is released twice. */
  lemma {:induction false} ReleaseSomeOnce(locks: LockTable, event: string, seats: seq<string>, n: nat, user: string,
                                           token: string, now: nat)
    requires n <= |seats|
    ensures var r := ReleaseSome(locks, event, seats, n, user, token, now);
            forall i, j :: 0 <= i < j < |r.released| ==> r.released[i] != r.released[j]
  {
    if n > 0 {
      ReleaseSomeOnce(locks, event, seats, n - 1, user, token, now);
      ReleaseSomeSeats(locks, event, seats, n - 1, user, token, now);
      NextRelease(locks, event, seats, n - 1, user, token, now);
    }
  }

  lemma FailedSeatsSnoc(failed: seq<Failure>, f: Failure)
    ensures FailedSeats(failed + [f]) == FailedSeats(failed) + [f.seat]
  {}

  /** Each of the first n seats is answered for once. */
  lemma {:induction false} ReleaseSomeCounts(locks: LockTable, event: string, seats: seq<string>, n: nat,
                                             user: string, token: string, now: nat)
    requires n <= |seats|
    ensures var r := ReleaseSome(locks, event, seats, n, user, token, now);
            multiset(r.released) + multiset(FailedSeats(r.failed)) == multiset(seats[..n])
  {
    if n > 0 {
      ReleaseSomeCounts(locks, event, seats, n - 1, user, token, now);
      var before := ReleaseSome(locks, event, seats, n - 1, user, token, now);
      var k := LockKey(event, seats[n - 1]);
      assert seats[..n] == seats[..n - 1] + [k.seat];
      match ReleaseRefusal(before.locks, k, user, token, now)
      case Some(reason) => FailedSeatsSnoc(before.failed, Failure(k.seat, reason));
      case None =>
    }
  }

  /** Whether a seat that is named as often as `named` is refused once for this reason. */
  predicate ReleaseFails(locks: LockTable, event: string, s: string, named: nat, user: string, token: string, now: nat,
                         reason: Reason)
  {
    var k := LockKey(event, s);
    match reason
    case LockNotFound => !Stands(locks, k, now) || (Releasable(locks, event, s, user, token, now) && named > 1)
    case NotOwner => Stands(locks, k, now) && locks[k].user != user
    case InvalidToken => Stands(locks, k, now) && locks[k].user == user && !(token <= locks[k].token)
    case MaxExtensionsReached => false
  }

  /** The reason the next naming of a seat is refused for, if it is. */
  lemma NextReleaseReason(locks: LockTable, event: string, seats: seq<string>, n: nat, user: string, token: string,
                          now: nat)
    requires n < |seats|
    ensures var before, s := ReleaseSome(locks, event, seats, n, user, token, now), seats[n];
            forall reason ::
              ReleaseRefusal(before.locks, LockKey(event, s), user, token, now) == Some(reason)
              <==> match reason
                   case LockNotFound =>
                     !Stands(locks, LockKey(event, s), now)
                     || (Releasable(locks, event, s, user, token, now) && s in seats[..n])
                   case _ => ReleaseFails(locks, event, s, 1, user, token, now, reason)
  {
    ReleaseSomeLocks(locks, event, seats, n, user, token, now);
  }

  lemma {:induction false} ReleaseSomeReasons(locks: LockTable, event: string, seats: seq<string>, n: nat,
                                              user: string, token: string, now: nat, s: string, reason: Reason)
    requires n <= |seats|
    ensures Failure(s, reason) in ReleaseSome(locks, event, seats, n, user, token, now).failed
            <==> s in seats[..n]
                 && ReleaseFails(locks, event, s, multiset(seats[..n])[s], user, token, now, reason)
  {
    if n > 0 {
      ReleaseSomeReasons(locks, event, seats, n - 1, user, token, now, s, reason);
      NextReleaseReason(locks, event, seats, n - 1, user, token, now);
      NamedSoFar(seats, n - 1);
      NamedOneMore(seats, n - 1, s);
      CountOf(seats[..n - 1], s);
    }
  }

  /** Each reason is given exactly when it is the true one; a seat named twice is not found the second time. */
  lemma ReleaseReasons(locks: LockTable, event: string, seats: seq<string>, user: string, token: string, now: nat,
                       s: string, reason: Reason)
    ensures Failure(s, reason) in ReleaseAll(locks, event, seats, user, token, now).failed
            <==> s in seats && ReleaseFails(locks, event, s, multiset(seats)[s], user, token, now, reason)
  {
    ReleaseSomeReasons(locks, event, seats, |seats|, user, token, now, s, reason);
    assert seats[..|seats|] == seats;
  }

  /**
   Release answers for every requested seat exactly once, frees exactly the seats the caller may free,
   and leaves every other lock, in particular every other user's, untouched.
   */
  lemma ReleaseIsExact(locks: LockTable, event: string, seats: seq<string>, user: string, token: string, now: nat)
    ensures var r := ReleaseAll(locks, event, seats, user, token, now);
            && multiset(r.released) + multiset(FailedSeats(r.failed)) == multiset(seats)
            && (forall s :: s in r.released <==> s in seats && Releasable(locks, event, s, user, token, now))
            && (forall k :: k in locks && (locks[k].user != user || k.event != event || k.seat !in seats) ==>
                  k in r.locks)
            && (forall k :: k in r.locks ==> k in locks && r.locks[k] == locks[k])
            && (forall s :: s in r.released ==> LockKey(event, s) !in r.locks)
  {
    ReleaseSomeLocks(locks, event, seats, |seats|, user, token, now);
    ReleaseSomeSeats(locks, event, seats, |seats|, user, token, now);
    ReleaseSomeCounts(locks, event, seats, |seats|, user, token, now);
    assert seats[..|seats|] == seats;
  }

  lemma CountOf(s: seq<string>, x: string)
    ensures x in s <==> multiset(s)[x] > 0
  {}

  lemma {:induction false} NoRepeatsCountOne(s: seq<string>, x: string)
    requires forall i, j :: 0 <= i < j < |s| ==> s[i] != s[j]
    ensures multiset(s)[x] <= 1
  {
    if s != [] {
      NoRepeatsCountOne(s[1..], x);
      assert s == [s[0]] + s[1..];
      if x == s[0] { assert x !in s[1..]; }
    }
  }

  /** A seat ends up both released and failed exactly when it may be released and was named more than once. */
  lemma ReleasedAndFailed(locks: LockTable, event: string, seats: seq<string>, user: string, token: string, now: nat,
                          s: string)
    ensures var r := ReleaseAll(locks, event, seats, user, token, now);
            (s in r.released && s in FailedSeats(r.failed))
            <==> Releasable(locks, event, s, user, token, now) && multiset(seats)[s] > 1
  {
    var r := ReleaseAll(locks, event, seats, user, token, now);
    ReleaseSomeSeats(locks, event, seats, |seats|, user, token, now);
    ReleaseSomeOnce(locks, event, seats, |seats|, user, token, now);
    ReleaseSomeCounts(locks, event, seats, |seats|, user, token, now);
    assert seats[..|seats|] == seats;
    NoRepeatsCountOne(r.released, s);
    CountOf(r.released, s);
    CountOf(FailedSeats(r.failed), s);
    CountOf(seats, s);
  }

  /**
   Releasing with the master token an acquisition returned works iff the acquisition made the lock and it has not
   run out, or the caller held the seat already, still does, and the token stored then starts with the new one.
   */
  lemma AcquireThenReleaseIff(locks: LockTable, k: LockKey, user: string, master: string, ttl: nat, maxExtensions: nat,
                              t0: nat, t1: nat)
    ensures var held := AcquireOne(locks, k, user, master, ttl, maxExtensions, t0);
            var r := ReleaseAll(held, k.event, [k.seat], user, master, t1);
            && (r.released == [k.seat]
                <==> if IsHeld(locks, k, t0)
                     then IsHeld(locks, k, t1) && locks[k].user == user && master <= locks[k].token
                     else t1 < t0 + 1000 * ttl)
            && (r.released == [k.seat] ==> r == Released(locks - {k}, [k.seat], []))
  {
    var held := AcquireOne(locks, k, user, master, ttl, maxExtensions, t0);
    assert ReleaseSome(held, k.event, [k.seat], 0, user, master, t1).locks == held;
    assert master <= master + ":" + k.seat;
    if !IsHeld(locks, k, t0) { assert held - {k} == locks - {k}; }
  }

  lemma ColonPrefix(s: string, x: string, t: string, y: string)
    requires ':' !in s && ':' !in t
    ensures s + ":" + x <= t + ":" + y <==> s == t && x <= y
  {
    var a, b := s + ":" + x, t + ":" + y;
    assert a[|s|] == ':' && b[|t|] == ':';
    assert a[|s| + 1..] == x && b[|t| + 1..] == y;
    if a <= b {
      assert forall i :: 0 <= i < |a| ==> a[i] == b[i];
      assert a[..|s|] == s && b[..|t|] == t;
      assert x == b[|s| + 1..|a|];
    }
  }

  /**
   The master token of a repeated acquisition matches the one stored first exactly when both carry the same
   millisecond and the new random part starts the old one; otherwise release answers that the token is invalid.
   */
  lemma NewMasterMatchesIff(user: string, event: string, seat: string, t0: string, r0: string, t1: string, r1: string)
    requires ':' !in t0 && ':' !in r0 && ':' !in t1 && ':' !in r1
    ensures FencingToken(user, event, t1, r1) <= FencingToken(user, event, t0, r0) + ":" + seat
            <==> t1 == t0 && r1 <= r0
  {
    var p, a, b := user + ":" + event + ":", t1 + ":" + r1, t0 + ":" + (r0 + ":" + seat);
    assert FencingToken(user, event, t1, r1) == p + a;
    assert FencingToken(user, event, t0, r0) + ":" + seat == p + b;
    assert p + a <= p + b <==> a <= b by {
      assert (p + a)[|p|..] == a && (p + b)[|p|..] == b;
      if a <= b { assert p + b == p + a + b[|a|..]; }
      if p + a <= p + b { assert a == (p + b)[|p|..|p| + |a|]; }
    }
    ColonPrefix(t1, r1, t0, r0 + ":" + seat);
    var stored := r0 + ":" + seat;
    assert stored[|r0|] == ':' && stored[..|r0|] == r0;
    if r1 <= stored {
      assert r1 == stored[..|r1|];
    }
    if r1 <= r0 { assert r1 == r0[..|r1|] == stored[..|r1|]; }
  }

  // ----------------------------------------------------- what extension guarantees

  /** The lock stands, it is the caller's, and an extension is left to it; no token is asked for. */
  predicate MayExtend(locks: LockTable, k: LockKey, user: string, now: nat) {
    Stands(locks, k, now) && locks[k].user == user && locks[k].extensionCount < locks[k].maxExtensions
  }

  /** How many of the first n seats of the request extend the lock k: as many as name it, up to what is left to it. */
  function Grants(locks: LockTable, event: string, seats: seq<string>, n: nat, user: string, now: nat, k: LockKey): nat
    requires n <= |seats|
  {
    if k.event != event || !MayExtend(locks, k, user, now) then 0
    else
      var named, left := multiset(seats[..n])[k.seat], locks[k].maxExtensions - locks[k].extensionCount;
      if named <= left then named else left
  }

  function ExtendedTimes(lock: Lock, times: nat, seconds: nat, now: nat): Lock {
    if times == 0 then lock
    else
      var expiry := if seconds == 0 then None else Some(now + 1000 * seconds);
      Lock(lock.user, lock.token, lock.acquiredAt, lock.extensionCount + times, lock.maxExtensions, expiry)
  }

  lemma NamedOneMore(seats: seq<string>, n: nat, s: string)
    requires n < |seats|
    ensures multiset(seats[..n + 1])[s] == multiset(seats[..n])[s] + if s == seats[n] then 1 else 0
  {
    assert seats[..n + 1] == seats[..n] + [seats[n]];
  }

  /** Whether the next seat of the request is extended depends only on the extensions already granted to its lock. */
  lemma NextGrant(locks: LockTable, before: LockTable, event: string, seats: seq<string>, n: nat, user: string,
                  seconds: nat, now: nat)
    requires n < |seats| && before.Keys == locks.Keys
    requires var k := LockKey(event, seats[n]);
             k in locks ==>
               before[k] == ExtendedTimes(locks[k], Grants(locks, event, seats, n, user, now, k), seconds, now)
    ensures var k := LockKey(event, seats[n]);
            var g, g' := Grants(locks, event, seats, n, user, now, k), Grants(locks, event, seats, n + 1, user, now, k);
            && g' == g + (if ExtendRefusal(before, k, user, now) == None then 1 else 0)
            && (k in locks && g' > g ==> Extended(before[k], seconds, now) == ExtendedTimes(locks[k], g', seconds, now))
  {
    NamedOneMore(seats, n, seats[n]);
  }

  lemma {:induction false} ExtendSomeLocks(locks: LockTable, event: string, seats: seq<string>, n: nat, user: string,
                                           seconds: nat, now: nat)
    requires n <= |seats|
    ensures var r := ExtendSome(locks, event, seats, n, user, seconds, now);
            && r.locks.Keys == locks.Keys
            && (forall k :: k in locks ==>
                  r.locks[k] == ExtendedTimes(locks[k], Grants(locks, event, seats, n, user, now, k), seconds, now))
            && |r.extended| + |r.failed| == n
  {
    if n > 0 {
      ExtendSomeLocks(locks, event, seats, n - 1, user, seconds, now);
      var before := ExtendSome(locks, event, seats, n - 1, user, seconds, now);
      var k0 := LockKey(event, seats[n - 1]);
      NextGrant(locks, before.locks, event, seats, n - 1, user, seconds, now);
      forall k | k in locks && k != k0
        ensures Grants(locks, event, seats, n, user, now, k) == Grants(locks, event, seats, n - 1, user, now, k)
      {
        OtherGrant(locks, event, seats, n - 1, user, now, k);
      }
    }
  }

  lemma OtherGrant(locks: LockTable, event: string, seats: seq<string>, n: nat, user: string, now: nat, k: LockKey)
    requires n < |seats| && k != LockKey(event, seats[n])
    ensures Grants(locks, event, seats, n + 1, user, now, k) == Grants(locks, event, seats, n, user, now, k)
  {
    NamedOneMore(seats, n, k.seat);
  }

  function Failures(failed: seq<Failure>, s: string): nat { multiset(FailedSeats(failed))[s] }

  lemma FailuresSnoc(failed: seq<Failure>, f: Failure, s: string)
    ensures Failures(failed + [f], s) == Failures(failed, s) + if f.seat == s then 1 else 0
  {
    FailedSeatsSnoc(failed, f);
  }

  /** The failures and the extensions that the first n seats of a request bring one seat. */
  function Answered(locks: LockTable, event: string, seats: seq<string>, n: nat, user: string, seconds: nat, now: nat,
                    s: string): nat
    requires n <= |seats|
  {
    Failures(ExtendSome(locks, event, seats, n, user, seconds, now).failed, s)
    + Grants(locks, event, seats, n, user, now, LockKey(event, s))
  }

  lemma OtherAnswer(locks: LockTable, event: string, seats: seq<string>, n: nat, user: string, seconds: nat, now: nat,
                    s: string)
    requires n < |seats| && s != seats[n]
    ensures Answered(locks, event, seats, n + 1, user, seconds, now, s)
            == Answered(locks, event, seats, n, user, seconds, now, s)
  {
    OtherGrant(locks, event, seats, n, user, now, LockKey(event, s));
    var before := ExtendSome(locks, event, seats, n, user, seconds, now);
    match ExtendRefusal(before.locks, LockKey(event, seats[n]), user, now)
    case Some(reason) => FailuresSnoc(before.failed, Failure(seats[n], reason), s);
    case None =>
  }

  /** The next naming of a seat extends its lock or fails. */
  lemma NextAnswer(locks: LockTable, event: string, seats: seq<string>, n: nat, user: string, seconds: nat, now: nat)
    requires n < |seats|
    ensures Answered(locks, event, seats, n + 1, user, seconds, now, seats[n])
            == Answered(locks, event, seats, n, user, seconds, now, seats[n]) + 1
  {
    var before := ExtendSome(locks, event, seats, n, user, seconds, now);
    ExtendSomeLocks(locks, event, seats, n, user, seconds, now);
    NextGrant(locks, before.locks, event, seats, n, user, seconds, now);
    match ExtendRefusal(before.locks, LockKey(event, seats[n]), user, now)
    case Some(reason) => FailuresSnoc(before.failed, Failure(seats[n], reason), seats[n]);
    case None =>
  }

  /** Every naming of a seat that does not extend its lock is answered with a failure. */
  lemma {:induction false} ExtendSomeFailures(locks: LockTable, event: string, seats: seq<string>, n: nat, user: string,
                                              seconds: nat, now: nat, s: string)
    requires n <= |seats|
    ensures Answered(locks, event, seats, n, user, seconds, now, s) == multiset(seats[..n])[s]
  {
    if n > 0 {
      ExtendSomeFailures(locks, event, seats, n - 1, user, seconds, now, s);
      NamedOneMore(seats, n - 1, s);
      if s == seats[n - 1] {
        NextAnswer(locks, event, seats, n - 1, user, seconds, now);
      } else {
        OtherAnswer(locks, event, seats, n - 1, user, seconds, now, s);
      }
    } else {
      NothingAnswered(locks, event, seats, user, seconds, now, s);
    }
  }

  lemma NothingAnswered(locks: LockTable, event: string, seats: seq<string>, user: string, seconds: nat, now: nat,
                        s: string)
    ensures Answered(locks, event, seats, 0, user, seconds, now, s) == 0
  {
    assert seats[..0] == [] && FailedSeats([]) == [];
  }

  /** Whether a seat that is named as often as `named` is refused at least once for this reason. */
  predicate ExtendFails(locks: LockTable, event: string, s: string, named: nat, user: string, now: nat, reason: Reason)
  {
    var k := LockKey(event, s);
    match reason
    case LockNotFound => !Stands(locks, k, now)
    case InvalidToken => Stands(locks, k, now) && locks[k].user != user
    case MaxExtensionsReached =>
      && Stands(locks, k, now) && locks[k].user == user
      && locks[k].extensionCount + named > locks[k].maxExtensions
    case NotOwner => false
  }

  /** The reason the next naming of a seat is refused for, if it is. */
  lemma NextExtendReason(locks: LockTable, event: string, seats: seq<string>, n: nat, user: string, seconds: nat,
                         now: nat, reason: Reason)
    requires n < |seats|
    ensures var before, k := ExtendSome(locks, event, seats, n, user, seconds, now), LockKey(event, seats[n]);
            ExtendRefusal(before.locks, k, user, now) == Some(reason)
            <==> ExtendFails(locks, event, k.seat, multiset(seats[..n])[k.seat] + 1, user, now, reason)
  {
    ExtendSomeLocks(locks, event, seats, n, user, seconds, now);
  }

  lemma NextExtendFailure(locks: LockTable, event: string, seats: seq<string>, n: nat, user: string, seconds: nat,
                          now: nat, f: Failure)
    requires n < |seats|
    ensures f in ExtendSome(locks, event, seats, n + 1, user, seconds, now).failed
            <==> f in ExtendSome(locks, event, seats, n, user, seconds, now).failed
                 || (f.seat == seats[n]
                     && ExtendFails(locks, event, f.seat, multiset(seats[..n])[f.seat] + 1, user, now, f.reason))
  {
    NextExtendReason(locks, event, seats, n, user, seconds, now, f.reason);
  }

  /** A seat named once more fails for the reasons it failed for before or for that of its last naming. */
  lemma ExtendFailsOneMore(locks: LockTable, event: string, seats: seq<string>, n: nat, user: string, now: nat,
                           s: string, reason: Reason)
    requires n < |seats|
    ensures s in seats[..n + 1] && ExtendFails(locks, event, s, multiset(seats[..n + 1])[s], user, now, reason)
            <==> (s in seats[..n] && ExtendFails(locks, event, s, multiset(seats[..n])[s], user, now, reason))
                 || (s == seats[n] && ExtendFails(locks, event, s, multiset(seats[..n])[s] + 1, user, now, reason))
  {
    NamedSoFar(seats, n);
    NamedOneMore(seats, n, s);
    CountOf(seats[..n], s);
  }

  lemma {:induction false} ExtendSomeReasons(locks: LockTable, event: string, seats: seq<string>, n: nat,
                                             user: string, seconds: nat, now: nat, s: string, reason: Reason)
    requires n <= |seats|
    ensures Failure(s, reason) in ExtendSome(locks, event, seats, n, user, seconds, now).failed
            <==> s in seats[..n] && ExtendFails(locks, event, s, multiset(seats[..n])[s], user, now, reason)
  {
    if n > 0 {
      ExtendSomeReasons(locks, event, seats, n - 1, user, seconds, now, s, reason);
      NextExtendFailure(locks, event, seats, n - 1, user, seconds, now, Failure(s, reason));
      ExtendFailsOneMore(locks, event, seats, n - 1, user, now, s, reason);
    }
  }

  /** Each reason is given exactly when it is the true one, the third when the namings exceed what is left. */
  lemma ExtendReasons(locks: LockTable, event: string, seats: seq<string>, user: string, seconds: nat, now: nat,
                      s: string, reason: Reason)
    ensures Failure(s, reason) in ExtendAll(locks, event, seats, user, seconds, now).failed
            <==> s in seats && ExtendFails(locks, event, s, multiset(seats)[s], user, now, reason)
  {
    ExtendSomeReasons(locks, event, seats, |seats|, user, seconds, now, s, reason);
    assert seats[..|seats|] == seats;
  }

  /** `lock` is what some extension granted to k among the first n seats left there. */
  ghost predicate IsGrant(locks: LockTable, event: string, seats: seq<string>, n: nat, user: string, seconds: nat,
                          now: nat, lock: Lock, k: LockKey, g: nat)
    requires n <= |seats|
  {
    && k in locks && 1 <= g <= Grants(locks, event, seats, n, user, now, k)
    && lock == ExtendedTimes(locks[k], g, seconds, now)
  }

  lemma ListGrows(locks: LockTable, event: string, seats: seq<string>, n: nat, user: string, seconds: nat, now: nat)
    requires n < |seats|
    ensures ExtendSome(locks, event, seats, n, user, seconds, now).extended
            <= ExtendSome(locks, event, seats, n + 1, user, seconds, now).extended
  {}

  /** A grant that the next naming brings is listed next. */
  lemma NextGrantIsListed(locks: LockTable, event: string, seats: seq<string>, n: nat, user: string, seconds: nat,
                          now: nat)
    requires n < |seats|
    requires var k := LockKey(event, seats[n]);
             Grants(locks, event, seats, n, user, now, k) < Grants(locks, event, seats, n + 1, user, now, k)
    ensures var k := LockKey(event, seats[n]);
            var g := Grants(locks, event, seats, n + 1, user, now, k);
            && k in locks && g == Grants(locks, event, seats, n, user, now, k) + 1
            && ExtendedTimes(locks[k], g, seconds, now)
               in ExtendSome(locks, event, seats, n + 1, user, seconds, now).extended
  {
    ExtendSomeLocks(locks, event, seats, n, user, seconds, now);
    NextGrant(locks, ExtendSome(locks, event, seats, n, user, seconds, now).locks, event, seats, n, user, seconds, now);
  }

  lemma {:induction false} EveryGrantIsListed(locks: LockTable, event: string, seats: seq<string>, n: nat,
                                              user: string, seconds: nat, now: nat, k: LockKey, g: nat)
    requires n <= |seats| && k in locks && 1 <= g <= Grants(locks, event, seats, n, user, now, k)
    ensures ExtendedTimes(locks[k], g, seconds, now) in ExtendSome(locks, event, seats, n, user, seconds, now).extended
  {
    if n > 0 && g <= Grants(locks, event, seats, n - 1, user, now, k) {
      EveryGrantIsListed(locks, event, seats, n - 1, user, seconds, now, k, g);
      ListGrows(locks, event, seats, n - 1, user, seconds, now);
    } else if n > 0 {
      if k != LockKey(event, seats[n - 1]) { OtherGrant(locks, event, seats, n - 1, user, now, k); }
      NextGrantIsListed(locks, event, seats, n - 1, user, seconds, now);
    }
  }

  lemma {:induction false} EveryListedIsGrant(locks: LockTable, event: string, seats: seq<string>, n: nat,
                                              user: string, seconds: nat, now: nat, lock: Lock)
    returns (k: LockKey, g: nat)
    requires n <= |seats| && lock in ExtendSome(locks, event, seats, n, user, seconds, now).extended
    ensures IsGrant(locks, event, seats, n, user, seconds, now, lock, k, g)
  {
    ExtendSomeLocks(locks, event, seats, n - 1, user, seconds, now);
    var before := ExtendSome(locks, event, seats, n - 1, user, seconds, now);
    NextGrant(locks, before.locks, event, seats, n - 1, user, seconds, now);
    if lock in before.extended {
      k, g := EveryListedIsGrant(locks, event, seats, n - 1, user, seconds, now, lock);
      if k != LockKey(event, seats[n - 1]) { OtherGrant(locks, event, seats, n - 1, user, now, k); }
    } else {
      k := LockKey(event, seats[n - 1]);
      g := Grants(locks, event, seats, n, user, now, k);
    }
  }

  /** The locks handed back are those the extensions left, one by one, and no others. */
  lemma ExtendedIsExact(locks: LockTable, event: string, seats: seq<string>, user: string, seconds: nat, now: nat,
                        lock: Lock)
    ensures lock in ExtendAll(locks, event, seats, user, seconds, now).extended
            <==> exists k, g :: IsGrant(locks, event, seats, |seats|, user, seconds, now, lock, k, g)
  {
    if lock in ExtendAll(locks, event, seats, user, seconds, now).extended {
      var k, g := EveryListedIsGrant(locks, event, seats, |seats|, user, seconds, now, lock);
    }
    if k, g :| IsGrant(locks, event, seats, |seats|, user, seconds, now, lock, k, g) {
      EveryGrantIsListed(locks, event, seats, |seats|, user, seconds, now, k, g);
    }
  }

  /**
   Whatever seats a request names, and however often: each lock is extended as many times as `Grants` says, once for
   each naming that finds it standing, the caller's and not used up, and every other naming of it fails; no lock is
   added or removed.
   */
  lemma ExtendIsExact(locks: LockTable, event: string, seats: seq<string>, user: string, seconds: nat, now: nat)
    ensures var r := ExtendAll(locks, event, seats, user, seconds, now);
            && r.locks.Keys == locks.Keys
            && (forall k :: k in locks ==>
                  r.locks[k]
                  == ExtendedTimes(locks[k], Grants(locks, event, seats, |seats|, user, now, k), seconds, now))
            && (forall s ::
                  Failures(r.failed, s) + Grants(locks, event, seats, |seats|, user, now, LockKey(event, s))
                  == multiset(seats)[s])
            && |r.extended| + |r.failed| == |seats|
  {
    ExtendSomeLocks(locks, event, seats, |seats|, user, seconds, now);
    assert seats[..|seats|] == seats;
    forall s
      ensures Failures(ExtendAll(locks, event, seats, user, seconds, now).failed, s)
              + Grants(locks, event, seats, |seats|, user, now, LockKey(event, s)) == multiset(seats)[s]
    {
      ExtendSomeFailures(locks, event, seats, |seats|, user, seconds, now, s);
    }
  }

  /** A request changes exactly the locks it names that stand, are the caller's and have an extension left. */
  lemma ExtendChangesIff(locks: LockTable, event: string, seats: seq<string>, user: string, seconds: nat, now: nat,
                         k: LockKey)
    requires k in locks
    ensures var after := ExtendAll(locks, event, seats, user, seconds, now).locks;
            && k in after
            && (after[k] != locks[k]
                <==> && k.event == event && k.seat in seats
                     && (locks[k].expiresAt.Some? ==> now < locks[k].expiresAt.value)
                     && locks[k].user == user && locks[k].extensionCount < locks[k].maxExtensions)
  {
    ExtendSomeLocks(locks, event, seats, |seats|, user, seconds, now);
    assert seats[..|seats|] == seats;
    CountOf(seats, k.seat);
  }

  /** Nobody extends another user's lock: it stays as it is, and every naming of it fails. */
  lemma OthersLocksAreSafe(locks: LockTable, event: string, seats: seq<string>, user: string, seconds: nat, now: nat,
                           s: string)
    requires var k := LockKey(event, s); k in locks && locks[k].user != user
    ensures var r, k := ExtendAll(locks, event, seats, user, seconds, now), LockKey(event, s);
            && k in r.locks && r.locks[k] == locks[k]
            && Failures(r.failed, s) == multiset(seats)[s]
            && (forall reason :: Failure(s, reason) in r.failed ==>
                  reason == if Stands(locks, k, now) then InvalidToken else LockNotFound)
  {
    ExtendIsExact(locks, event, seats, user, seconds, now);
    var r := ExtendAll(locks, event, seats, user, seconds, now);
    forall reason | Failure(s, reason) in r.failed
      ensures reason == if Stands(locks, LockKey(event, s), now) then InvalidToken else LockNotFound
    {
      ExtendReasons(locks, event, seats, user, seconds, now, s, reason);
    }
  }

  /** A seat just acquired keeps its user and its own token, and its user can extend it as often as allowed. */
  lemma AcquireThenExtend(locks: LockTable, k: LockKey, user: string, master: string, ttl: nat, maxExtensions: nat,
                          t0: nat, seats: seq<string>, caller: string, seconds: nat, t1: nat)
    requires !IsHeld(locks, k, t0) && t1 < t0 + 1000 * ttl
    ensures var held := AcquireOne(locks, k, user, master, ttl, maxExtensions, t0);
            var r := ExtendAll(held, k.event, seats, caller, seconds, t1);
            && k in r.locks && r.locks[k].user == user && r.locks[k].token == master + ":" + k.seat
            && r.locks[k].acquiredAt == t0 && r.locks[k].maxExtensions == maxExtensions
            && r.locks[k].extensionCount
               == (if caller != user then 0
                   else if multiset(seats)[k.seat] <= maxExtensions then multiset(seats)[k.seat]
                   else maxExtensions)
  {
    var held := AcquireOne(locks, k, user, master, ttl, maxExtensions, t0);
    ExtendSomeLocks(held, k.event, seats, |seats|, caller, seconds, t1);
    assert seats[..|seats|] == seats;
  }

  /** The request extends the lock k at least once. */
  predicate IsGranted(locks: LockTable, event: string, seats: seq<string>, user: string, now: nat, k: LockKey) {
    k.event == event && k.seat in seats && MayExtend(locks, k, user, now)
  }

  lemma GrantedLock(locks: LockTable, event: string, seats: seq<string>, user: string, seconds: nat, now: nat,
                    k: LockKey)
    requires k in locks
    ensures var after := ExtendAll(locks, event, seats, user, seconds, now).locks;
            && k in after
            && after[k].expiresAt
               == if IsGranted(locks, event, seats, user, now, k) then Ttl(now, seconds) else locks[k].expiresAt
  {
    ExtendSomeLocks(locks, event, seats, |seats|, user, seconds, now);
    assert seats[..|seats|] == seats;
    CountOf(seats, k.seat);
  }

  /** A request shortens a lock exactly when it extends it by some time, but less than the lock has left. */
  lemma ExtensionShortensIff(locks: LockTable, event: string, seats: seq<string>, user: string, seconds: nat, now: nat,
                             k: LockKey)
    requires k in locks && locks[k].expiresAt.Some?
    ensures var after := ExtendAll(locks, event, seats, user, seconds, now).locks;
            && k in after
            && ((after[k].expiresAt.Some? && after[k].expiresAt.value < locks[k].expiresAt.value)
                <==> IsGranted(locks, event, seats, user, now, k)
                     && 0 < 1000 * seconds < locks[k].expiresAt.value - now)
  {
    GrantedLock(locks, event, seats, user, seconds, now, k);
  }

  datatype Op =
    | Acquire(now: nat, key: LockKey, user: string, token: string, ttl: nat, maxExtensions: nat)
    | ReleaseOp(now: nat, event: string, seats: seq<string>, user: string, token: string)
    | ExtendOp(now: nat, event: string, seats: seq<string>, user: string, seconds: nat)

  function Apply(locks: LockTable, op: Op): LockTable {
    match op
    case Acquire(now, key, user, token, ttl, maxExtensions) =>
      AcquireOne(locks, key, user, token, ttl, maxExtensions, now)
    case ReleaseOp(now, event, seats, user, token) => ReleaseAll(locks, event, seats, user, token, now).locks
    case ExtendOp(now, event, seats, user, seconds) => ExtendAll(locks, event, seats, user, seconds, now).locks
  }

  function After(run: seq<Op>, n: nat): LockTable
    requires n <= |run|
  {
    if n == 0 then map[] else Apply(After(run, n - 1), run[n - 1])
  }

  /** The lock stems from acquisition j and is within that acquisition's budget of time. */
  ghost predicate Budgeted(run: seq<Op>, j: int, k: LockKey, lock: Lock, most: nat) {
    && 0 <= j < |run| && run[j].Acquire? && run[j].key == k && run[j].user == lock.user
    && lock.acquiredAt == run[j].now && lock.maxExtensions == run[j].maxExtensions
    && lock.extensionCount <= lock.maxExtensions
    && lock.expiresAt.Some?
    && lock.expiresAt.value <= run[j].now + 1000 * (run[j].ttl + lock.extensionCount * most)
  }

  ghost predicate BudgetedBefore(run: seq<Op>, n: int, k: LockKey, lock: Lock, most: nat) {
    exists j :: 0 <= j < n && Budgeted(run, j, k, lock, most)
  }

  ghost predicate AllBudgeted(run: seq<Op>, n: int, locks: LockTable, most: nat) {
    forall k :: k in locks ==> BudgetedBefore(run, n, k, locks[k], most)
  }

  /** Every extension adds between 1 and `most` seconds. */
  ghost predicate Bounded(run: seq<Op>, most: nat) {
    forall i :: 0 <= i < |run| && run[i].ExtendOp? ==> 1 <= run[i].seconds <= most
  }

  lemma ExtendedStaysBudgeted(run: seq<Op>, n: int, k: LockKey, lock: Lock, seconds: nat, now: nat, most: nat)
    requires BudgetedBefore(run, n, k, lock, most) && 1 <= seconds <= most
    requires lock.expiresAt.Some? ==> now < lock.expiresAt.value
    requires lock.extensionCount < lock.maxExtensions
    ensures BudgetedBefore(run, n, k, Extended(lock, seconds, now), most)
  {
    var j :| 0 <= j < n && Budgeted(run, j, k, lock, most);
    assert (lock.extensionCount + 1) * most == lock.extensionCount * most + most;
    assert Budgeted(run, j, k, Extended(lock, seconds, now), most);
  }

  lemma {:induction false} ExtendSomeBudgeted(run: seq<Op>, n: int, locks: LockTable, event: string,
                                              seats: seq<string>, m: nat,
                                              user: string, seconds: nat, now: nat, most: nat)
    requires m <= |seats| && 1 <= seconds <= most && AllBudgeted(run, n, locks, most)
    ensures AllBudgeted(run, n, ExtendSome(locks, event, seats, m, user, seconds, now).locks, most)
  {
    if m > 0 {
      ExtendSomeBudgeted(run, n, locks, event, seats, m - 1, user, seconds, now, most);
      var before := ExtendSome(locks, event, seats, m - 1, user, seconds, now).locks;
      var k := LockKey(event, seats[m - 1]);
      if ExtendRefusal(before, k, user, now) == None {
        ExtendedStaysBudgeted(run, n, k, before[k], seconds, now, most);
      }
    }
  }

  lemma BudgetedLater(run: seq<Op>, n: int, locks: LockTable, most: nat)
    requires AllBudgeted(run, n, locks, most)
    ensures AllBudgeted(run, n + 1, locks, most)
  {
    forall k | k in locks ensures BudgetedBefore(run, n + 1, k, locks[k], most) {
      assert BudgetedBefore(run, n, k, locks[k], most);
      var j :| 0 <= j < n && Budgeted(run, j, k, locks[k], most);
    }
  }

  lemma {:induction false} EveryLockBudgeted(run: seq<Op>, n: nat, most: nat)
    requires n <= |run| && Bounded(run, most)
    ensures AllBudgeted(run, n, After(run, n), most)
  {
    if n > 0 {
      EveryLockBudgeted(run, n - 1, most);
      var before, after := After(run, n - 1), After(run, n);
      BudgetedLater(run, n - 1, before, most);
      match run[n - 1]
      case Acquire(now, key, user, token, ttl, maxExtensions) =>
        if after != before { assert Budgeted(run, n - 1, key, after[key], most); }
      case ReleaseOp(now, event, seats, user, token) =>
        ReleaseSomeLocks(before, event, seats, |seats|, user, token, now);
      case ExtendOp(now, event, seats, user, seconds) =>
        ExtendSomeBudgeted(run, n, before, event, seats, |seats|, user, seconds, now, most);
    }
  }

  lemma MulMonotone(a: nat, b: nat, c: nat)
    requires a <= b
    ensures a * c <= b * c
  {}

  /**
   No lock outlives its acquisition plus its time to live plus maxExtensions times the largest extension,
   and no lock is extended more often than its acquisition allowed, in any run.
   */
  lemma LifetimeIsBounded(run: seq<Op>, n: nat, most: nat, k: LockKey) returns (j: nat)
    requires n <= |run| && Bounded(run, most) && k in After(run, n)
    ensures j < n && run[j].Acquire? && run[j].key == k
    ensures After(run, n)[k].extensionCount <= run[j].maxExtensions
    ensures After(run, n)[k].expiresAt.Some?
    ensures After(run, n)[k].expiresAt.value <= run[j].now + 1000 * (run[j].ttl + run[j].maxExtensions * most)
  {
    EveryLockBudgeted(run, n, most);
    var lock := After(run, n)[k];
    assert BudgetedBefore(run, n, k, lock, most);
    j :| 0 <= j < n && Budgeted(run, j, k, lock, most);
    MulMonotone(lock.extensionCount, lock.maxExtensions, most);
  }

  /** The seconds of the latest extension granted to the lock that stands at k after n operations. */
  function LastGrant(run: seq<Op>, n: nat, k: LockKey): Option<nat>
    requires n <= |run|
  {
    if n == 0 then None
    else
      var before, earlier := After(run, n - 1), LastGrant(run, n - 1, k);
      match run[n - 1]
      case Acquire(now, key, _, _, _, _) => if key == k && !IsHeld(before, k, now) then None else earlier
      case ReleaseOp(_, _, _, _, _) => earlier
      case ExtendOp(now, event, seats, user, seconds) =>
        if IsGranted(before, event, seats, user, now, k) then Some(seconds) else earlier
  }

  lemma {:induction false} PermanentIff(run: seq<Op>, n: nat, k: LockKey)
    requires n <= |run| && k in After(run, n)
    ensures After(run, n)[k].expiresAt == None <==> LastGrant(run, n, k) == Some(0)
  {
    if n > 0 {
      var before := After(run, n - 1);
      if k in before { PermanentIff(run, n - 1, k); }
      match run[n - 1]
      case Acquire(now, key, user, token, ttl, maxExtensions) =>
      case ReleaseOp(now, event, seats, user, token) =>
        ReleaseSomeLocks(before, event, seats, |seats|, user, token, now);
      case ExtendOp(now, event, seats, user, seconds) =>
        ExtendSomeLocks(before, event, seats, |seats|, user, seconds, now);
        GrantedLock(before, event, seats, user, seconds, now, k);
    }
  }

  /** In any run a lock is held for ever exactly when the latest extension it was granted was by zero seconds. */
  lemma HeldForeverIff(run: seq<Op>, n: nat, k: LockKey)
    requires n <= |run| && k in After(run, n)
    ensures (forall later: nat :: IsHeld(After(run, n), k, later)) <==> LastGrant(run, n, k) == Some(0)
  {
    PermanentIff(run, n, k);
    var lock := After(run, n)[k];
    if lock.expiresAt.Some? { assert !IsHeld(After(run, n), k, lock.expiresAt.value); }
  }
}
