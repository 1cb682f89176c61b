/**
 The idempotency store over a Redis-like table with NX/XX writes and expiry, and what the routes make
 of its answers. Instants are milliseconds, times to live are seconds. `Begin` is one step.
 */
module IdempotencyStore {
  import opened Options

  datatype Meta = Meta(status: int, headersHash: string, bodyHash: string, responseBody: Option<string>)

  datatype IdemState =
    | Missing
    | InProgress(owner: string, startedAt: nat)
    | Stored(meta: Meta, createdAt: nat)

  datatype Entry = Entry(value: IdemState, expiresAt: nat)
  type Table = map<string, Entry>

  predicate IsLive(slot: Option<Entry>, now: nat) {
    slot.Some? && now < slot.value.expiresAt
  }

  function Expiry(now: nat, ttlSec: nat): nat {
    now + 1000 * ttlSec
  }

  // ---------------------------------------------------------- one key at a time

  /** begin on one key: the slot afterwards and the state returned. */
  function BeginSlot(slot: Option<Entry>, owner: string, now: nat, ttlSec: nat): (Option<Entry>, IdemState) {
    if IsLive(slot, now) then (slot, slot.value.value)
    else (Some(Entry(InProgress(owner, now), Expiry(now, ttlSec))), InProgress(owner, now))
  }

  function CommitSlot(slot: Option<Entry>, meta: Meta, now: nat, ttlSec: nat): Option<Entry> {
    if IsLive(slot, now) then Some(Entry(Stored(meta, now), Expiry(now, ttlSec))) else slot
  }

  datatype Flag = NX | XX

  class Store {
    var table: Table

    constructor ()
      ensures table == map[]
    {
      table := map[];
    }

    /** SET key value EX ttl NX|XX. */
    method Set(key: string, value: IdemState, ttlSec: nat, flag: Flag, now: nat) returns (ok: bool)
      modifies this
      ensures ok == (IsLive(Lookup(old(table), key), now) <==> flag == XX)
      ensures table == if ok then old(table)[key := Entry(value, Expiry(now, ttlSec))] else old(table)
    {
      var live := key in table && now < table[key].expiresAt;
      if (flag == NX && live) || (flag == XX && !live) { return false; }
      table := table[key := Entry(value, Expiry(now, ttlSec))];
      return true;
    }

    method Get(key: string, now: nat) returns (state: IdemState)
      ensures state == if IsLive(Lookup(table, key), now) then table[key].value else Missing
    {
      if key in table && now < table[key].expiresAt { return table[key].value; }
      return Missing;
    }

    method Begin(key: string, owner: string, ttlSec: nat, now: nat) returns (state: IdemState)
      modifies this
      ensures (Lookup(table, key), state) == BeginSlot(Lookup(old(table), key), owner, now, ttlSec)
      ensures forall k :: k != key ==> Lookup(table, k) == Lookup(old(table), k)
    {
      var pending := InProgress(owner, now);
      var ok := Set(key, pending, ttlSec, NX, now);
      if ok { return pending; }
      state := Get(key, now);
    }

    method Commit(key: string, meta: Meta, ttlSec: nat, now: nat)
      modifies this
      ensures Lookup(table, key) == CommitSlot(Lookup(old(table), key), meta, now, ttlSec)
      ensures forall k :: k != key ==> Lookup(table, k) == Lookup(old(table), k)
    {
      var _ := Set(key, Stored(meta, now), ttlSec, XX, now);
    }
  }

  // --------------------------------------------------------- what a route does

  datatype Decision = GoAhead | Answer202 | Replay(status: int, body: Option<string>)

  /** The branches at the head of every idempotent handler; an empty stored body is not replayed. */
  function Decide(state: IdemState, requestId: string): Decision {
    match state
    case Missing => GoAhead
    case InProgress(owner, _) => if owner != requestId then Answer202 else GoAhead
    case Stored(meta, _) => Replay(meta.status, if meta.responseBody == Some("") then None else meta.responseBody)
  }

  // ---------------------------------------------------------------------- runs

  datatype Event =
    | BeginAt(now: nat, key: string, request: string, ttlSec: nat)
    | CommitAt(now: nat, key: string, request: string, meta: Meta, ttlSec: nat)

  function Apply(table: Table, e: Event): Table {
    match e
    case BeginAt(now, key, request, ttlSec) =>
      table[key := BeginSlot(Lookup(table, key), request, now, ttlSec).0.value]
    case CommitAt(now, key, _, meta, ttlSec) =>
      var slot := CommitSlot(Lookup(table, key), meta, now, ttlSec);
      if slot.Some? then table[key := slot.value] else table
  }

  /** The table after the first `n` events of a run that starts empty. */
  function After(run: seq<Event>, n: nat): Table
    requires n <= |run|
  {
    if n == 0 then map[] else Apply(After(run, n - 1), run[n - 1])
  }

  function Slot(run: seq<Event>, n: nat, key: string): Option<Entry>
    requires n <= |run|
  {
    Lookup(After(run, n), key)
  }

  predicate IsBegin(run: seq<Event>, i: int, key: string) {
    0 <= i < |run| && run[i].BeginAt? && run[i].key == key
  }

  predicate IsCommit(run: seq<Event>, i: int, key: string) {
    0 <= i < |run| && run[i].CommitAt? && run[i].key == key
  }

  function Answer(run: seq<Event>, i: nat): IdemState
    requires i < |run| && run[i].BeginAt?
  {
    BeginSlot(Slot(run, i, run[i].key), run[i].request, run[i].now, run[i].ttlSec).1
  }

  /** What the route does on the store's answer. */
  function Reply(run: seq<Event>, i: nat): Decision
    requires i < |run| && run[i].BeginAt?
  {
    Decide(Answer(run, i), run[i].request)
  }

  predicate GoesAhead(run: seq<Event>, i: int, key: string) {
    IsBegin(run, i, key) && Reply(run, i) == GoAhead
  }

  ghost predicate Timed(run: seq<Event>) {
    forall i, j :: 0 <= i < j < |run| ==> run[i].now <= run[j].now
  }

  ghost predicate DistinctRequests(run: seq<Event>) {
    forall i, j :: 0 <= i < j < |run| && run[i].BeginAt? && run[j].BeginAt? ==> run[i].request != run[j].request
  }

  /** On this key every begin uses time to live `pending` and every commit `stored`. */
  ghost predicate Ttls(run: seq<Event>, key: string, pending: nat, stored: nat) {
    && (forall i :: IsBegin(run, i, key) ==> run[i].ttlSec == pending)
    && (forall i :: IsCommit(run, i, key) ==> run[i].ttlSec == stored)
  }

  /** A run as the routes produce it: a clock that does not go back, fresh request ids, fixed times to live. */
  ghost predicate Regular(run: seq<Event>, key: string, pending: nat, stored: nat) {
    Timed(run) && DistinctRequests(run) && Ttls(run, key, pending, stored) && 0 < pending <= stored
  }

  // ------------------------------------------------------------------- lemmas

  lemma SlotStep(run: seq<Event>, n: nat, key: string)
    requires n < |run|
    ensures var before, after := Slot(run, n, key), Slot(run, n + 1, key);
            && (run[n].key != key ==> after == before)
            && (IsBegin(run, n, key) ==> after == BeginSlot(before, run[n].request, run[n].now, run[n].ttlSec).0)
            && (IsCommit(run, n, key) ==> after == CommitSlot(before, run[n].meta, run[n].now, run[n].ttlSec))
  {}

  /** A pending mark carries the id of a request that began earlier. */
  lemma {:induction false} PendingOwner(run: seq<Event>, n: nat, key: string)
    requires n <= |run|
    ensures var s := Slot(run, n, key);
            s.Some? && s.value.value.InProgress? ==>
              exists i :: 0 <= i < n && run[i].BeginAt? && run[i].request == s.value.value.owner
    ensures Slot(run, n, key).Some? ==> !Slot(run, n, key).value.value.Missing?
  {
    if n > 0 {
      PendingOwner(run, n - 1, key);
      SlotStep(run, n - 1, key);
      if IsBegin(run, n - 1, key) { assert run[n - 1].BeginAt?; }
    }
  }

  /** With fresh request ids a request goes ahead exactly when the key is not live. */
  lemma GoesAheadIffDead(run: seq<Event>, i: nat, key: string)
    requires IsBegin(run, i, key) && DistinctRequests(run)
    ensures GoesAhead(run, i, key) <==> !IsLive(Slot(run, i, key), run[i].now)
  {
    PendingOwner(run, i, key);
    var s := Slot(run, i, key);
    if IsLive(s, run[i].now) && s.value.value.InProgress? {
      var j :| 0 <= j < i && run[j].BeginAt? && run[j].request == s.value.value.owner;
      assert run[j].request != run[i].request;
    }
  }

  /** From a go-ahead on, the key does not expire before the pending time to live is over, late commits included. */
  lemma {:induction false} HeldFor(run: seq<Event>, i: nat, n: nat, key: string, pending: nat, stored: nat)
    requires Regular(run, key, pending, stored) && GoesAhead(run, i, key) && i < n <= |run|
    ensures Slot(run, n, key).Some? && Slot(run, n, key).value.expiresAt >= Expiry(run[i].now, pending)
    decreases n
  {
    SlotStep(run, n - 1, key);
    GoesAheadIffDead(run, i, key);
    if n - 1 > i {
      HeldFor(run, i, n - 1, key, pending, stored);
      assert run[i].now <= run[n - 1].now;
      assert IsBegin(run, n - 1, key) ==> run[n - 1].ttlSec == pending;
      assert IsCommit(run, n - 1, key) ==> run[n - 1].ttlSec == stored;
    }
  }

  /** Two go-aheads for one key are at least the pending time to live apart. */
  lemma GoAheadsApart(run: seq<Event>, i: nat, j: nat, key: string, pending: nat, stored: nat)
    requires Regular(run, key, pending, stored)
    requires i < j && GoesAhead(run, i, key) && GoesAhead(run, j, key)
    ensures run[j].now >= Expiry(run[i].now, pending)
  {
    HeldFor(run, i, j, key, pending, stored);
    GoesAheadIffDead(run, j, key);
  }

  /** The stored status with the stored body, if there is one and it is not empty. */
  function ReplayOf(meta: Meta): Decision {
    Replay(meta.status, if meta.responseBody.Some? && |meta.responseBody.value| > 0 then meta.responseBody else None)
  }

  /** The latest commit on the key among events c..m-1. */
  function LatestCommit(run: seq<Event>, key: string, c: nat, m: nat): (r: nat)
    requires IsCommit(run, c, key) && c < m <= |run|
    ensures c <= r < m && IsCommit(run, r, key)
    ensures forall i :: r < i < m ==> !IsCommit(run, i, key)
    decreases m
  {
    if IsCommit(run, m - 1, key) then m - 1 else LatestCommit(run, key, c, m - 1)
  }

  lemma {:induction false} StoredSince(run: seq<Event>, c: nat, m: nat, key: string, pending: nat, stored: nat)
    requires Regular(run, key, pending, stored)
    requires IsCommit(run, c, key) && IsLive(Slot(run, c, key), run[c].now)
    requires c < m <= |run| && run[m - 1].now < Expiry(run[c].now, stored)
    ensures var r := LatestCommit(run, key, c, m);
            Slot(run, m, key) == Some(Entry(Stored(run[r].meta, run[r].now), Expiry(run[r].now, stored)))
    decreases m
  {
    SlotStep(run, m - 1, key);
    if c < m - 1 {
      assert run[m - 2].now <= run[m - 1].now;
      StoredSince(run, c, m - 1, key, pending, stored);
      var r := LatestCommit(run, key, c, m - 1);
      assert run[c].now <= run[r].now;
    }
  }

  /**
   After a commit that finds its key live, every begin within the stored time to live is answered with the latest
   commit so far, its status and, unless it is missing or empty, its body; none goes ahead.
   */
  lemma ReplaysLatestCommit(run: seq<Event>, c: nat, m: nat, key: string, pending: nat, stored: nat)
    requires Regular(run, key, pending, stored)
    requires IsCommit(run, c, key) && IsLive(Slot(run, c, key), run[c].now)
    requires c < m && IsBegin(run, m, key) && run[m].now < Expiry(run[c].now, stored)
    ensures var r := LatestCommit(run, key, c, m);
            && Answer(run, m) == Stored(run[r].meta, run[r].now)
            && Reply(run, m) == ReplayOf(run[r].meta)
    ensures !GoesAhead(run, m, key)
  {
    assert run[m - 1].now <= run[m].now;
    StoredSince(run, c, m, key, pending, stored);
    assert run[c].now <= run[LatestCommit(run, key, c, m)].now;
  }

  // ------------------------------------------------ the three replies, by history

  predicate NoCommitBetween(run: seq<Event>, i: int, m: int, key: string) {
    forall j :: i < j < m ==> !IsCommit(run, j, key)
  }

  /** Request g went ahead less than the pending time to live before event m, and nothing was committed since. */
  ghost predicate IsPendingAt(run: seq<Event>, g: int, m: int, key: string, pending: nat) {
    && g < m < |run| && GoesAhead(run, g, key) && NoCommitBetween(run, g, m, key)
    && run[m].now < run[g].now + 1000 * pending
  }

  /** Commit r, the latest before event m and younger than the stored time to live, found its key live. */
  ghost predicate IsStoredAt(run: seq<Event>, r: int, m: int, key: string, stored: nat) {
    && 0 <= r < m < |run| && IsCommit(run, r, key) && NoCommitBetween(run, r, m, key)
    && IsLive(Slot(run, r, key), run[r].now)
    && run[m].now < run[r].now + 1000 * stored
  }

  lemma {:induction false} StillPending(run: seq<Event>, g: nat, n: nat, key: string, pending: nat, stored: nat)
    requires Regular(run, key, pending, stored) && GoesAhead(run, g, key) && NoCommitBetween(run, g, n, key)
    requires g < n <= |run| && run[n - 1].now < Expiry(run[g].now, pending)
    ensures Slot(run, n, key) == Some(Entry(InProgress(run[g].request, run[g].now), Expiry(run[g].now, pending)))
    decreases n
  {
    SlotStep(run, n - 1, key);
    if g < n - 1 {
      assert run[n - 2].now <= run[n - 1].now;
      StillPending(run, g, n - 1, key, pending, stored);
      assert !IsCommit(run, n - 1, key);
    } else {
      GoesAheadIffDead(run, g, key);
      assert IsBegin(run, g, key) && run[g].ttlSec == pending;
    }
  }

  /** Event w was the last to write the key before event n. */
  ghost predicate WrittenAt(run: seq<Event>, w: int, n: int, key: string, pending: nat, stored: nat) {
    && 0 <= w < n <= |run| && Slot(run, n, key).Some?
    && (forall i :: w < i < n && IsCommit(run, i, key) ==> run[i].now >= Slot(run, n, key).value.expiresAt)
    && ((GoesAhead(run, w, key)
         && Slot(run, n, key) == Some(Entry(InProgress(run[w].request, run[w].now), Expiry(run[w].now, pending))))
        || (IsCommit(run, w, key) && IsLive(Slot(run, w, key), run[w].now)
            && Slot(run, n, key) == Some(Entry(Stored(run[w].meta, run[w].now), Expiry(run[w].now, stored)))))
  }

  lemma {:induction false} LastWrite(run: seq<Event>, n: nat, key: string, pending: nat, stored: nat)
    returns (w: nat)
    requires Regular(run, key, pending, stored) && n <= |run| && Slot(run, n, key).Some?
    ensures WrittenAt(run, w, n, key, pending, stored)
    decreases n
  {
    SlotStep(run, n - 1, key);
    w := n - 1;
    var writes := IsBegin(run, w, key) <==> !IsLive(Slot(run, w, key), run[w].now);
    if run[w].key == key && writes {
      if IsBegin(run, w, key) { GoesAheadIffDead(run, w, key); }
    } else {
      w := LastWrite(run, n - 1, key, pending, stored);
    }
  }

  /** A live pending mark stems from a pending request, a live response from a stored one. */
  lemma WriterTells(run: seq<Event>, w: int, m: nat, key: string, pending: nat, stored: nat)
    requires Regular(run, key, pending, stored) && IsBegin(run, m, key) && WrittenAt(run, w, m, key, pending, stored)
    requires IsLive(Slot(run, m, key), run[m].now)
    ensures Slot(run, m, key).value.value.InProgress? ==> IsPendingAt(run, w, m, key, pending)
    ensures Slot(run, m, key).value.value.Stored? ==> IsStoredAt(run, w, m, key, stored)
  {
    forall j | w < j < m ensures !IsCommit(run, j, key) {
      assert run[j].now <= run[m].now;
    }
  }

  lemma StoredTells(run: seq<Event>, r: int, m: nat, key: string, pending: nat, stored: nat)
    requires Regular(run, key, pending, stored) && IsBegin(run, m, key) && IsStoredAt(run, r, m, key, stored)
    ensures Reply(run, m) == ReplayOf(run[r].meta)
  {
    ReplaysLatestCommit(run, r, m, key, pending, stored);
    assert LatestCommit(run, key, r, m) == r;
  }

  lemma PendingTells(run: seq<Event>, g: int, m: nat, key: string, pending: nat, stored: nat)
    requires Regular(run, key, pending, stored) && IsBegin(run, m, key) && IsPendingAt(run, g, m, key, pending)
    ensures Reply(run, m) == Answer202
  {
    assert run[m - 1].now <= run[m].now;
    StillPending(run, g, m, key, pending, stored);
    assert run[g].request != run[m].request;
  }

  /**
   The three replies of a route, told from the history alone: 202 iff a request that went ahead is pending, a replay
   iff a response is stored, and that response, status and body; and the request goes ahead iff neither is so.
   */
  lemma RepliesByHistory(run: seq<Event>, m: nat, key: string, pending: nat, stored: nat)
    requires Regular(run, key, pending, stored) && IsBegin(run, m, key)
    ensures Reply(run, m) == Answer202 <==> exists g :: IsPendingAt(run, g, m, key, pending)
    ensures Reply(run, m).Replay? <==> exists r :: IsStoredAt(run, r, m, key, stored)
    ensures Reply(run, m) == GoAhead
            <==> !(exists g :: IsPendingAt(run, g, m, key, pending))
                 && !(exists r :: IsStoredAt(run, r, m, key, stored))
    ensures forall r :: IsStoredAt(run, r, m, key, stored) ==>
              var meta := run[r].meta;
              var body := meta.responseBody;
              Reply(run, m) == Replay(meta.status, if body == None || body == Some("") then None else body)
  {
    forall g | IsPendingAt(run, g, m, key, pending) ensures Reply(run, m) == Answer202 {
      PendingTells(run, g, m, key, pending, stored);
    }
    forall r | IsStoredAt(run, r, m, key, stored) ensures Reply(run, m) == ReplayOf(run[r].meta) {
      StoredTells(run, r, m, key, pending, stored);
    }
    GoesAheadIffDead(run, m, key);
    if IsLive(Slot(run, m, key), run[m].now) {
      var w := LastWrite(run, m, key, pending, stored);
      WriterTells(run, w, m, key, pending, stored);
    }
  }

  /** Commits come from requests that went ahead, at most one each. */
  ghost predicate CommitsEarned(run: seq<Event>, key: string) {
    && (forall i :: IsCommit(run, i, key) ==>
          exists g :: 0 <= g < i && GoesAhead(run, g, key) && run[g].request == run[i].request)
    && (forall i, j :: IsCommit(run, i, key) && IsCommit(run, j, key) && run[i].request == run[j].request ==> i == j)
  }

  /** A request that went ahead before event n and has not committed by then. */
  ghost predicate IsOpen(run: seq<Event>, h: int, n: int, key: string) {
    && h < n && GoesAhead(run, h, key)
    && forall i :: 0 <= i < n && IsCommit(run, i, key) ==> run[i].request != run[h].request
  }

  ghost predicate NoneOpen(run: seq<Event>, n: int, key: string) {
    forall h: nat :: !IsOpen(run, h, n, key)
  }

  /** While a response is stored, further commits come from requests that were open when it was committed. */
  lemma LaterCommitWasOpen(run: seq<Event>, c: nat, i: nat, key: string, pending: nat, stored: nat) returns (h: nat)
    requires Regular(run, key, pending, stored) && CommitsEarned(run, key)
    requires IsCommit(run, c, key) && IsLive(Slot(run, c, key), run[c].now)
    requires c < i && IsCommit(run, i, key) && run[i].now < Expiry(run[c].now, stored)
    ensures IsOpen(run, h, c + 1, key) && run[h].request == run[i].request
  {
    h :| 0 <= h < i && GoesAhead(run, h, key) && run[h].request == run[i].request;
    if h > c {
      assert run[h].now <= run[i].now;
      ReplaysLatestCommit(run, c, h, key, pending, stored);
      assert false;
    }
  }

  /** If nobody is open at a commit that finds its key live, no other commit follows within the stored time to live. */
  lemma {:induction false} LatestIsThis(run: seq<Event>, c: nat, m: nat, key: string, pending: nat, stored: nat)
    requires Regular(run, key, pending, stored) && CommitsEarned(run, key)
    requires IsCommit(run, c, key) && IsLive(Slot(run, c, key), run[c].now)
    requires c < m <= |run| && run[m - 1].now < Expiry(run[c].now, stored)
    requires NoneOpen(run, c + 1, key)
    ensures LatestCommit(run, key, c, m) == c
  {
    var r := LatestCommit(run, key, c, m);
    if r > c {
      assert run[r].now <= run[m - 1].now;
      var h := LaterCommitWasOpen(run, c, r, key, pending, stored);
      assert false;
    }
  }

  /**
   A request that commits before its pending mark runs out, first on its key or not: within the stored time to
   live nobody goes ahead; whoever commits meanwhile went ahead earlier and overran; and a begin replays this
   response exactly when the latest commit carries it.
   */
  lemma CommitInTime(run: seq<Event>, g: nat, c: nat, m: nat, key: string, pending: nat, stored: nat)
    requires Regular(run, key, pending, stored) && CommitsEarned(run, key)
    requires GoesAhead(run, g, key) && g < c && IsCommit(run, c, key) && run[c].request == run[g].request
    requires run[c].now < Expiry(run[g].now, pending)
    requires c < m && IsBegin(run, m, key)
    ensures GoesAhead(run, m, key) ==> run[m].now >= Expiry(run[c].now, stored)
    ensures run[m].now < Expiry(run[c].now, stored) ==>
              && (forall i :: c < i < m && IsCommit(run, i, key) ==>
                    exists h: nat :: h < g && GoesAhead(run, h, key) && run[h].request == run[i].request
                                     && run[i].now >= Expiry(run[h].now, pending))
              && var r := LatestCommit(run, key, c, m);
                 && Reply(run, m) == ReplayOf(run[r].meta)
                 && (Answer(run, m) == Stored(run[c].meta, run[c].now)
                     <==> run[r].meta == run[c].meta && run[r].now == run[c].now)
  {
    HeldFor(run, g, c, key, pending, stored);
    if run[m].now < Expiry(run[c].now, stored) {
      ReplaysLatestCommit(run, c, m, key, pending, stored);
      forall i | c < i < m && IsCommit(run, i, key)
        ensures exists h: nat :: h < g && GoesAhead(run, h, key) && run[h].request == run[i].request
                                 && run[i].now >= Expiry(run[h].now, pending)
      {
        assert run[i].now <= run[m].now;
        var h := LaterCommitWasOpen(run, c, i, key, pending, stored);
        assert run[h].now <= run[c].now <= run[i].now;
        if h > g {
          GoAheadsApart(run, g, h, key, pending, stored);
          assert false;
        }
        assert h != g;
        GoAheadsApart(run, h, g, key, pending, stored);
        assert run[g].now <= run[i].now;
      }
    }
  }

  // -------------------------------------------- when a response is replayed for sure

  /** A possible later history: the run so far, and then whatever regular requests may bring. */
  ghost predicate Continues(past: seq<Event>, run: seq<Event>, key: string, pending: nat, stored: nat) {
    past <= run && Regular(run, key, pending, stored) && CommitsEarned(run, key)
  }

  /** In every continuation each begin within the stored time to live of the last event, a commit, replays it. */
  ghost predicate AlwaysReplayed(past: seq<Event>, key: string, pending: nat, stored: nat)
    requires past != [] && IsCommit(past, |past| - 1, key)
  {
    var c := |past| - 1;
    forall run: seq<Event>, m: nat ::
      Continues(past, run, key, pending, stored) && IsBegin(run, m, key) && c < m
      && run[m].now < Expiry(past[c].now, stored)
      ==> Reply(run, m) == ReplayOf(past[c].meta)
  }

  lemma {:induction false} PastIsKept(past: seq<Event>, run: seq<Event>, n: nat)
    requires past <= run && n <= |past|
    ensures After(run, n) == After(past, n)
  {
    if n > 0 { PastIsKept(past, run, n - 1); }
  }

  lemma SameGoAheads(past: seq<Event>, run: seq<Event>, h: nat, key: string)
    requires past <= run && h < |past|
    ensures GoesAhead(run, h, key) <==> GoesAhead(past, h, key)
    ensures IsCommit(run, h, key) <==> IsCommit(past, h, key)
  {
    PastIsKept(past, run, h);
  }

  lemma SameOpen(past: seq<Event>, run: seq<Event>, h: nat, key: string)
    requires past <= run
    ensures IsOpen(run, h, |past|, key) <==> IsOpen(past, h, |past|, key)
  {
    if h < |past| {
      SameGoAheads(past, run, h, key);
      assert forall i :: 0 <= i < |past| ==> run[i] == past[i];
    }
  }

  /** A request id longer than every one used so far. */
  function FreshRequest(run: seq<Event>): (id: string)
    ensures forall i :: 0 <= i < |run| ==> |run[i].request| < |id|
  {
    if run == [] then "r"
    else
      var id, last := FreshRequest(run[..|run| - 1]), run[|run| - 1].request;
      assert forall i :: 0 <= i < |run| - 1 ==> run[i] == run[..|run| - 1][i];
      id + last
  }

  /** One more begin, at the instant of the last event, by a request not seen before. */
  lemma BeginContinues(past: seq<Event>, key: string, pending: nat, stored: nat) returns (run: seq<Event>)
    requires past != [] && Regular(past, key, pending, stored) && CommitsEarned(past, key)
    ensures Continues(past, run, key, pending, stored) && |run| == |past| + 1
    ensures IsBegin(run, |past|, key) && run[|past|].now == past[|past| - 1].now
  {
    run := past + [BeginAt(past[|past| - 1].now, key, FreshRequest(past), pending)];
    CommitsStayEarned(past, run, key);
  }

  lemma CommitsStayEarned(past: seq<Event>, run: seq<Event>, key: string)
    requires past <= run && CommitsEarned(past, key)
    requires forall i :: |past| <= i < |run| ==> !IsCommit(run, i, key)
    ensures CommitsEarned(run, key)
  {
    forall i | IsCommit(run, i, key)
      ensures IsCommit(past, i, key)
      ensures exists g :: 0 <= g < i && GoesAhead(run, g, key) && run[g].request == run[i].request
    {
      assert IsCommit(past, i, key);
      var g :| 0 <= g < i && GoesAhead(past, g, key) && past[g].request == past[i].request;
      SameGoAheads(past, run, g, key);
    }
  }

  /** The open request h commits something else, at the instant of the last event. */
  lemma OpenRequestCommits(past: seq<Event>, h: nat, key: string, pending: nat, stored: nat, meta: Meta)
    returns (run: seq<Event>)
    requires past != [] && Regular(past, key, pending, stored) && CommitsEarned(past, key)
    requires IsOpen(past, h, |past|, key)
    ensures Continues(past, run, key, pending, stored) && |run| == |past| + 1
    ensures run[|past|] == CommitAt(past[|past| - 1].now, key, past[h].request, meta, stored)
  {
    run := past + [CommitAt(past[|past| - 1].now, key, past[h].request, meta, stored)];
    forall i | IsCommit(run, i, key)
      ensures exists g :: 0 <= g < i && GoesAhead(run, g, key) && run[g].request == run[i].request
    {
      var _ := CommitterWentAhead(past, run, h, i, key);
    }
    NoRequestCommitsTwice(past, run, h, key);
  }

  lemma CommitterWentAhead(past: seq<Event>, run: seq<Event>, h: nat, i: nat, key: string) returns (g: nat)
    requires past <= run && |run| == |past| + 1 && CommitsEarned(past, key) && IsCommit(run, i, key)
    requires IsOpen(past, h, |past|, key) && run[|past|].request == past[h].request
    ensures g < i && GoesAhead(run, g, key) && run[g].request == run[i].request
  {
    g := h;
    if i < |past| {
      assert IsCommit(past, i, key);
      g :| 0 <= g < i && GoesAhead(past, g, key) && past[g].request == past[i].request;
    }
    SameGoAheads(past, run, g, key);
  }

  lemma NoRequestCommitsTwice(past: seq<Event>, run: seq<Event>, h: nat, key: string)
    requires past <= run && |run| == |past| + 1 && CommitsEarned(past, key)
    requires IsOpen(past, h, |past|, key) && run[|past|].request == past[h].request
    ensures forall i, j :: IsCommit(run, i, key) && IsCommit(run, j, key) && run[i].request == run[j].request ==> i == j
  {
    forall i, j | IsCommit(run, i, key) && IsCommit(run, j, key) && run[i].request == run[j].request ensures i == j {
      assert i < |past| ==> IsCommit(past, i, key);
      assert j < |past| ==> IsCommit(past, j, key);
    }
  }

  /** A commit onto a key that has expired writes nothing, and the next begin is not answered with it. */
  lemma LostCommitIsNotReplayed(past: seq<Event>, key: string, pending: nat, stored: nat)
    requires Regular(past, key, pending, stored) && CommitsEarned(past, key)
    requires past != [] && IsCommit(past, |past| - 1, key)
    requires !IsLive(Slot(past, |past| - 1, key), past[|past| - 1].now)
    ensures !AlwaysReplayed(past, key, pending, stored)
  {
    var run := BeginContinues(past, key, pending, stored);
    PastIsKept(past, run, |past|);
    SlotStep(past, |past| - 1, key);
    assert !Answer(run, |past|).Stored?;
  }

  lemma OpenRequestSpoils(past: seq<Event>, h: nat, key: string, pending: nat, stored: nat)
    requires Regular(past, key, pending, stored) && CommitsEarned(past, key)
    requires past != [] && IsCommit(past, |past| - 1, key) && IsLive(Slot(past, |past| - 1, key), past[|past| - 1].now)
    requires IsOpen(past, h, |past|, key)
    ensures !AlwaysReplayed(past, key, pending, stored)
  {
    var c := |past| - 1;
    var other := past[c].meta.(status := past[c].meta.status + 1);
    var more := OpenRequestCommits(past, h, key, pending, stored, other);
    var run := BeginContinues(more, key, pending, stored);
    PastIsKept(past, more, |past|);
    PastIsKept(more, run, |more|);
    SlotStep(past, c, key);
    SlotStep(more, |past|, key);
    assert Answer(run, |more|) == Stored(other, past[c].now);
    assert past <= run;
  }

  /**
   The exact condition, known when the commit happens: its response is replayed in every continuation, for the
   whole stored time to live, iff it finds its key live and no other request that went ahead is still to commit.
   */
  lemma AlwaysReplayedIff(past: seq<Event>, key: string, pending: nat, stored: nat)
    requires Regular(past, key, pending, stored) && CommitsEarned(past, key)
    requires past != [] && IsCommit(past, |past| - 1, key)
    ensures AlwaysReplayed(past, key, pending, stored)
            <==> IsLive(Slot(past, |past| - 1, key), past[|past| - 1].now) && NoneOpen(past, |past|, key)
  {
    var c := |past| - 1;
    if !IsLive(Slot(past, c, key), past[c].now) {
      LostCommitIsNotReplayed(past, key, pending, stored);
    } else if !NoneOpen(past, |past|, key) {
      var h: nat :| IsOpen(past, h, |past|, key);
      OpenRequestSpoils(past, h, key, pending, stored);
    } else {
      forall run: seq<Event>, m: nat
        | Continues(past, run, key, pending, stored) && IsBegin(run, m, key) && c < m
          && run[m].now < Expiry(past[c].now, stored)
        ensures Reply(run, m) == ReplayOf(past[c].meta)
      {
        PastIsKept(past, run, c);
        forall h: nat ensures !IsOpen(run, h, |past|, key) { SameOpen(past, run, h, key); }
        assert run[m - 1].now <= run[m].now;
        LatestIsThis(run, c, m, key, pending, stored);
        ReplaysLatestCommit(run, c, m, key, pending, stored);
      }
    }
  }

  function LateMeta(body: string): Meta { Meta(201, "h0", "b", Some(body)) }

  /** The first request overruns its pending mark, the second goes ahead and commits, and then the first does. */
  function LateRun(): seq<Event> {
    [BeginAt(0, "k", "r1", 120), BeginAt(120000, "k", "r2", 120),
     CommitAt(130000, "k", "r2", LateMeta("second"), 86400), CommitAt(140000, "k", "r1", LateMeta("first"), 86400),
     BeginAt(150000, "k", "r3", 120)]
  }

  lemma LateSlots(run: seq<Event>)
    requires run == LateRun()
    ensures Slot(run, 0, "k") == None
    ensures Slot(run, 1, "k") == Some(Entry(InProgress("r1", 0), 120000))
    ensures Slot(run, 2, "k") == Some(Entry(InProgress("r2", 120000), 240000))
    ensures Slot(run, 4, "k") == Some(Entry(Stored(LateMeta("first"), 140000), 86540000))
  {
    SlotStep(run, 0, "k");
    SlotStep(run, 1, "k");
    SlotStep(run, 2, "k");
    SlotStep(run, 3, "k");
  }

  lemma LateRunIsRegular(run: seq<Event>)
    requires run == LateRun()
    ensures Regular(run, "k", 120, 86400)
  {
    assert run[0].request[1] == '1' && run[1].request[1] == '2' && run[4].request[1] == '3';
  }

  lemma LateGoAheads(run: seq<Event>)
    requires run == LateRun()
    ensures GoesAhead(run, 0, "k") && GoesAhead(run, 1, "k")
  {
    LateSlots(run);
  }

  lemma LateCommitsEarned(run: seq<Event>)
    requires run == LateRun() && GoesAhead(run, 0, "k") && GoesAhead(run, 1, "k")
    ensures CommitsEarned(run, "k")
  {
    assert run[2].request[1] == '2' && run[3].request[1] == '1';
    assert run[0].request == run[3].request && run[1].request == run[2].request;
    assert forall i :: IsCommit(run, i, "k") <==> i == 2 || i == 3;
  }

  /**
   The open request is no mere possibility: one that overran its pending mark commits late, and its response
   replaces the one a later request has stored in time.
   */
  lemma LateCommitOverwrites()
    ensures exists run: seq<Event>, key: string ::
              && Regular(run, key, 120, 86400) && CommitsEarned(run, key) && |run| == 5
              && GoesAhead(run, 1, key) && IsCommit(run, 2, key) && run[2].request == run[1].request
              && run[2].now < Expiry(run[1].now, 120) && IsBegin(run, 4, key)
              && run[4].now < Expiry(run[2].now, 86400)
              && Reply(run, 4).Replay? && Reply(run, 4) != ReplayOf(run[2].meta)
  {
    var run := LateRun();
    LateRunIsRegular(run);
    LateGoAheads(run);
    LateCommitsEarned(run);
    LateAnswer(run);
  }

  lemma LateAnswer(run: seq<Event>)
    requires run == LateRun()
    ensures Reply(run, 4).Replay? && Reply(run, 4) != ReplayOf(run[2].meta)
  {
    LateSlots(run);
    assert LateMeta("first").responseBody.value[0] != LateMeta("second").responseBody.value[0];
  }
}
