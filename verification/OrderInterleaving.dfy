/**
 Order transactions running side by side. Each reserves its seats one UPDATE at a time under
 READ COMMITTED row locks, may be aborted at any moment, and becomes visible only at COMMIT. Webhooks
 and redemptions commit in between. Every such run is shown to be a run of the atomic ledger.
 */
module OrderInterleaving {
  import opened Options
  import opened TicketLedger
  import opened LedgerInvariant
  import opened LedgerRuns

  type TxId = nat

  /** An open order transaction that has updated the rows of its first `next` seat ids. */
  datatype Tx = Tx(order: OrderId, performance: string, ids: seq<string>, next: nat) {
    predicate WellFormed() {
      next <= |ids| && performance != "" && ids != []
    }

    /** The rows it has updated, and therefore holds locked. */
    function Locked(): set<SeatKey>
      requires next <= |ids|
    {
      KeysOf(performance, ids[..next])
    }

    function Current(): SeatKey
      requires next < |ids|
    {
      SeatKey(performance, ids[next])
    }
  }

  datatype System = System(db: Ledger, txs: map<TxId, Tx>)

  datatype Event =
    | Begin(t: TxId, order: OrderId, performance: string, ids: seq<string>)
    | ReserveNext(t: TxId)
    | Miss(t: TxId)
    | Commit(t: TxId, intent: IntentId)
    | Abort(t: TxId)
    | Committed(step: Step)

  ghost predicate AllWellFormed(s: System) {
    forall t :: t in s.txs ==> s.txs[t].WellFormed()
  }

  ghost predicate LockedByOther(s: System, t: TxId, k: SeatKey)
    requires AllWellFormed(s)
  {
    exists u :: u in s.txs && u != t && k in s.txs[u].Locked()
  }

  /** The row version transaction `t` reads: its own update, otherwise the last committed one. */
  ghost predicate SeesFree(s: System, t: TxId)
    requires t in s.txs && s.txs[t].WellFormed() && s.txs[t].next < |s.txs[t].ids|
  {
    s.txs[t].Current() !in s.txs[t].Locked() && IsFree(s.db.seats, s.txs[t].Current())
  }

  ghost predicate CanHappen(s: System, e: Event)
    requires AllWellFormed(s)
  {
    match e
    case Begin(t, order, performance, ids) =>
      // An insert with the same primary key as an uncommitted one waits.
      && t !in s.txs && performance != "" && ids != [] && order !in s.db.orders
      && (forall u :: u in s.txs ==> s.txs[u].order != order)
    case ReserveNext(t) =>
      // An UPDATE waits while the row is locked by another transaction, then checks its WHERE clause.
      && t in s.txs && s.txs[t].next < |s.txs[t].ids|
      && !LockedByOther(s, t, s.txs[t].Current()) && SeesFree(s, t)
    case Miss(t) =>
      // A row whose visible version fails the WHERE clause is passed over at once, locked or not.
      t in s.txs && s.txs[t].next < |s.txs[t].ids| && !SeesFree(s, t)
    case Commit(t, intent) =>
      && t in s.txs && s.txs[t].next == |s.txs[t].ids|
      && forall o :: !HasIntent(s.db.orders, o, intent)
    case Abort(t) => t in s.txs
    case Committed(step) => !step.Order? && Enabled(s.db, step)
  }

  /** Committing installs the transaction's own row versions over the committed table. */
  ghost function Install(db: Ledger, tx: Tx, intent: IntentId): Ledger
    requires tx.WellFormed()
  {
    var written := map k | k in tx.Locked() :: SeatRow(Reserved, Some(tx.order));
    db.(seats := db.seats + written,
        orders := db.orders[tx.order := OrderRow(Pending, |tx.ids| * PRICE_PER_SEAT, Some(intent))])
  }

  ghost function Happen(s: System, e: Event): System
    requires AllWellFormed(s) && CanHappen(s, e)
  {
    match e
    case Begin(t, order, performance, ids) => s.(txs := s.txs[t := Tx(order, performance, ids, 0)])
    case ReserveNext(t) => s.(txs := s.txs[t := s.txs[t].(next := s.txs[t].next + 1)])
    case Miss(t) => s.(txs := s.txs - {t})
    case Commit(t, intent) => System(Install(s.db, s.txs[t], intent), s.txs - {t})
    case Abort(t) => s.(txs := s.txs - {t})
    case Committed(step) => s.(db := Apply(s.db, step))
  }

  // ------------------------------------------------------------------ invariant

  /**
   Rows a transaction has updated are free in the committed table, each updated once, for an order not yet visible.
   */
  ghost predicate TxOk(db: Ledger, tx: Tx) {
    && tx.WellFormed()
    && tx.order !in db.orders
    && Distinct(tx.ids[..tx.next])
    && AllFree(db.seats, tx.performance, tx.ids[..tx.next])
  }

  ghost predicate Apart(tx1: Tx, tx2: Tx)
    requires tx1.WellFormed() && tx2.WellFormed()
  {
    tx1.order != tx2.order && tx1.Locked() !! tx2.Locked()
  }

  ghost predicate TxsOk(s: System) {
    && (forall t :: t in s.txs ==> TxOk(s.db, s.txs[t]))
    && (forall t, u :: t in s.txs && u in s.txs && t != u ==> Apart(s.txs[t], s.txs[u]))
  }

  ghost predicate SystemInv(s: System) {
    Inv(s.db) && TxsOk(s)
  }

  // ----------------------------------------------------------------- refinement

  /** The atomic ledger steps an event stands for: a committed order, a committed other step, or none. */
  ghost function Meaning(s: System, e: Event): seq<Step>
    requires AllWellFormed(s) && CanHappen(s, e)
  {
    match e
    case Commit(t, intent) => [Order(s.txs[t].performance, s.txs[t].ids, s.txs[t].order, Some(intent))]
    case Committed(step) => [step]
    case _ => []
  }

  lemma CommitIsAtomicOrder(s: System, t: TxId, intent: IntentId)
    requires SystemInv(s) && CanHappen(s, Commit(t, intent))
    ensures var tx := s.txs[t];
            && CanPlace(s.db, tx.performance, tx.ids, tx.order, Some(intent))
            && Install(s.db, tx, intent) == PlaceOrder(s.db, tx.performance, tx.ids, tx.order, Some(intent))
  {
    var tx := s.txs[t];
    assert TxOk(s.db, tx);
    assert tx.ids[..tx.next] == tx.ids;
    PlaceOrderAllOrNothing(s.db, tx.performance, tx.ids, tx.order, Some(intent));
    InstallIsTaken(s.db, tx, intent);
  }

  lemma InstallIsTaken(db: Ledger, tx: Tx, intent: IntentId)
    requires TxOk(db, tx)
    ensures Install(db, tx, intent).seats == Taken(db.seats, tx.order, tx.Locked())
  {
    assert forall k :: k in tx.Locked() ==> IsFree(db.seats, k);
  }

  /** A transaction that misses could not have placed its order atomically at that moment either. */
  lemma MissIsAtomicFailure(s: System, t: TxId, intent: Option<IntentId>)
    requires SystemInv(s) && CanHappen(s, Miss(t))
    ensures var tx := s.txs[t]; PlaceOrder(s.db, tx.performance, tx.ids, tx.order, intent) == s.db
  {
    var tx := s.txs[t];
    PlaceOrderAllOrNothing(s.db, tx.performance, tx.ids, tx.order, intent);
    assert tx.ids[tx.next] in tx.ids;
    if tx.Current() in tx.Locked() {
      assert tx.ids[tx.next] in tx.ids[..tx.next];
      var i :| 0 <= i < tx.next && tx.ids[i] == tx.ids[tx.next];
      assert !Distinct(tx.ids);
    }
  }

  lemma EventRefines(s: System, e: Event)
    requires SystemInv(s) && CanHappen(s, e)
    ensures EnabledRun(s.db, Meaning(s, e))
    ensures Run(s.db, Meaning(s, e)) == Happen(s, e).db
  {
    var steps := Meaning(s, e);
    if e.Commit? { CommitIsAtomicOrder(s, e.t, e.intent); }
    if e.Commit? || e.Committed? {
      assert steps[1..] == [];
      assert Run(s.db, steps) == Apply(s.db, steps[0]);
    }
  }

  // ------------------------------------------------- the invariant is inductive

  lemma TxOkAfterReserve(db: Ledger, tx: Tx)
    requires TxOk(db, tx) && tx.next < |tx.ids|
    requires tx.Current() !in tx.Locked() && IsFree(db.seats, tx.Current())
    ensures TxOk(db, tx.(next := tx.next + 1))
    ensures tx.(next := tx.next + 1).Locked() == tx.Locked() + {tx.Current()}
  {
    var tx' := tx.(next := tx.next + 1);
    assert tx.ids[..tx.next + 1] == tx.ids[..tx.next] + [tx.ids[tx.next]];
    assert forall x :: x in tx.ids[..tx.next] ==> SeatKey(tx.performance, x) in tx.Locked();
  }

  lemma ReserveKeepsTxs(s: System, t: TxId)
    requires TxsOk(s) && CanHappen(s, ReserveNext(t))
    ensures TxsOk(Happen(s, ReserveNext(t)))
  {
    var s' := Happen(s, ReserveNext(t));
    TxOkAfterReserve(s.db, s.txs[t]);
    forall u, v | u in s'.txs && v in s'.txs && u != v ensures Apart(s'.txs[u], s'.txs[v]) {
      assert Apart(s.txs[u], s.txs[v]);
    }
  }

  /** Committing one transaction leaves the locked rows of every other one free in the committed table. */
  lemma CommitKeepsTxs(s: System, t: TxId, intent: IntentId)
    requires TxsOk(s) && CanHappen(s, Commit(t, intent))
    ensures TxsOk(Happen(s, Commit(t, intent)))
  {
    var s' := Happen(s, Commit(t, intent));
    forall u | u in s'.txs ensures TxOk(s'.db, s'.txs[u]) {
      var tx := s.txs[u];
      assert TxOk(s.db, tx) && Apart(s.txs[t], tx);
      forall x | x in tx.ids[..tx.next] ensures IsFree(s'.db.seats, SeatKey(tx.performance, x)) {
        assert SeatKey(tx.performance, x) in tx.Locked();
      }
    }
  }

  lemma FreeRowsAreKept(l: Ledger, step: Step, k: SeatKey)
    requires RowsShaped(l.seats) && !step.Order? && IsFree(l.seats, k)
    ensures k in Apply(l, step).seats && Apply(l, step).seats[k] == l.seats[k]
  {}

  /**
   A committed webhook or redemption writes only rows reserved for a visible order, so it meets no row that
   an open order transaction holds locked: all of those stay as they are.
   */
  lemma OtherStepsAvoidLocks(s: System, step: Step)
    requires SystemInv(s) && CanHappen(s, Committed(step))
    ensures forall t, k :: t in s.txs && k in s.txs[t].Locked() ==>
              k in s.db.seats && k in Apply(s.db, step).seats && Apply(s.db, step).seats[k] == s.db.seats[k]
  {
    forall t, k | t in s.txs && k in s.txs[t].Locked()
      ensures k in s.db.seats && k in Apply(s.db, step).seats && Apply(s.db, step).seats[k] == s.db.seats[k]
    {
      assert TxOk(s.db, s.txs[t]);
      FreeRowsAreKept(s.db, step, k);
    }
  }

  lemma OtherStepsAddNoOrder(l: Ledger, step: Step)
    requires !step.Order?
    ensures Apply(l, step).orders.Keys == l.orders.Keys
  {}

  lemma CommittedKeepsTxs(s: System, step: Step)
    requires SystemInv(s) && CanHappen(s, Committed(step))
    ensures TxsOk(Happen(s, Committed(step)))
  {
    var s' := Happen(s, Committed(step));
    OtherStepsAddNoOrder(s.db, step);
    OtherStepsAvoidLocks(s, step);
    forall u | u in s'.txs ensures TxOk(s'.db, s'.txs[u]) {
      var tx := s.txs[u];
      assert TxOk(s.db, tx);
      forall x | x in tx.ids[..tx.next] ensures IsFree(s'.db.seats, SeatKey(tx.performance, x)) {
        assert SeatKey(tx.performance, x) in tx.Locked();
      }
    }
  }

  lemma EventKeepsTxs(s: System, e: Event)
    requires SystemInv(s) && CanHappen(s, e)
    ensures TxsOk(Happen(s, e))
  {
    match e
    case Begin(t, order, performance, ids) =>
    case ReserveNext(t) => ReserveKeepsTxs(s, t);
    case Miss(t) =>
    case Commit(t, intent) => CommitKeepsTxs(s, t, intent);
    case Abort(t) =>
    case Committed(step) => CommittedKeepsTxs(s, step);
  }

  lemma EventKeepsInv(s: System, e: Event)
    requires SystemInv(s) && CanHappen(s, e)
    ensures SystemInv(Happen(s, e))
  {
    EventKeepsTxs(s, e);
    EventRefines(s, e);
    RunKeepsInv(s.db, Meaning(s, e));
  }

  // ----------------------------------------------------------------- whole runs

  ghost predicate Possible(s: System, events: seq<Event>)
    decreases |events|
  {
    && AllWellFormed(s)
    && (events == [] || (CanHappen(s, events[0]) && Possible(Happen(s, events[0]), events[1..])))
  }

  ghost function Final(s: System, events: seq<Event>): System
    requires Possible(s, events)
    decreases |events|
  {
    if events == [] then s else Final(Happen(s, events[0]), events[1..])
  }

  ghost function Serial(s: System, events: seq<Event>): seq<Step>
    requires Possible(s, events)
    decreases |events|
  {
    if events == [] then [] else Meaning(s, events[0]) + Serial(Happen(s, events[0]), events[1..])
  }

  lemma InvIsWellFormed(s: System)
    requires SystemInv(s)
    ensures AllWellFormed(s)
  {
    forall t | t in s.txs ensures s.txs[t].WellFormed() { assert TxOk(s.db, s.txs[t]); }
  }

  lemma {:induction false} PossibleConcat(s: System, a: seq<Event>, b: seq<Event>)
    requires Possible(s, a) && Possible(Final(s, a), b)
    ensures Possible(s, a + b) && Final(s, a + b) == Final(Final(s, a), b)
    decreases |a|
  {
    if a == [] {
      assert a + b == b;
    } else {
      assert (a + b)[1..] == a[1..] + b;
      PossibleConcat(Happen(s, a[0]), a[1..], b);
    }
  }

  lemma {:induction false} RunConcat(l: Ledger, a: seq<Step>, b: seq<Step>)
    ensures Run(l, a + b) == Run(Run(l, a), b)
    ensures EnabledRun(l, a + b) <==> EnabledRun(l, a) && EnabledRun(Run(l, a), b)
    decreases |a|
  {
    if a == [] {
      assert a + b == b;
    } else {
      assert (a + b)[1..] == a[1..] + b;
      RunConcat(Apply(l, a[0]), a[1..], b);
    }
  }

  /**
   Any interleaving of order transactions, with misses and aborts anywhere, commits exactly what some
   serial run of atomic orders, webhooks and redemptions commits; so the ledger stays consistent.
   */
  lemma {:induction false} InterleavingsAreSerial(s: System, events: seq<Event>)
    requires SystemInv(s) && Possible(s, events)
    ensures EnabledRun(s.db, Serial(s, events))
    ensures Final(s, events).db == Run(s.db, Serial(s, events))
    ensures SystemInv(Final(s, events))
    decreases |events|
  {
    if events != [] {
      var s1 := Happen(s, events[0]);
      EventRefines(s, events[0]);
      EventKeepsInv(s, events[0]);
      InterleavingsAreSerial(s1, events[1..]);
      RunConcat(s.db, Meaning(s, events[0]), Serial(s1, events[1..]));
    }
  }

  /** A commit gives the order every seat it asked for and takes no seat from any other order. */
  lemma CommitTakesNobodysSeat(s: System, t: TxId, intent: IntentId)
    requires SystemInv(s) && CanHappen(s, Commit(t, intent))
    ensures var tx, db' := s.txs[t], Happen(s, Commit(t, intent)).db;
            && OwnedBy(db'.seats, tx.order) == KeysOf(tx.performance, tx.ids)
            && |OwnedBy(db'.seats, tx.order)| == |tx.ids|
            && forall o :: o in s.db.orders ==> SameSeats(s.db, db', o)
  {
    var tx, db' := s.txs[t], Happen(s, Commit(t, intent)).db;
    CommitIsAtomicOrder(s, t, intent);
    PlaceOrderAllOrNothing(s.db, tx.performance, tx.ids, tx.order, Some(intent));
    var keys := KeysOf(tx.performance, tx.ids);
    assert forall k :: k in keys ==> IsFree(s.db.seats, k);
    assert OwnedBy(db'.seats, tx.order) == keys;
    DistinctCount(tx.performance, tx.ids);
    forall o | o in s.db.orders ensures SameSeats(s.db, db', o) {
      PlaceOrderSparesOthers(s.db, Order(tx.performance, tx.ids, tx.order, Some(intent)), o);
    }
  }

  // ------------------------------------------------------------ from the beginning

  lemma SeededSystem(seeded: Ledger)
    requires IsSeeded(seeded)
    ensures SystemInv(System(seeded, map[]))
  {
    SeededInv(seeded);
  }

  /** From the seeded ledger with no transaction open, every run of events commits what a serial run commits. */
  lemma EveryRunIsSerial(seeded: Ledger, events: seq<Event>)
    requires IsSeeded(seeded) && Possible(System(seeded, map[]), events)
    ensures var s := System(seeded, map[]);
            && EnabledRun(seeded, Serial(s, events))
            && Final(s, events).db == Run(seeded, Serial(s, events))
            && Inv(Final(s, events).db)
  {
    SeededSystem(seeded);
    InterleavingsAreSerial(System(seeded, map[]), events);
  }
}
