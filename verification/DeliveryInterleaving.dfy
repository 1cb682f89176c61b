/**
 Webhook deliveries running side by side, statement by statement, next to the order transactions of
 OrderInterleaving. A delivery holds its de-duplication row from the start and the row of its order from the
 UPDATE of the order's status on; what it writes becomes visible only at COMMIT. Every run is shown to be a run
 of OrderInterleaving with each delivery as one step, and so a serial run of the atomic ledger.
 */
module DeliveryInterleaving {
  import opened Options
  import opened TicketLedger
  import opened LedgerInvariant
  import opened LedgerRuns
  import OI = OrderInterleaving

  type TxId = nat

  /** How far a delivery has come, with the rows it has written so far. */
  datatype Phase =
    | Opened
    | NoOrder
    | Found(o: OrderId)
    | Marked(o: OrderId)
    | Touched(o: OrderId, touched: set<SeatKey>)
    | Issuing(o: OrderId, touched: set<SeatKey>, rows: seq<SeatKey>, next: nat, own: TicketTable)

  datatype Tx = Tx(event: Option<EventId>, kind: Kind, intent: IntentId, draw: nat -> Jti, phase: Phase) {
    /** The order whose row it holds locked. */
    function Holds(): Option<OrderId> {
      match phase
      case Marked(o) => Some(o)
      case Touched(o, _) => Some(o)
      case Issuing(o, _, _, _, _) => Some(o)
      case _ => None
    }

    function LockedSeats(): set<SeatKey> {
      match phase
      case Touched(_, touched) => touched
      case Issuing(_, touched, _, _, _) => touched
      case _ => {}
    }

    function OwnTickets(): TicketTable {
      if phase.Issuing? then phase.own else map[]
    }
  }

  datatype System = System(base: OI.System, dels: map<TxId, Tx>) {
    function Db(): Ledger { base.db }
  }

  datatype Event =
    | Base(e: OI.Event)
    | Open(t: TxId, event: Option<EventId>, kind: Kind, intent: IntentId, draw: nat -> Jti)
    | Read(t: TxId)
    | Mark(t: TxId)
    | Touch(t: TxId)
    | Select(t: TxId, rows: seq<SeatKey>)
    | Insert(t: TxId)
    | Commit(t: TxId)
    | Abort(t: TxId)

  // ---------------------------------------------------------------- statements

  function ReservedFor(seats: SeatTable, o: OrderId): set<SeatKey> {
    set k | k in seats && IsReservedBy(seats[k], o)
  }

  /** The committed rows with a transaction's own versions over them. */
  function Overlay(seats: SeatTable, touched: set<SeatKey>, row: SeatRow): SeatTable {
    seats + map k | k in touched :: row
  }

  predicate IsOver(status: OrderStatus) { status == Confirmed || status == Paid }

  /** What the SELECT by payment intent and the guard behind it lead to; None is the ROLLBACK. */
  ghost function AfterRead(l: Ledger, tx: Tx): Option<Tx> {
    match OrderOf(l.orders, tx.intent)
    case None => if tx.kind == Succeeded then None else Some(tx.(phase := NoOrder))
    case Some(o) =>
      if tx.kind == Succeeded && IsOver(l.orders[o].status) then None else Some(tx.(phase := Found(o)))
  }

  predicate SkipsInsert(l: Ledger, tx: Tx)
    requires tx.phase.Issuing? && tx.phase.next < |tx.phase.rows|
  {
    HasTicket(l.tickets + tx.phase.own, tx.phase.o, tx.phase.rows[tx.phase.next].seat)
  }

  /** One guarded ticket insert; None is the violated UNIQUE constraint. */
  function AfterInsert(l: Ledger, tx: Tx): Option<Tx>
    requires tx.phase.Issuing? && tx.phase.next < |tx.phase.rows|
  {
    var p := tx.phase;
    var k, jti := p.rows[p.next], tx.draw(p.next);
    if SkipsInsert(l, tx) then Some(tx.(phase := p.(next := p.next + 1)))
    else if jti in l.tickets + p.own then None
    else Some(tx.(phase := p.(next := p.next + 1, own := p.own[jti := Ticket(p.o, k.performance, k.seat, Issued)])))
  }

  predicate IsReady(tx: Tx) {
    match tx.phase
    case Opened => tx.kind == Other
    case NoOrder => true
    case Touched(_, _) => tx.kind == FailedOrCanceled
    case Issuing(_, _, rows, next, _) => next == |rows|
    case _ => false
  }

  /** What a COMMIT makes visible. */
  function Install(l: Ledger, tx: Tx): Ledger
    requires tx.Holds().Some? ==> tx.Holds().value in l.orders
  {
    match tx.phase
    case Touched(o, touched) =>
      var seats := Overlay(l.seats, touched, SeatRow(Available, None));
      MarkSeen(l.(seats := seats, orders := SetStatus(l.orders, o, Failed)), tx.event)
    case Issuing(o, touched, _, _, own) =>
      var seats := Overlay(l.seats, touched, SeatRow(Sold, Some(o)));
      MarkSeen(Ledger(seats, SetStatus(l.orders, o, Confirmed), l.tickets + own, l.seen), tx.event)
    case _ => MarkSeen(l, tx.event)
  }

  // -------------------------------------------------------------------- system

  ghost predicate WellFormed(s: System) {
    && OI.AllWellFormed(s.base)
    && (forall t :: t in s.dels ==> s.dels[t].Holds().Some? ==> s.dels[t].Holds().value in s.Db().orders)
    && (forall t :: t in s.dels && s.dels[t].phase.Issuing? ==> s.dels[t].phase.next <= |s.dels[t].phase.rows|)
  }

  /**
   An order transaction would also wait for a seat row that an open delivery has written, were that row available.
   */
  ghost predicate SeatRowIsFree(s: System, t: TxId)
    requires OI.AllWellFormed(s.base)
  {
    t in s.base.txs && s.base.txs[t].next < |s.base.txs[t].ids| ==>
      forall u :: u in s.dels ==> s.base.txs[t].Current() !in s.dels[u].LockedSeats()
  }

  ghost predicate CanHappen(s: System, e: Event)
    requires WellFormed(s)
  {
    match e
    case Base(b) =>
      && OI.CanHappen(s.base, b) && (b.Committed? ==> !b.step.Deliver?)
      && (b.ReserveNext? ==> SeatRowIsFree(s, b.t))
    case Open(t, event, _, intent, _) =>
      // INSERT ... ON CONFLICT DO NOTHING waits for an uncommitted row with the same event id.
      && t !in s.dels && intent != ""
      && (event.Some? ==> event.value !in s.Db().seen && forall u :: u in s.dels ==> s.dels[u].event != event)
    case Read(t) => t in s.dels && s.dels[t].phase == Opened && s.dels[t].kind != Other
    case Mark(t) =>
      // UPDATE orders.orders waits while another transaction holds the row.
      t in s.dels && s.dels[t].phase.Found? && forall u :: u in s.dels ==> s.dels[u].Holds() != Some(s.dels[t].phase.o)
    case Touch(t) => t in s.dels && s.dels[t].phase.Marked?
    case Select(t, rows) =>
      && t in s.dels && s.dels[t].phase.Touched? && s.dels[t].kind == Succeeded
      && var o := s.dels[t].phase.o;
         Enumerates(rows, SoldTo(Overlay(s.Db().seats, s.dels[t].phase.touched, SeatRow(Sold, Some(o))), o))
    case Insert(t) =>
      // An insert waits for an uncommitted row with the same jti.
      && t in s.dels && s.dels[t].phase.Issuing? && s.dels[t].phase.next < |s.dels[t].phase.rows|
      && (SkipsInsert(s.Db(), s.dels[t])
          || forall u :: u in s.dels && u != t ==> s.dels[t].draw(s.dels[t].phase.next) !in s.dels[u].OwnTickets())
    case Commit(t) => t in s.dels && IsReady(s.dels[t])
    case Abort(t) => t in s.dels
  }

  /** The transaction goes on, or rolls back. */
  function Moved(s: System, t: TxId, tx: Option<Tx>): System {
    s.(dels := if tx.Some? then s.dels[t := tx.value] else s.dels - {t})
  }

  ghost function Happen(s: System, e: Event): System
    requires WellFormed(s) && CanHappen(s, e)
  {
    match e
    case Base(b) => s.(base := OI.Happen(s.base, b))
    case Open(t, event, kind, intent, draw) => s.(dels := s.dels[t := Tx(event, kind, intent, draw, Opened)])
    case Read(t) => Moved(s, t, AfterRead(s.Db(), s.dels[t]))
    case Mark(t) => Moved(s, t, Some(s.dels[t].(phase := Marked(s.dels[t].phase.o))))
    case Touch(t) =>
      var o := s.dels[t].phase.o;
      Moved(s, t, Some(s.dels[t].(phase := Touched(o, ReservedFor(s.Db().seats, o)))))
    case Select(t, rows) =>
      var p := s.dels[t].phase;
      Moved(s, t, Some(s.dels[t].(phase := Issuing(p.o, p.touched, rows, 0, map[]))))
    case Insert(t) => Moved(s, t, AfterInsert(s.Db(), s.dels[t]))
    case Commit(t) => System(s.base.(db := Install(s.Db(), s.dels[t])), s.dels - {t})
    case Abort(t) => Moved(s, t, None)
  }

  // ----------------------------------------------------------------- invariant

  /** The tickets of a transaction that has gone through the first n selected rows; None if an id clashed. */
  function IssueFirst(tickets: TicketTable, o: OrderId, rows: seq<SeatKey>, draw: nat -> Jti, n: nat)
    : Option<TicketTable>
    requires n <= |rows|
  {
    if n == 0 then Some(map[])
    else
      match IssueFirst(tickets, o, rows, draw, n - 1)
      case None => None
      case Some(own) =>
        if HasTicket(tickets + own, o, rows[n - 1].seat) then Some(own)
        else if draw(n - 1) in tickets + own then None
        else Some(own[draw(n - 1) := Ticket(o, rows[n - 1].performance, rows[n - 1].seat, Issued)])
  }

  ghost predicate IssuingOk(l: Ledger, tx: Tx)
    requires tx.phase.Issuing?
  {
    var p := tx.phase;
    && tx.kind == Succeeded && p.next <= |p.rows|
    && Enumerates(p.rows, SoldTo(Sell(l.seats, p.o), p.o))
    && IssueFirst(l.tickets, p.o, p.rows, tx.draw, p.next) == Some(p.own)
    && p.own.Keys !! l.tickets.Keys
  }

  /** The rows it works on are still as it found them, and its de-duplication row is still its own. */
  ghost predicate TxOk(l: Ledger, tx: Tx) {
    && tx.intent != "" && (tx.event.Some? ==> tx.event.value !in l.seen)
    && match tx.phase
       case Opened => true
       case NoOrder => tx.kind != Succeeded
       case Found(o) => tx.kind != Other && HasIntent(l.orders, o, tx.intent)
       case Marked(o) => tx.kind != Other && HasIntent(l.orders, o, tx.intent)
       case Touched(o, touched) =>
         tx.kind != Other && HasIntent(l.orders, o, tx.intent) && touched == ReservedFor(l.seats, o)
       case Issuing(o, touched, _, _, _) =>
         HasIntent(l.orders, o, tx.intent) && touched == ReservedFor(l.seats, o) && IssuingOk(l, tx)
  }

  predicate Apart(a: Tx, b: Tx) {
    && (a.event.Some? ==> a.event != b.event)
    && (a.Holds().Some? ==> a.Holds() != b.Holds())
    && a.OwnTickets().Keys !! b.OwnTickets().Keys
  }

  ghost predicate DelsOk(s: System) {
    && (forall t :: t in s.dels ==> TxOk(s.Db(), s.dels[t]))
    && (forall t, u :: t in s.dels && u in s.dels && t != u ==> Apart(s.dels[t], s.dels[u]))
  }

  ghost predicate SystemInv(s: System) {
    OI.SystemInv(s.base) && DelsOk(s) && WellFormed(s)
  }

  lemma DelsAreWellFormed(s: System)
    requires OI.SystemInv(s.base) && DelsOk(s)
    ensures WellFormed(s)
  {
    forall t | t in s.base.txs ensures s.base.txs[t].WellFormed() {
      assert OI.TxOk(s.base.db, s.base.txs[t]);
    }
    forall t | t in s.dels
      ensures s.dels[t].Holds().Some? ==> s.dels[t].Holds().value in s.Db().orders
      ensures s.dels[t].phase.Issuing? ==> s.dels[t].phase.next <= |s.dels[t].phase.rows|
    {
      assert TxOk(s.Db(), s.dels[t]);
    }
  }

  // --------------------------------------------------------- issuing one by one

  lemma HasTicketUnion(a: TicketTable, b: TicketTable, o: OrderId, seat: string)
    requires a.Keys !! b.Keys
    ensures HasTicket(a + b, o, seat) <==> HasTicket(a, o, seat) || HasTicket(b, o, seat)
  {
    if HasTicket(a, o, seat) {
      var j :| j in a && a[j].order == o && a[j].seat == seat;
      assert j in a + b && (a + b)[j] == a[j];
    }
    if HasTicket(b, o, seat) {
      var j :| j in b && b[j].order == o && b[j].seat == seat;
      assert j in a + b && (a + b)[j] == b[j];
    }
  }

  lemma {:induction false} OwnIsNew(tickets: TicketTable, o: OrderId, rows: seq<SeatKey>, draw: nat -> Jti, n: nat)
    requires n <= |rows|
    ensures var r := IssueFirst(tickets, o, rows, draw, n);
            r.Some? ==> r.value.Keys !! tickets.Keys && forall j :: j in r.value ==> r.value[j].order == o
  {
    if n > 0 { OwnIsNew(tickets, o, rows, draw, n - 1); }
  }

  /** Row by row is the ticket loop. */
  lemma {:induction false} IssueFirstIsLoop(tickets: TicketTable, o: OrderId, rows: seq<SeatKey>, draw: nat -> Jti,
                                            n: nat)
    requires n <= |rows| && IssueFirst(tickets, o, rows, draw, n).Some?
    ensures IssueAll(tickets, o, rows, draw, 0)
            == IssueAll(tickets + IssueFirst(tickets, o, rows, draw, n).value, o, rows, draw, n)
  {
    if n == 0 {
      assert tickets + map[] == tickets;
    } else {
      IssueFirstIsLoop(tickets, o, rows, draw, n - 1);
      var own := IssueFirst(tickets, o, rows, draw, n - 1).value;
      var t := Ticket(o, rows[n - 1].performance, rows[n - 1].seat, Issued);
      assert tickets + own[draw(n - 1) := t] == (tickets + own)[draw(n - 1) := t];
    }
  }

  ghost predicate SameHolding(a: TicketTable, b: TicketTable, o: OrderId) {
    forall seat :: HasTicket(a, o, seat) <==> HasTicket(b, o, seat)
  }

  /** Tickets that others add for other orders, under other ids, make no difference. */
  lemma {:induction false} IssueFirstStable(a: TicketTable, b: TicketTable, o: OrderId, rows: seq<SeatKey>,
                                            draw: nat -> Jti,
                                            n: nat)
    requires n <= |rows| && IssueFirst(a, o, rows, draw, n).Some? && SameHolding(a, b, o)
    requires IssueFirst(a, o, rows, draw, n).value.Keys !! b.Keys
    ensures IssueFirst(b, o, rows, draw, n) == IssueFirst(a, o, rows, draw, n)
  {
    if n > 0 {
      var own := IssueFirst(a, o, rows, draw, n - 1).value;
      assert own.Keys <= IssueFirst(a, o, rows, draw, n).value.Keys;
      IssueFirstStable(a, b, o, rows, draw, n - 1);
      OwnIsNew(a, o, rows, draw, n - 1);
      HasTicketUnion(a, own, o, rows[n - 1].seat);
      HasTicketUnion(b, own, o, rows[n - 1].seat);
    }
  }

  /** Where every row has a ticket, none is issued. */
  lemma {:induction false} NothingIssued(tickets: TicketTable, o: OrderId, rows: seq<SeatKey>, draw: nat -> Jti, n: nat)
    requires n <= |rows| && forall k :: k in rows ==> HasTicket(tickets, o, k.seat)
    ensures IssueFirst(tickets, o, rows, draw, n) == Some(map[])
  {
    if n > 0 {
      NothingIssued(tickets, o, rows, draw, n - 1);
      assert tickets + map[] == tickets;
      assert rows[n - 1] in rows;
    }
  }

  // ----------------------------------------------------------------- refinement

  lemma OverlayIsUpdate(seats: SeatTable, o: OrderId)
    ensures Overlay(seats, ReservedFor(seats, o), SeatRow(Sold, Some(o))) == Sell(seats, o)
    ensures Overlay(seats, ReservedFor(seats, o), SeatRow(Available, None)) == Release(seats, o)
  {}

  /**
   The atomic delivery a commit stands for. A success that another success has overtaken, and a failure that found no
   order, commit nothing but their de-duplication row, as a delivery of any other type does.
   */
  ghost function Atomic(l: Ledger, tx: Tx): Delivery
    requires tx.Holds().Some? ==> tx.Holds().value in l.orders
  {
    match tx.phase
    case Touched(_, _) => Delivery(tx.event, tx.kind, tx.intent, [], tx.draw, false)
    case Issuing(o, _, rows, _, _) =>
      Delivery(tx.event, if IsOver(l.orders[o].status) then Other else tx.kind, tx.intent, rows, tx.draw, false)
    case _ => Delivery(tx.event, Other, tx.intent, [], tx.draw, false)
  }

  /** A success overtaken by another one finds no reserved seat and no seat without a ticket. */
  lemma OvertakenIsInert(l: Ledger, tx: Tx)
    requires Inv(l) && TxOk(l, tx) && tx.phase.Issuing? && tx.phase.next == |tx.phase.rows|
    requires IsOver(l.orders[tx.phase.o].status)
    ensures Install(l, tx) == MarkSeen(l, tx.event)
  {
    var p := tx.phase;
    assert OrderShaped(l, p.o);
    DecidedHasNothingReserved(l, p.o);
    OverlayIsUpdate(l.seats, p.o);
    forall k | k in p.rows ensures HasTicket(l.tickets, p.o, k.seat) {
      SoldSeatHasTicket(l, p.o, k);
    }
    NothingIssued(l.tickets, p.o, p.rows, tx.draw, |p.rows|);
    assert SetStatus(l.orders, p.o, Confirmed) == l.orders;
    assert l.tickets + map[] == l.tickets;
  }

  lemma CommitIsAtomicDelivery(l: Ledger, tx: Tx)
    requires Inv(l) && TxOk(l, tx) && IsReady(tx)
    ensures SeesSoldRows(l, Atomic(l, tx)) && Install(l, tx) == Webhook(l, Atomic(l, tx))
  {
    match tx.phase
    case Touched(o, touched) =>
      IntentFindsOrder(l.orders, o, tx.intent);
      OverlayIsUpdate(l.seats, o);
    case Issuing(o, touched, rows, next, own) =>
      IntentFindsOrder(l.orders, o, tx.intent);
      if IsOver(l.orders[o].status) {
        OvertakenIsInert(l, tx);
      } else {
        OverlayIsUpdate(l.seats, o);
        IssueFirstIsLoop(l.tickets, o, rows, tx.draw, |rows|);
      }
    case _ =>
  }

  // ------------------------------------------------- the invariant is inductive

  lemma SameSeatsSameRows(a: Ledger, b: Ledger, o: OrderId)
    requires SameSeats(a, b, o)
    ensures ReservedFor(b.seats, o) == ReservedFor(a.seats, o)
    ensures SoldTo(Sell(b.seats, o), o) == SoldTo(Sell(a.seats, o), o)
  {
    forall k ensures k in ReservedFor(b.seats, o) <==> k in ReservedFor(a.seats, o) {
      assert k in OwnedBy(b.seats, o) <==> k in OwnedBy(a.seats, o);
    }
    forall k ensures k in SoldTo(Sell(b.seats, o), o) <==> k in SoldTo(Sell(a.seats, o), o) {
      assert k in OwnedBy(b.seats, o) <==> k in OwnedBy(a.seats, o);
    }
  }

  /** A committed change keeps an open delivery right if it leaves the delivery's order, event and ticket ids alone. */
  lemma ChangeKeepsTx(a: Ledger, b: Ledger, tx: Tx)
    requires TxOk(a, tx)
    requires tx.event.Some? ==> tx.event.value !in b.seen
    requires forall o :: HasIntent(a.orders, o, tx.intent) ==> HasIntent(b.orders, o, tx.intent)
    requires tx.Holds().Some? ==>
               SameSeats(a, b, tx.Holds().value) && SameHolding(a.tickets, b.tickets, tx.Holds().value)
    requires tx.OwnTickets().Keys !! b.tickets.Keys
    ensures TxOk(b, tx)
  {
    match tx.phase
    case Touched(o, _) => SameSeatsSameRows(a, b, o);
    case Issuing(o, _, rows, next, own) =>
      SameSeatsSameRows(a, b, o);
      IssueFirstStable(a.tickets, b.tickets, o, rows, tx.draw, next);
    case _ =>
  }

  lemma StepKeepsIntents(l: Ledger, step: Step, o: OrderId, intent: IntentId)
    requires HasIntent(l.orders, o, intent)
    ensures HasIntent(Apply(l, step).orders, o, intent)
  {}

  lemma OrderKeepsRows(l: Ledger, step: Step, o: OrderId)
    requires Inv(l) && !step.Deliver? && o in l.orders
    ensures SameSeats(l, Apply(l, step), o)
  {
    if step.Order? { PlaceOrderSparesOthers(l, step, o); }
  }

  lemma OrderOrRedeemAddsNothing(l: Ledger, step: Step)
    requires !step.Deliver?
    ensures Apply(l, step).tickets.Keys == l.tickets.Keys && Apply(l, step).seen == l.seen
  {}

  /** Committed orders and redemptions leave every open delivery right. */
  lemma OrderOrRedeemKeepsTx(l: Ledger, step: Step, tx: Tx)
    requires Inv(l) && TxOk(l, tx) && !step.Deliver?
    ensures TxOk(Apply(l, step), tx)
  {
    var l' := Apply(l, step);
    forall o | HasIntent(l.orders, o, tx.intent) ensures HasIntent(l'.orders, o, tx.intent) {
      StepKeepsIntents(l, step, o, tx.intent);
    }
    if tx.Holds().Some? {
      OrderKeepsRows(l, step, tx.Holds().value);
      RedeemKeepsHolding(l, step, tx.Holds().value);
    }
    OrderOrRedeemAddsNothing(l, step);
    OwnTicketsAreNew(l, tx);
    ChangeKeepsTx(l, l', tx);
  }

  lemma OwnTicketsAreNew(l: Ledger, tx: Tx)
    requires TxOk(l, tx)
    ensures tx.OwnTickets().Keys !! l.tickets.Keys
  {}

  lemma RedeemKeepsHolding(l: Ledger, step: Step, o: OrderId)
    requires !step.Deliver?
    ensures SameHolding(l.tickets, Apply(l, step).tickets, o)
  {
    var l' := Apply(l, step);
    assert l'.tickets.Keys == l.tickets.Keys;
    assert forall j :: j in l.tickets ==>
        l'.tickets[j].order == l.tickets[j].order && l'.tickets[j].seat == l.tickets[j].seat;
  }

  /** The tickets a commit adds are the transaction's own. */
  lemma CommitAddsOwn(l: Ledger, tx: Tx, o: OrderId)
    requires TxOk(l, tx) && IsReady(tx) && tx.Holds() != Some(o)
    ensures Install(l, tx).tickets == l.tickets + tx.OwnTickets()
    ensures SameHolding(l.tickets, Install(l, tx).tickets, o)
  {
    var own := tx.OwnTickets();
    assert l.tickets + map[] == l.tickets;
    if tx.phase.Issuing? {
      OwnIsNew(l.tickets, tx.phase.o, tx.phase.rows, tx.draw, tx.phase.next);
      forall seat ensures HasTicket(l.tickets + own, o, seat) <==> HasTicket(l.tickets, o, seat) {
        HasTicketUnion(l.tickets, own, o, seat);
      }
    }
  }

  /** One delivery's commit leaves every other open one right. */
  lemma CommitKeepsTx(l: Ledger, tx: Tx, other: Tx)
    requires Inv(l) && TxOk(l, tx) && IsReady(tx) && TxOk(l, other) && Apart(tx, other) && Apart(other, tx)
    ensures TxOk(Install(l, tx), other)
  {
    var l', d := Install(l, tx), Atomic(l, tx);
    CommitIsAtomicDelivery(l, tx);
    forall o | HasIntent(l.orders, o, other.intent) ensures HasIntent(l'.orders, o, other.intent) {
      StepKeepsIntents(l, Deliver(d), o, other.intent);
    }
    if other.Holds().Some? {
      var o := other.Holds().value;
      assert HasIntent(l.orders, o, other.intent);
      CommitDecidesNoOther(l, tx, o);
      DeliverySparesOthers(l, Deliver(d), o);
      CommitAddsOwn(l, tx, o);
    }
    OwnStaysApart(l, tx, other);
    ChangeKeepsTx(l, l', other);
  }

  lemma OwnStaysApart(l: Ledger, tx: Tx, other: Tx)
    requires TxOk(l, tx) && IsReady(tx) && TxOk(l, other) && Apart(tx, other)
    ensures other.OwnTickets().Keys !! Install(l, tx).tickets.Keys
  {}

  lemma CommitDecidesNoOther(l: Ledger, tx: Tx, o: OrderId)
    requires Inv(l) && TxOk(l, tx) && IsReady(tx) && tx.Holds() != Some(o)
    ensures !Decides(l, Deliver(Atomic(l, tx)), o)
  {
    if tx.Holds().Some? { IntentFindsOrder(l.orders, tx.Holds().value, tx.intent); }
  }

  lemma ReadKeepsTx(l: Ledger, tx: Tx)
    requires TxOk(l, tx) && tx.kind != Other
    ensures AfterRead(l, tx).Some? ==> TxOk(l, AfterRead(l, tx).value)
  {}

  lemma InsertKeepsTx(l: Ledger, tx: Tx)
    requires TxOk(l, tx) && tx.phase.Issuing? && tx.phase.next < |tx.phase.rows|
    ensures AfterInsert(l, tx).Some? ==> TxOk(l, AfterInsert(l, tx).value)
  {
    OwnIsNew(l.tickets, tx.phase.o, tx.phase.rows, tx.draw, tx.phase.next + 1);
  }

  lemma SelectKeepsTx(l: Ledger, tx: Tx, rows: seq<SeatKey>)
    requires TxOk(l, tx) && tx.phase.Touched? && tx.kind == Succeeded
    requires Enumerates(rows, SoldTo(Overlay(l.seats, tx.phase.touched, SeatRow(Sold, Some(tx.phase.o))), tx.phase.o))
    ensures TxOk(l, tx.(phase := Issuing(tx.phase.o, tx.phase.touched, rows, 0, map[])))
  {
    OverlayIsUpdate(l.seats, tx.phase.o);
  }

  /** A statement of one open delivery leaves it right. */
  lemma StatementKeepsTx(s: System, e: Event)
    requires SystemInv(s) && CanHappen(s, e) && !e.Base? && !e.Commit?
    ensures e.t in Happen(s, e).dels ==> TxOk(s.Db(), Happen(s, e).dels[e.t])
  {
    if !e.Open? { assert TxOk(s.Db(), s.dels[e.t]); }
    match e
    case Read(t) => ReadKeepsTx(s.Db(), s.dels[t]);
    case Select(t, rows) => SelectKeepsTx(s.Db(), s.dels[t], rows);
    case Insert(t) => InsertKeepsTx(s.Db(), s.dels[t]);
    case _ =>
  }

  /** A transaction stays apart from another if it takes no order row and draws no ticket id that the other has. */
  lemma StaysApart(before: Tx, after: Tx, other: Tx)
    requires Apart(before, other) && Apart(other, before) && after.event == before.event
    requires after.Holds().Some? ==> after.Holds() != other.Holds()
    requires after.OwnTickets().Keys !! other.OwnTickets().Keys
    ensures Apart(after, other) && Apart(other, after)
  {}

  lemma InsertStaysApart(l: Ledger, tx: Tx, other: Tx)
    requires tx.phase.Issuing? && tx.phase.next < |tx.phase.rows| && Apart(tx, other) && Apart(other, tx)
    requires SkipsInsert(l, tx) || tx.draw(tx.phase.next) !in other.OwnTickets()
    ensures var after := AfterInsert(l, tx);
            after.Some? ==> Apart(after.value, other) && Apart(other, after.value)
  {
    if AfterInsert(l, tx).Some? { StaysApart(tx, AfterInsert(l, tx).value, other); }
  }

  lemma StatementKeepsApart(s: System, e: Event, u: TxId)
    requires SystemInv(s) && CanHappen(s, e) && !e.Base? && !e.Commit? && u in s.dels && u != e.t
    ensures e.t in Happen(s, e).dels ==>
              Apart(Happen(s, e).dels[e.t], s.dels[u]) && Apart(s.dels[u], Happen(s, e).dels[e.t])
  {
    if e.Open? {
    } else {
      assert Apart(s.dels[e.t], s.dels[u]) && Apart(s.dels[u], s.dels[e.t]);
      if e.Insert? {
        InsertStaysApart(s.Db(), s.dels[e.t], s.dels[u]);
      } else if e.t in Happen(s, e).dels {
        StaysApart(s.dels[e.t], Happen(s, e).dels[e.t], s.dels[u]);
      }
    }
  }

  lemma StatementKeepsDels(s: System, e: Event)
    requires SystemInv(s) && CanHappen(s, e) && !e.Base? && !e.Commit?
    ensures DelsOk(Happen(s, e)) && Happen(s, e).base == s.base
  {
    var s' := Happen(s, e);
    StatementKeepsTx(s, e);
    forall u | u in s'.dels && u != e.t ensures s'.dels[u] == s.dels[u] && TxOk(s'.Db(), s'.dels[u]) {
      assert TxOk(s.Db(), s.dels[u]);
    }
    forall u, v | u in s'.dels && v in s'.dels && u != v ensures Apart(s'.dels[u], s'.dels[v]) {
      if u == e.t {
        StatementKeepsApart(s, e, v);
      } else if v == e.t {
        StatementKeepsApart(s, e, u);
      } else {
        assert Apart(s.dels[u], s.dels[v]);
      }
    }
  }

  lemma CommitKeepsDels(s: System, t: TxId)
    requires SystemInv(s) && CanHappen(s, Commit(t))
    ensures DelsOk(Happen(s, Commit(t)))
  {
    var s' := Happen(s, Commit(t));
    assert TxOk(s.Db(), s.dels[t]);
    forall u | u in s'.dels ensures TxOk(s'.Db(), s'.dels[u]) {
      assert TxOk(s.Db(), s.dels[u]);
      CommitKeepsTx(s.Db(), s.dels[t], s.dels[u]);
    }
    forall u, v | u in s'.dels && v in s'.dels && u != v ensures Apart(s'.dels[u], s'.dels[v]) {
      assert Apart(s.dels[u], s.dels[v]);
    }
  }

  /** An event of the order transactions changes the committed tables by at most one atomic step, not a delivery. */
  lemma BaseIsOneStep(s: System, b: OI.Event) returns (step: Option<Step>)
    requires SystemInv(s) && CanHappen(s, Base(b))
    ensures step.Some? ==> !step.value.Deliver? && OI.Happen(s.base, b).db == Apply(s.Db(), step.value)
    ensures step.None? ==> OI.Happen(s.base, b).db == s.Db()
  {
    step := None;
    if b.Commit? {
      OI.CommitIsAtomicOrder(s.base, b.t, b.intent);
      step := Some(Order(s.base.txs[b.t].performance, s.base.txs[b.t].ids, s.base.txs[b.t].order, Some(b.intent)));
    } else if b.Committed? {
      step := Some(b.step);
    }
  }

  lemma BaseKeepsDels(s: System, b: OI.Event)
    requires SystemInv(s) && CanHappen(s, Base(b))
    ensures DelsOk(Happen(s, Base(b)))
  {
    var step := BaseIsOneStep(s, b);
    forall u | u in s.dels ensures TxOk(OI.Happen(s.base, b).db, s.dels[u]) {
      assert TxOk(s.Db(), s.dels[u]);
      if step.Some? { OrderOrRedeemKeepsTx(s.Db(), step.value, s.dels[u]); }
    }
  }

  // ----------------------------------------------------------------- whole runs

  /** The events of the coarser system an event stands for. */
  ghost function Meaning(s: System, e: Event): seq<OI.Event>
    requires WellFormed(s) && CanHappen(s, e)
  {
    match e
    case Base(b) => [b]
    case Commit(t) => [OI.Committed(Deliver(Atomic(s.Db(), s.dels[t])))]
    case _ => []
  }

  /** Every statement is no event of OrderInterleaving, or one, which can happen there and leads to the same state. */
  lemma EventRefines(s: System, e: Event)
    requires SystemInv(s) && CanHappen(s, e)
    ensures OI.Possible(s.base, Meaning(s, e)) && OI.Final(s.base, Meaning(s, e)) == Happen(s, e).base
    ensures OI.SystemInv(Happen(s, e).base)
  {
    var events := Meaning(s, e);
    if e.Commit? {
      assert TxOk(s.Db(), s.dels[e.t]);
      CommitIsAtomicDelivery(s.Db(), s.dels[e.t]);
    }
    if events != [] {
      OI.EventKeepsInv(s.base, events[0]);
      OI.InvIsWellFormed(OI.Happen(s.base, events[0]));
      assert events[1..] == [];
    }
  }

  lemma EventKeepsInv(s: System, e: Event)
    requires SystemInv(s) && CanHappen(s, e)
    ensures SystemInv(Happen(s, e))
  {
    EventRefines(s, e);
    match e
    case Base(b) => BaseKeepsDels(s, b);
    case Commit(t) => CommitKeepsDels(s, t);
    case _ => StatementKeepsDels(s, e);
    DelsAreWellFormed(Happen(s, e));
  }

  ghost predicate Possible(s: System, events: seq<Event>)
    decreases |events|
  {
    && WellFormed(s)
    && (events == [] || (CanHappen(s, events[0]) && Possible(Happen(s, events[0]), events[1..])))
  }

  ghost function Final(s: System, events: seq<Event>): System
    requires Possible(s, events)
    decreases |events|
  {
    if events == [] then s else Final(Happen(s, events[0]), events[1..])
  }

  ghost function Coarse(s: System, events: seq<Event>): seq<OI.Event>
    requires Possible(s, events)
    decreases |events|
  {
    if events == [] then [] else Meaning(s, events[0]) + Coarse(Happen(s, events[0]), events[1..])
  }

  lemma {:induction false} RunRefines(s: System, events: seq<Event>)
    requires SystemInv(s) && Possible(s, events)
    ensures OI.Possible(s.base, Coarse(s, events)) && OI.Final(s.base, Coarse(s, events)) == Final(s, events).base
    ensures SystemInv(Final(s, events))
    decreases |events|
  {
    if events == [] {
    } else {
      var s1 := Happen(s, events[0]);
      EventRefines(s, events[0]);
      EventKeepsInv(s, events[0]);
      RunRefines(s1, events[1..]);
      OI.PossibleConcat(s.base, Meaning(s, events[0]), Coarse(s1, events[1..]));
    }
  }

  /**
   Success and failure deliveries, interleaved statement by statement with each other and with order transactions,
   with aborts anywhere, commit exactly what a serial run of atomic orders, deliveries and redemptions commits; so
   in particular no seat ever has two tickets.
   */
  lemma DeliveriesAreSerial(s: System, events: seq<Event>)
    requires SystemInv(s) && Possible(s, events)
    ensures OI.Possible(s.base, Coarse(s, events))
    ensures var steps := OI.Serial(s.base, Coarse(s, events));
            EnabledRun(s.Db(), steps) && Final(s, events).Db() == Run(s.Db(), steps)
    ensures Inv(Final(s, events).Db()) && OneTicketPerSeat(Final(s, events).Db().tickets)
  {
    RunRefines(s, events);
    OI.InterleavingsAreSerial(s.base, Coarse(s, events));
  }

  lemma SeededSystem(seeded: Ledger)
    requires IsSeeded(seeded)
    ensures SystemInv(System(OI.System(seeded, map[]), map[]))
  {
    OI.SeededSystem(seeded);
    DelsAreWellFormed(System(OI.System(seeded, map[]), map[]));
  }

  /**
   From the seeded ledger with no transaction open: whatever order transactions and deliveries do, statement by
   statement, some serial run of atomic steps commits the same, and no seat has two tickets.
   */
  lemma EveryRunIsSerial(seeded: Ledger, events: seq<Event>)
    requires IsSeeded(seeded) && Possible(System(OI.System(seeded, map[]), map[]), events)
    ensures var s := System(OI.System(seeded, map[]), map[]);
            && OI.Possible(s.base, Coarse(s, events))
            && var steps := OI.Serial(s.base, Coarse(s, events));
               && EnabledRun(seeded, steps) && Final(s, events).Db() == Run(seeded, steps)
               && Inv(Final(s, events).Db()) && OneTicketPerSeat(Final(s, events).Db().tickets)
  {
    SeededSystem(seeded);
    DeliveriesAreSerial(System(OI.System(seeded, map[]), map[]), events);
  }
}
