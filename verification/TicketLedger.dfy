/**
 The three tables the order route, the Stripe webhook and ticket redemption act on, and each
 committed transaction as a function from ledger to ledger. A transaction that rolls back is the
 identity. Nothing here assumes that the ledger is well formed; LedgerInvariant proves that it is.
 */
module TicketLedger {
  import opened Options

  type OrderId = string
  type IntentId = string
  type EventId = string
  type Jti = string

  const PRICE_PER_SEAT: nat := 2500

  datatype SeatKey = SeatKey(performance: string, seat: string)
  datatype SeatState = Available | Reserved | Sold
  datatype SeatRow = SeatRow(state: SeatState, owner: Option<OrderId>)

  // The webhook looks for `Paid`, but no handler writes it; see LedgerInvariant.
  datatype OrderStatus = Pending | Confirmed | Paid | Failed
  datatype OrderRow = OrderRow(status: OrderStatus, totalMinor: nat, intent: Option<IntentId>)

  datatype TicketStatus = Issued | Redeemed | Revoked
  datatype Ticket = Ticket(order: OrderId, performance: string, seat: string, status: TicketStatus)

  type SeatTable = map<SeatKey, SeatRow>
  type OrderTable = map<OrderId, OrderRow>
  type TicketTable = map<Jti, Ticket>

  datatype Ledger = Ledger(seats: SeatTable, orders: OrderTable, tickets: TicketTable, seen: set<EventId>)

  // ---------------------------------------------------------------- statements

  predicate IsFree(seats: SeatTable, k: SeatKey) {
    k in seats && seats[k].state == Available
  }

  /** The per-seat compare-and-set loop; None is the miss that throws and rolls back. */
  function ReserveAll(seats: SeatTable, order: OrderId, performance: string, ids: seq<string>): Option<SeatTable>
    decreases |ids|
  {
    if ids == [] then Some(seats)
    else
      var k := SeatKey(performance, ids[0]);
      if IsFree(seats, k) then ReserveAll(seats[k := SeatRow(Reserved, Some(order))], order, performance, ids[1..])
      else None
  }

  predicate IsReservedBy(row: SeatRow, order: OrderId) {
    row.owner == Some(order) && row.state == Reserved
  }

  /** UPDATE seat_state SET state = 'sold' WHERE order_id = order AND state = 'reserved'. */
  function Sell(seats: SeatTable, order: OrderId): SeatTable {
    map k | k in seats :: if IsReservedBy(seats[k], order) then SeatRow(Sold, Some(order)) else seats[k]
  }

  /** UPDATE seat_state SET state = 'available', order_id = NULL WHERE order_id = order AND state = 'reserved'. */
  function Release(seats: SeatTable, order: OrderId): SeatTable {
    map k | k in seats :: if IsReservedBy(seats[k], order) then SeatRow(Available, None) else seats[k]
  }

  function OwnedBy(seats: SeatTable, order: OrderId): set<SeatKey> {
    set k | k in seats && seats[k].owner == Some(order)
  }

  function SoldTo(seats: SeatTable, order: OrderId): set<SeatKey> {
    set k | k in seats && seats[k] == SeatRow(Sold, Some(order))
  }

  /** The guard of the ticket insert: it compares order and seat, not performance. */
  predicate HasTicket(tickets: TicketTable, order: OrderId, seat: string) {
    exists j :: j in tickets && tickets[j].order == order && tickets[j].seat == seat
  }

  /**
   The ticket loop of the success branch over the selected rows. `draw(i)` is the jti drawn in
   iteration i; None is the violated UNIQUE (jti).
   */
  function IssueAll(tickets: TicketTable, order: OrderId, rows: seq<SeatKey>, draw: nat -> Jti, i: nat)
    : Option<TicketTable>
    requires i <= |rows|
    decreases |rows| - i
  {
    if i == |rows| then Some(tickets)
    else if HasTicket(tickets, order, rows[i].seat) then IssueAll(tickets, order, rows, draw, i + 1)
    else if draw(i) in tickets then None
    else
      var t := Ticket(order, rows[i].performance, rows[i].seat, Issued);
      IssueAll(tickets[draw(i) := t], order, rows, draw, i + 1)
  }

  predicate HasIntent(orders: OrderTable, o: OrderId, intent: IntentId) {
    o in orders && orders[o].intent == Some(intent)
  }

  /** SELECT id FROM orders.orders WHERE payment_intent_id = intent, first row. */
  ghost function OrderOf(orders: OrderTable, intent: IntentId): (r: Option<OrderId>)
    ensures r.Some? ==> HasIntent(orders, r.value, intent)
    ensures r.None? ==> forall o :: !HasIntent(orders, o, intent)
  {
    if exists o :: HasIntent(orders, o, intent) then
      var o :| HasIntent(orders, o, intent);
      Some(o)
    else None
  }

  // -------------------------------------------------------------- transactions

  datatype Kind = Succeeded | FailedOrCanceled | Other

  /**
   One webhook delivery. `rows` is the order in which the database returns the sold seats, `draw`
   the random ticket ids, and `fault` says that some statement of the transaction fails.
   */
  datatype Delivery = Delivery(event: Option<EventId>, kind: Kind, intent: IntentId,
                               rows: seq<SeatKey>, draw: nat -> Jti, fault: bool)

  /** POST /v1/orders: `intent` is None when the payment provider call fails. */
  ghost function PlaceOrder(l: Ledger, performance: string, ids: seq<string>, order: OrderId, intent: Option<IntentId>)
    : Ledger
  {
    if performance == "" || ids == [] || order in l.orders then l
    else
      match ReserveAll(l.seats, order, performance, ids)
      case None => l
      case Some(seats) =>
        if intent.None? || OrderOf(l.orders, intent.value).Some? then l
        else l.(seats := seats, orders := l.orders[order := OrderRow(Pending, |ids| * PRICE_PER_SEAT, intent)])
  }

  function MarkSeen(l: Ledger, event: Option<EventId>): Ledger {
    if event.Some? then l.(seen := l.seen + {event.value}) else l
  }

  predicate Deduplicated(l: Ledger, d: Delivery) {
    d.event.Some? && d.event.value in l.seen
  }

  function SetStatus(orders: OrderTable, o: OrderId, status: OrderStatus): OrderTable
    requires o in orders
  {
    orders[o := orders[o].(status := status)]
  }

  /** The success branch once the order is known. Every ROLLBACK also drops the de-duplication row. */
  function ConfirmOrder(l: Ledger, o: OrderId, d: Delivery): Ledger
    requires o in l.orders
  {
    if l.orders[o].status == Confirmed || l.orders[o].status == Paid then l
    else
      match IssueAll(l.tickets, o, d.rows, d.draw, 0)
      case None => l
      case Some(tickets) =>
        MarkSeen(Ledger(Sell(l.seats, o), SetStatus(l.orders, o, Confirmed), tickets, l.seen), d.event)
  }

  function FailOrder(l: Ledger, o: OrderId, d: Delivery): Ledger
    requires o in l.orders
  {
    MarkSeen(l.(seats := Release(l.seats, o), orders := SetStatus(l.orders, o, Failed)), d.event)
  }

  /** POST /v1/payments/webhook/stripe after signature checks. */
  ghost function Webhook(l: Ledger, d: Delivery): Ledger {
    if d.intent == "" || d.fault || Deduplicated(l, d) then l
    else
      match (d.kind, OrderOf(l.orders, d.intent))
      case (Succeeded, None) => l
      case (Succeeded, Some(o)) => ConfirmOrder(l, o, d)
      case (FailedOrCanceled, None) => MarkSeen(l, d.event)
      case (FailedOrCanceled, Some(o)) => FailOrder(l, o, d)
      case (Other, _) => MarkSeen(l, d.event)
  }

  datatype RedeemReply = RedeemedNow | NotFound | AlreadyRedeemed | WasRevoked

  function RedeemOutcome(tickets: TicketTable, jti: Jti): RedeemReply {
    if jti !in tickets then NotFound
    else match tickets[jti].status
      case Issued => RedeemedNow
      case Redeemed => AlreadyRedeemed
      case Revoked => WasRevoked
  }

  /** The transaction of POST /v1/verification/redeem. */
  function Redeem(l: Ledger, jti: Jti): Ledger {
    if RedeemOutcome(l.tickets, jti) == RedeemedNow
    then l.(tickets := l.tickets[jti := l.tickets[jti].(status := Redeemed)])
    else l
  }

  // ---------------------------------------------------------------------- runs

  datatype Step =
    | Order(performance: string, ids: seq<string>, order: OrderId, intent: Option<IntentId>)
    | Deliver(delivery: Delivery)
    | RedeemTicket(jti: Jti)

  ghost function Apply(l: Ledger, s: Step): Ledger {
    match s
    case Order(performance, ids, order, intent) => PlaceOrder(l, performance, ids, order, intent)
    case Deliver(d) => Webhook(l, d)
    case RedeemTicket(jti) => Redeem(l, jti)
  }

  /** `rows` lists every key once. */
  ghost predicate Enumerates(rows: seq<SeatKey>, keys: set<SeatKey>) {
    && (forall i, j :: 0 <= i < j < |rows| ==> rows[i] != rows[j])
    && (forall k :: k in rows <==> k in keys)
  }

  /** The delivery gets as far as selling the seats of `o` and issuing tickets for them. */
  ghost predicate ReachesTicketLoop(l: Ledger, d: Delivery, o: OrderId) {
    && d.kind == Succeeded && d.intent != "" && !d.fault && !Deduplicated(l, d)
    && OrderOf(l.orders, d.intent) == Some(o)
    && l.orders[o].status != Confirmed && l.orders[o].status != Paid
  }

  /** The rows a delivery sees are the seats sold to its order after the seat update, in any order. */
  ghost predicate SeesSoldRows(l: Ledger, d: Delivery) {
    forall o :: ReachesTicketLoop(l, d, o) ==> Enumerates(d.rows, SoldTo(Sell(l.seats, o), o))
  }

  ghost predicate Enabled(l: Ledger, s: Step) {
    s.Deliver? ==> SeesSoldRows(l, s.delivery)
  }

  ghost function Run(l: Ledger, steps: seq<Step>): Ledger
    decreases |steps|
  {
    if steps == [] then l else Run(Apply(l, steps[0]), steps[1..])
  }

  ghost predicate EnabledRun(l: Ledger, steps: seq<Step>)
    decreases |steps|
  {
    steps == [] || (Enabled(l, steps[0]) && EnabledRun(Apply(l, steps[0]), steps[1..]))
  }

  /** The seeded ledger: every catalogue seat available, no orders, no tickets. */
  ghost predicate IsSeeded(l: Ledger) {
    && (forall k :: k in l.seats ==> l.seats[k] == SeatRow(Available, None))
    && l.orders == map[] && l.tickets == map[]
  }
}
