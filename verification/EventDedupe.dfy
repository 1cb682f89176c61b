/**
 What a recorded event id does: which deliveries commit and with what effect, which ids a run records, and that an
 event whose delivery has committed never changes the ledger again.
 */
module EventDedupe {
  import opened Options
  import opened TicketLedger
  import opened LedgerInvariant

  /** The success branch reaches its COMMIT for the order o. */
  ghost predicate Confirms(l: Ledger, d: Delivery, o: OrderId) {
    && OrderOf(l.orders, d.intent) == Some(o)
    && l.orders[o].status != Confirmed && l.orders[o].status != Paid
    && DrawsFit(l.tickets, o, d.rows, d.draw, 0)
  }

  /** The delivery names an intent, no statement of it fails, its event id is new, and a success finds its order. */
  ghost predicate Commits(l: Ledger, d: Delivery) {
    && d.intent != "" && !d.fault
    && (d.event.Some? ==> d.event.value !in l.seen)
    && (d.kind == Succeeded ==> exists o :: Confirms(l, d, o))
  }

  /** The rows that were reserved for the order o become `row`; no other row changes. */
  ghost predicate ReservedBecome(seats: SeatTable, seats': SeatTable, o: OrderId, row: SeatRow) {
    && seats'.Keys == seats.Keys
    && forall k :: k in seats ==> seats'[k] == if seats[k] == SeatRow(Reserved, Some(o)) then row else seats[k]
  }

  /** The order o gets the status and keeps its total and intent; no other order changes. */
  ghost predicate OnlyStatus(orders: OrderTable, orders': OrderTable, o: OrderId, status: OrderStatus) {
    && o in orders && orders'.Keys == orders.Keys
    && orders'[o] == OrderRow(status, orders[o].totalMinor, orders[o].intent)
    && forall p :: p in orders && p != o ==> orders'[p] == orders[p]
  }

  ghost predicate SuccessEffect(l: Ledger, l': Ledger, d: Delivery, o: OrderId) {
    && OnlyStatus(l.orders, l'.orders, o, Confirmed)
    && ReservedBecome(l.seats, l'.seats, o, SeatRow(Sold, Some(o)))
    && IssuedFor(l.tickets, l'.tickets, o, RowSet(d.rows, 0))
  }

  ghost predicate FailureEffect(l: Ledger, l': Ledger, o: OrderId) {
    && OnlyStatus(l.orders, l'.orders, o, Failed)
    && ReservedBecome(l.seats, l'.seats, o, SeatRow(Available, None))
    && l'.tickets == l.tickets
  }

  ghost predicate NoEffect(l: Ledger, l': Ledger) {
    l'.seats == l.seats && l'.orders == l.orders && l'.tickets == l.tickets
  }

  lemma SuccessIsExact(l: Ledger, d: Delivery)
    requires d.kind == Succeeded && d.intent != "" && !d.fault && (d.event.Some? ==> d.event.value !in l.seen)
    ensures Commits(l, d) ==>
              var o := OrderOf(l.orders, d.intent);
              o.Some? && SuccessEffect(l, Webhook(l, d), d, o.value)
    ensures !Commits(l, d) ==> Webhook(l, d) == l
    ensures Commits(l, d) ==> Webhook(l, d).seen == l.seen + if d.event.Some? then {d.event.value} else {}
  {
    match OrderOf(l.orders, d.intent)
    case None =>
    case Some(o) =>
      IssueAllSucceedsIff(l.tickets, o, d.rows, d.draw, 0);
      IssueAllIssues(l.tickets, o, d.rows, d.draw, 0);
      assert Commits(l, d) <==> Confirms(l, d, o);
  }

  /**
   What one delivery does, for every ledger: nothing unless it commits; and if it does, its event id is recorded, and
   a success sells the reserved seats of its order and issues the missing tickets, a failure gives them back, and any
   other type, or a failure without an order, does no more.
   */
  lemma DeliveryIsExact(l: Ledger, d: Delivery)
    ensures var l' := Webhook(l, d);
            if !Commits(l, d) then l' == l
            else
              && l'.seen == l.seen + (if d.event.Some? then {d.event.value} else {})
              && var o := OrderOf(l.orders, d.intent);
                 match d.kind
                 case Succeeded => o.Some? && SuccessEffect(l, l', d, o.value)
                 case FailedOrCanceled => if o.Some? then FailureEffect(l, l', o.value) else NoEffect(l, l')
                 case Other => NoEffect(l, l')
  {
    if d.kind == Succeeded && d.intent != "" && !d.fault && (d.event.Some? ==> d.event.value !in l.seen) {
      SuccessIsExact(l, d);
    }
  }

  // ---------------------------------------------------------------- recorded ids

  /** The step is a delivery of the event that commits. */
  ghost predicate Records(l: Ledger, s: Step, e: EventId) {
    s.Deliver? && s.delivery.event == Some(e) && Commits(l, s.delivery)
  }

  /** An event id is recorded exactly if it was before or the step is a delivery of it that commits. */
  lemma SeenIff(l: Ledger, s: Step, e: EventId)
    ensures e in Apply(l, s).seen <==> e in l.seen || Records(l, s, e)
  {
    match s
    case Order(performance, ids, order, intent) => PlaceOrderAllOrNothing(l, performance, ids, order, intent);
    case Deliver(d) => DeliveryIsExact(l, d);
    case RedeemTicket(jti) =>
  }

  /** A delivery of a recorded event changes nothing at all. */
  lemma RecordedIsInert(l: Ledger, d: Delivery)
    requires d.event.Some? && d.event.value in l.seen
    ensures Webhook(l, d) == l
  {
    DeliveryIsExact(l, d);
  }

  /** How many deliveries of the event commit in the run. */
  ghost function CommitsOf(l: Ledger, steps: seq<Step>, e: EventId): nat
    decreases |steps|
  {
    if steps == [] then 0
    else (if Records(l, steps[0], e) then 1 else 0) + CommitsOf(Apply(l, steps[0]), steps[1..], e)
  }

  /** In any run from any ledger an event commits at most once, and only if it was not recorded before. */
  lemma {:induction false} EventCommitsAtMostOnce(l: Ledger, steps: seq<Step>, e: EventId)
    ensures CommitsOf(l, steps, e) == if e in Run(l, steps).seen && e !in l.seen then 1 else 0
    ensures e in l.seen ==> e in Run(l, steps).seen
    decreases |steps|
  {
    if steps != [] {
      SeenIff(l, steps[0], e);
      EventCommitsAtMostOnce(Apply(l, steps[0]), steps[1..], e);
    }
  }

  predicate IsDeliveryOf(s: Step, e: EventId) {
    s.Deliver? && s.delivery.event == Some(e)
  }

  /** The run without any delivery of the event. */
  function Without(steps: seq<Step>, e: EventId): seq<Step>
    decreases |steps|
  {
    if steps == [] then []
    else (if IsDeliveryOf(steps[0], e) then [] else [steps[0]]) + Without(steps[1..], e)
  }

  /** Once an event is recorded, its deliveries can be struck from any run. */
  lemma {:induction false} RedeliveriesDoNothing(l: Ledger, steps: seq<Step>, e: EventId)
    requires e in l.seen
    ensures Run(l, Without(steps, e)) == Run(l, steps)
    decreases |steps|
  {
    if steps != [] {
      var s, rest := steps[0], Without(steps[1..], e);
      SeenIff(l, s, e);
      RedeliveriesDoNothing(Apply(l, s), steps[1..], e);
      if IsDeliveryOf(s, e) {
        RecordedIsInert(l, s.delivery);
        assert Without(steps, e) == rest;
      } else {
        assert ([s] + rest)[1..] == rest;
      }
    }
  }

  /**
   After a delivery of an event has committed, whatever happens next: every later delivery of that event, of whatever
   type and for whatever order, leaves the whole ledger as it is, order status included.
   */
  lemma CommittedEventIsInert(l: Ledger, d: Delivery, steps: seq<Step>, again: Delivery)
    requires Commits(l, d) && d.event.Some? && again.event == d.event
    ensures var l' := Run(Webhook(l, d), steps);
            Webhook(l', again) == l' && l' == Run(Webhook(l, d), Without(steps, d.event.value))
  {
    var e := d.event.value;
    DeliveryIsExact(l, d);
    EventCommitsAtMostOnce(Webhook(l, d), steps, e);
    RedeliveriesDoNothing(Webhook(l, d), steps, e);
    RecordedIsInert(Run(Webhook(l, d), steps), again);
  }

  /** A delivery that rolls back leaves no trace: delivered again, it does what a first delivery would. */
  lemma RolledBackMayReturn(l: Ledger, d: Delivery, again: Delivery)
    requires !Commits(l, d)
    ensures Webhook(Webhook(l, d), again) == Webhook(l, again)
    ensures d.fault && Commits(l, d.(fault := false)) && d.event.Some? ==>
              d.event.value in Webhook(Webhook(l, d), d.(fault := false)).seen
  {
    DeliveryIsExact(l, d);
    DeliveryIsExact(l, d.(fault := false));
  }
}
