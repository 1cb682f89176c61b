/**
 The handlers as they run: statements that update the tables one after another inside a transaction,
 and a ROLLBACK that puts the tables back. Each handler is proved to take the ledger exactly where the
 corresponding function of TicketLedger says.
 */
module LedgerStore {
  import opened Options
  import opened TicketLedger
  import opened LedgerInvariant

  class Store {
    var seats: SeatTable
    var orders: OrderTable
    var tickets: TicketTable
    var seen: set<EventId>

    ghost function State(): Ledger
      reads this
    {
      Ledger(seats, orders, tickets, seen)
    }

    ghost predicate Valid()
      reads this
    {
      Inv(State())
    }

    /** The seed script: every catalogue seat becomes an available row. */
    constructor (catalogue: set<SeatKey>)
      ensures Valid() && IsSeeded(State()) && seats.Keys == catalogue
    {
      seats := map k | k in catalogue :: SeatRow(Available, None);
      orders := map[];
      tickets := map[];
      seen := {};
      new;
      SeededInv(State());
    }

    // -------------------------------------------------------------- statements

    /** The guarded UPDATE of one seat; returns the row count. */
    method ReserveSeat(order: OrderId, k: SeatKey) returns (rowCount: nat)
      modifies this`seats
      ensures rowCount == if IsFree(old(seats), k) then 1 else 0
      ensures seats == if rowCount == 1 then old(seats)[k := SeatRow(Reserved, Some(order))] else old(seats)
    {
      if k in seats && seats[k].state == Available {
        seats := seats[k := SeatRow(Reserved, Some(order))];
        return 1;
      }
      return 0;
    }

    method SelectOrder(intent: IntentId) returns (found: Option<OrderId>)
      requires IntentsUnique(orders)
      ensures found == OrderOf(orders, intent)
    {
      if exists o :: o in orders && orders[o].intent == Some(intent) {
        var o :| o in orders && orders[o].intent == Some(intent);
        assert HasIntent(orders, o, intent);
        return Some(o);
      }
      return None;
    }

    /** SELECT ... WHERE order_id = order AND state = 'sold': each such row once, in no particular order. */
    method SelectSold(order: OrderId) returns (rows: seq<SeatKey>)
      ensures Enumerates(rows, SoldTo(seats, order))
    {
      rows := [];
      var left := SoldTo(seats, order);
      while left != {}
        invariant left <= SoldTo(seats, order)
        invariant Enumerates(rows, SoldTo(seats, order) - left)
        decreases left
      {
        var k :| k in left;
        rows := rows + [k];
        left := left - {k};
      }
    }

    // ---------------------------------------------------------------- handlers

    /** The reservation loop; stops at the first seat that is no longer available. */
    method ReserveSeats(performance: string, ids: seq<string>, order: OrderId) returns (complete: bool)
      modifies this`seats
      ensures complete == ReserveAll(old(seats), order, performance, ids).Some?
      ensures complete ==> seats == ReserveAll(old(seats), order, performance, ids).value
    {
      var i := 0;
      while i < |ids|
        invariant 0 <= i <= |ids|
        invariant ReserveAll(old(seats), order, performance, ids) == ReserveAll(seats, order, performance, ids[i..])
      {
        var rowCount := ReserveSeat(order, SeatKey(performance, ids[i]));
        assert ids[i..][1..] == ids[i + 1..];
        if rowCount == 0 { return false; }
        i := i + 1;
      }
      return true;
    }

    method IntentTaken(intent: IntentId) returns (taken: bool)
      ensures taken <==> exists o :: HasIntent(orders, o, intent)
    {
      taken := exists o :: o in orders && orders[o].intent == Some(intent);
      if taken {
        var o :| o in orders && orders[o].intent == Some(intent);
        assert HasIntent(orders, o, intent);
      }
    }

    /**
     POST /v1/orders: insert the order, reserve seat by seat, attach the payment intent. `intent` is what
     the payment provider answers, None when the call throws.
     */
    method CreateOrder(performance: string, ids: seq<string>, order: OrderId, intent: Option<IntentId>)
      returns (created: bool)
      requires Valid()
      modifies this
      ensures Valid()
      ensures State() == PlaceOrder(old(State()), performance, ids, order, intent)
      ensures created <==> CanPlace(old(State()), performance, ids, order, intent)
    {
      PlaceOrderAllOrNothing(State(), performance, ids, order, intent);
      OrderKeepsInv(State(), performance, ids, order, intent);
      created := InsertOrder(performance, ids, order, intent);
    }

    method InsertOrder(performance: string, ids: seq<string>, order: OrderId, intent: Option<IntentId>)
      returns (created: bool)
      modifies this
      ensures State() == PlaceOrder(old(State()), performance, ids, order, intent)
      ensures created <==> CanPlace(old(State()), performance, ids, order, intent)
    {
      ReserveAllOrNothing(seats, order, performance, ids);
      if performance == "" || ids == [] { return false; }
      var seats0, orders0 := seats, orders;  // BEGIN
      if order in orders { return false; }
      orders := orders[order := OrderRow(Pending, |ids| * PRICE_PER_SEAT, None)];
      var complete := ReserveSeats(performance, ids, order);
      var taken := false;
      if intent.Some? { taken := IntentTaken(intent.value); }
      assert intent.Some? ==> forall o :: HasIntent(orders, o, intent.value) <==> HasIntent(orders0, o, intent.value);
      if !complete || intent.None? || taken {
        seats, orders := seats0, orders0;  // ROLLBACK
        return false;
      }
      orders := orders[order := orders[order].(intent := intent)];
      return true;  // COMMIT
    }

    /**
     POST /v1/payments/webhook/stripe. `deduped` is the answer to an event recorded before, `issued` counts
     the tickets written; `rows` is the order in which the database happened to return the sold seats. A
     `fault` is any statement that fails before the COMMIT, for instance the insert into stripe_events.
     */
    method HandleWebhook(event: Option<EventId>, kind: Kind, intent: IntentId, draw: nat -> Jti, fault: bool)
      returns (deduped: bool, issued: nat, ghost rows: seq<SeatKey>)
      requires Valid()
      modifies this
      ensures Valid()
      ensures var d := Delivery(event, kind, intent, rows, draw, fault);
              SeesSoldRows(old(State()), d) && State() == Webhook(old(State()), d)
      ensures deduped <==> intent != "" && event.Some? && event.value in old(seen)
      ensures deduped ==> State() == old(State())
      ensures issued == |tickets| - |old(tickets)|
    {
      deduped, issued, rows := false, 0, [];
      if intent == "" { return; }
      var seen0 := seen;  // BEGIN
      if event.Some? {
        if event.value in seen { return true, 0, []; }
        seen := seen + {event.value};
      }
      match kind {
        case Succeeded =>
          issued, rows := Confirm(event, intent, draw, fault, seen0);
        case FailedOrCanceled =>
          Fail(event, intent, fault, seen0);
        case Other =>
          if fault { seen := seen0; }
      }
      WebhookKeepsInv(old(State()), Delivery(event, kind, intent, rows, draw, fault));
    }

    /** The ledger as it was before the transaction wrote its de-duplication row. */
    ghost function Before(seen0: set<EventId>): Ledger
      reads this
    {
      Ledger(seats, orders, tickets, seen0)
    }

    /** The transaction has passed de-duplication and written nothing but its de-duplication row. */
    ghost predicate Opened(event: Option<EventId>, seen0: set<EventId>)
      reads this
    {
      && Inv(Before(seen0))
      && State() == MarkSeen(Before(seen0), event)
      && (event.Some? ==> event.value !in seen0)
    }

    /** The ticket loop; stops when a drawn jti violates UNIQUE (tenant_id, jti). */
    method IssueTickets(o: OrderId, selected: seq<SeatKey>, draw: nat -> Jti) returns (ok: bool, issued: nat)
      modifies this`tickets
      ensures ok == IssueAll(old(tickets), o, selected, draw, 0).Some?
      ensures ok ==> tickets == IssueAll(old(tickets), o, selected, draw, 0).value
      ensures issued == |tickets| - |old(tickets)|
    {
      issued := 0;
      var i := 0;
      while i < |selected|
        invariant 0 <= i <= |selected|
        invariant IssueAll(old(tickets), o, selected, draw, 0) == IssueAll(tickets, o, selected, draw, i)
        invariant issued == |tickets| - |old(tickets)|
      {
        if !HasTicket(tickets, o, selected[i].seat) {
          if draw(i) in tickets { return false, issued; }
          tickets := tickets[draw(i) := Ticket(o, selected[i].performance, selected[i].seat, Issued)];
          issued := issued + 1;
        }
        i := i + 1;
      }
      return true, issued;
    }

    method Confirm(event: Option<EventId>, intent: IntentId, draw: nat -> Jti, fault: bool, seen0: set<EventId>)
      returns (issued: nat, ghost rows: seq<SeatKey>)
      requires intent != "" && Opened(event, seen0)
      modifies this
      ensures var d := Delivery(event, Succeeded, intent, rows, draw, fault);
              SeesSoldRows(old(Before(seen0)), d) && State() == Webhook(old(Before(seen0)), d)
      ensures issued == |tickets| - |old(tickets)|
    {
      issued, rows := 0, [];
      var seats0, orders0, tickets0 := seats, orders, tickets;
      var known := SelectOrder(intent);
      if known.None? || orders[known.value].status == Confirmed || orders[known.value].status == Paid {
        seen := seen0;  // ROLLBACK
        return;
      }
      var o := known.value;
      orders := SetStatus(orders, o, Confirmed);
      seats := Sell(seats, o);
      var selected := SelectSold(o);
      rows := selected;
      var ok;
      ok, issued := IssueTickets(o, selected, draw);
      if !ok || fault {
        seats, orders, tickets, seen, issued := seats0, orders0, tickets0, seen0, 0;  // ROLLBACK
      }
    }

    method Fail(event: Option<EventId>, intent: IntentId, fault: bool, seen0: set<EventId>)
      requires intent != "" && Opened(event, seen0)
      modifies this
      ensures forall rows, draw ::
                State() == Webhook(old(Before(seen0)), Delivery(event, FailedOrCanceled, intent, rows, draw, fault))
    {
      var seats0, orders0 := seats, orders;
      var known := SelectOrder(intent);
      if known.Some? {
        orders := SetStatus(orders, known.value, Failed);
        seats := Release(seats, known.value);
      }
      if fault {
        seats, orders, seen := seats0, orders0, seen0;  // ROLLBACK
      }
    }

    /** The transaction of POST /v1/verification/redeem. */
    method RedeemTicket(jti: Jti) returns (reply: RedeemReply)
      requires Valid()
      modifies this
      ensures Valid()
      ensures State() == Redeem(old(State()), jti)
      ensures reply == RedeemOutcome(old(tickets), jti)
    {
      RedeemKeepsInv(State(), jti);
      if jti !in tickets { return NotFound; }
      var status := tickets[jti].status;
      if status == Redeemed { return AlreadyRedeemed; }
      if status == Revoked { return WasRevoked; }
      tickets := tickets[jti := tickets[jti].(status := Redeemed)];
      return RedeemedNow;
    }
  }
}
