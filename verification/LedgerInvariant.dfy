/**
 What every committed transaction keeps: the shape of seat rows, the link between an order's status
 and its seats, and the one-to-one match between sold seats and tickets.
 */
module LedgerInvariant {
  import opened Options
  import opened TicketLedger

  // ---------------------------------------------------------------- predicates

  ghost predicate RowsShaped(seats: SeatTable) {
    forall k :: k in seats ==> (seats[k].state == Available <==> seats[k].owner == None)
  }

  ghost predicate OwnersExist(l: Ledger) {
    forall k :: k in l.seats && l.seats[k].owner.Some? ==> l.seats[k].owner.value in l.orders
  }

  ghost predicate AllInState(seats: SeatTable, keys: set<SeatKey>, state: SeatState) {
    forall k :: k in keys ==> k in seats && seats[k].state == state
  }

  ghost predicate OnePerformance(keys: set<SeatKey>) {
    forall k1, k2 :: k1 in keys && k2 in keys ==> k1.performance == k2.performance
  }

  /** A pending order holds exactly what it pays for; a decided one holds all of it, sold, or nothing. */
  ghost predicate OrderShaped(l: Ledger, o: OrderId)
    requires o in l.orders
  {
    var row := l.orders[o];
    var mine := OwnedBy(l.seats, o);
    && row.totalMinor > 0
    && row.status != Paid
    && row.intent.Some?
    && OnePerformance(mine)
    && (row.status == Pending ==> |mine| * PRICE_PER_SEAT == row.totalMinor && AllInState(l.seats, mine, Reserved))
    && (row.status != Pending ==>
          AllInState(l.seats, mine, Sold) && (mine == {} || |mine| * PRICE_PER_SEAT == row.totalMinor))
  }

  ghost predicate IntentsUnique(orders: OrderTable) {
    forall o1, o2 :: o1 in orders && o2 in orders && orders[o1].intent.Some? && orders[o1].intent == orders[o2].intent
      ==> o1 == o2
  }

  function SeatOf(t: Ticket): SeatKey {
    SeatKey(t.performance, t.seat)
  }

  /** A ticket is for a seat that is sold to the order the ticket names. */
  ghost predicate TicketValid(seats: SeatTable, t: Ticket) {
    SeatOf(t) in seats && seats[SeatOf(t)] == SeatRow(Sold, Some(t.order))
  }

  ghost predicate IsTicketFor(tickets: TicketTable, j: Jti, k: SeatKey) {
    j in tickets && SeatOf(tickets[j]) == k
  }

  ghost predicate TicketsValid(seats: SeatTable, tickets: TicketTable) {
    forall j :: j in tickets ==> TicketValid(seats, tickets[j])
  }

  ghost predicate IsTicketed(tickets: TicketTable, k: SeatKey) {
    exists j :: IsTicketFor(tickets, j, k)
  }

  ghost predicate SoldSeatsTicketed(seats: SeatTable, tickets: TicketTable) {
    forall k :: k in seats && seats[k].state == Sold ==> IsTicketed(tickets, k)
  }

  ghost predicate OneTicketPerSeat(tickets: TicketTable) {
    forall j1, j2 :: j1 in tickets && j2 in tickets && SeatOf(tickets[j1]) == SeatOf(tickets[j2]) ==> j1 == j2
  }

  /** Tickets and sold seats are in bijection. */
  ghost predicate TicketsMatchSold(l: Ledger) {
    && TicketsValid(l.seats, l.tickets)
    && SoldSeatsTicketed(l.seats, l.tickets)
    && OneTicketPerSeat(l.tickets)
  }

  ghost predicate Inv(l: Ledger) {
    && RowsShaped(l.seats)
    && OwnersExist(l)
    && (forall o :: o in l.orders ==> OrderShaped(l, o))
    && IntentsUnique(l.orders)
    && TicketsMatchSold(l)
  }

  // ------------------------------------------------------------ order creation

  predicate Distinct(ids: seq<string>) {
    forall i, j :: 0 <= i < j < |ids| ==> ids[i] != ids[j]
  }

  function KeysOf(performance: string, ids: seq<string>): set<SeatKey> {
    set s | s in ids :: SeatKey(performance, s)
  }

  /** The seat table after `order` has taken exactly `keys`. */
  function Taken(seats: SeatTable, order: OrderId, keys: set<SeatKey>): SeatTable {
    map k | k in seats :: if k in keys then SeatRow(Reserved, Some(order)) else seats[k]
  }

  ghost predicate AllFree(seats: SeatTable, performance: string, ids: seq<string>) {
    forall s :: s in ids ==> IsFree(seats, SeatKey(performance, s))
  }

  /**
   The loop reserves every requested seat or misses; a repeated seat id is always a miss, because
   the second visit finds the row reserved by the first.
   */
  lemma {:induction false} ReserveAllOrNothing(seats: SeatTable, order: OrderId, performance: string, ids: seq<string>)
    ensures var r := ReserveAll(seats, order, performance, ids);
            && (r.Some? <==> Distinct(ids) && AllFree(seats, performance, ids))
            && (r.Some? ==> r.value == Taken(seats, order, KeysOf(performance, ids)))
    decreases |ids|
  {
    if ids == [] {
    } else {
      var k := SeatKey(performance, ids[0]);
      assert ids[0] in ids;
      if IsFree(seats, k) {
        var seats' := seats[k := SeatRow(Reserved, Some(order))];
        ReserveAllOrNothing(seats', order, performance, ids[1..]);
        assert forall s :: s in ids <==> s == ids[0] || s in ids[1..];
        if Distinct(ids) && AllFree(seats, performance, ids) {
          assert forall s :: s in ids[1..] ==> s != ids[0];
          assert AllFree(seats', performance, ids[1..]);
        }
        if Distinct(ids[1..]) && AllFree(seats', performance, ids[1..]) {
          assert !IsFree(seats', k);
          assert ids[0] !in ids[1..];
          forall s | s in ids ensures IsFree(seats, SeatKey(performance, s)) {
            if s != ids[0] { assert IsFree(seats', SeatKey(performance, s)); }
          }
          assert Taken(seats', order, KeysOf(performance, ids[1..])) == Taken(seats, order, KeysOf(performance, ids));
        }
      }
    }
  }

  lemma {:induction false} DistinctCount(performance: string, ids: seq<string>)
    requires Distinct(ids)
    ensures |KeysOf(performance, ids)| == |ids|
    decreases |ids|
  {
    if ids == [] {
      assert KeysOf(performance, ids) == {};
    } else {
      DistinctCount(performance, ids[1..]);
      assert KeysOf(performance, ids) == KeysOf(performance, ids[1..]) + {SeatKey(performance, ids[0])};
      assert SeatKey(performance, ids[0]) !in KeysOf(performance, ids[1..]);
    }
  }

  ghost predicate CanPlace(l: Ledger, performance: string, ids: seq<string>, order: OrderId, intent: Option<IntentId>) {
    && performance != "" && ids != [] && order !in l.orders
    && Distinct(ids) && AllFree(l.seats, performance, ids)
    && intent.Some? && forall o :: !HasIntent(l.orders, o, intent.value)
  }

  /** An order takes all of its seats and appears as pending, or the ledger is untouched. */
  lemma PlaceOrderAllOrNothing(l: Ledger, performance: string, ids: seq<string>, order: OrderId,
                               intent: Option<IntentId>)
    ensures var l' := PlaceOrder(l, performance, ids, order, intent);
            if CanPlace(l, performance, ids, order, intent) then
              && l'.seats == Taken(l.seats, order, KeysOf(performance, ids))
              && l'.orders == l.orders[order := OrderRow(Pending, |ids| * 2500, intent)]
              && l'.tickets == l.tickets && l'.seen == l.seen
            else l' == l
  {
    ReserveAllOrNothing(l.seats, order, performance, ids);
  }

  lemma OrderKeepsInv(l: Ledger, performance: string, ids: seq<string>, order: OrderId, intent: Option<IntentId>)
    requires Inv(l)
    ensures Inv(PlaceOrder(l, performance, ids, order, intent))
  {
    PlaceOrderAllOrNothing(l, performance, ids, order, intent);
    if CanPlace(l, performance, ids, order, intent) {
      var l' := PlaceOrder(l, performance, ids, order, intent);
      var keys := KeysOf(performance, ids);
      DistinctCount(performance, ids);
      assert forall k :: k in keys ==> IsFree(l.seats, k);
      assert OwnedBy(l'.seats, order) == keys;
      forall o | o in l'.orders ensures OrderShaped(l', o) {
        if o != order {
          assert OwnedBy(l'.seats, o) == OwnedBy(l.seats, o);
          assert OrderShaped(l, o);
        }
      }
      forall j | j in l'.tickets ensures TicketValid(l'.seats, l'.tickets[j]) {
        assert TicketValid(l.seats, l.tickets[j]);
      }
      assert IntentsUnique(l'.orders) by {
        forall o1, o2
          | o1 in l'.orders && o2 in l'.orders && l'.orders[o1].intent.Some?
            && l'.orders[o1].intent == l'.orders[o2].intent
          ensures o1 == o2
        {
          assert !HasIntent(l.orders, o1, intent.value) && !HasIntent(l.orders, o2, intent.value);
        }
      }
    }
  }

  // ------------------------------------------------------------------ webhooks

  /** What the ticket loop adds: a fresh issued ticket for a row of `rows`, and nothing else. */
  ghost predicate IssuedFor(before: TicketTable, after: TicketTable, order: OrderId, keys: set<SeatKey>) {
    && (forall j :: j in before ==> j in after && after[j] == before[j])
    && (forall j :: j in after && j !in before ==>
          after[j].order == order && after[j].status == Issued && SeatOf(after[j]) in keys)
    && (forall k :: k in keys ==> HasTicket(after, order, k.seat))
    && (forall j :: j in after && j !in before ==> !HasTicket(before, order, after[j].seat))
    && (forall j1, j2 | j1 in after && j1 !in before && j2 in after && j2 !in before ::
          after[j1].seat == after[j2].seat ==> j1 == j2)
  }

  ghost function RowSet(rows: seq<SeatKey>, lo: nat): set<SeatKey>
    requires lo <= |rows|
  {
    set i | lo <= i < |rows| :: rows[i]
  }

  lemma IssuedOneMore(tickets: TicketTable, after: TicketTable, order: OrderId, k: SeatKey, keys: set<SeatKey>, j0: Jti)
    requires j0 !in tickets && !HasTicket(tickets, order, k.seat)
    requires IssuedFor(tickets[j0 := Ticket(order, k.performance, k.seat, Issued)], after, order, keys)
    ensures IssuedFor(tickets, after, order, {k} + keys)
  {
    var next := tickets[j0 := Ticket(order, k.performance, k.seat, Issued)];
    assert j0 in after && after[j0] == next[j0];
    assert HasTicket(next, order, k.seat);
    assert forall j :: j in tickets ==> j in next && next[j] == tickets[j];
    forall j | j in after && j !in tickets ensures !HasTicket(tickets, order, after[j].seat) {
      assert j == j0 || !HasTicket(next, order, after[j].seat);
    }
    forall j | j in after && j !in next ensures after[j].seat != k.seat {
      assert !HasTicket(next, order, after[j].seat);
    }
  }

  lemma RowSetSplit(rows: seq<SeatKey>, lo: nat)
    requires lo < |rows|
    ensures RowSet(rows, lo) == {rows[lo]} + RowSet(rows, lo + 1)
  {}

  lemma IssuedNoMore(tickets: TicketTable, after: TicketTable, order: OrderId, k: SeatKey, keys: set<SeatKey>)
    requires HasTicket(tickets, order, k.seat) && IssuedFor(tickets, after, order, keys)
    ensures IssuedFor(tickets, after, order, {k} + keys)
  {
    var j :| j in tickets && tickets[j].order == order && tickets[j].seat == k.seat;
    assert j in after && after[j] == tickets[j];
  }

  lemma {:induction false} IssueAllIssues(tickets: TicketTable, order: OrderId, rows: seq<SeatKey>, draw: nat -> Jti,
                                          i: nat)
    requires i <= |rows|
    ensures var r := IssueAll(tickets, order, rows, draw, i);
            r.Some? ==> IssuedFor(tickets, r.value, order, RowSet(rows, i))
    decreases |rows| - i
  {
    var r := IssueAll(tickets, order, rows, draw, i);
    if i < |rows| && r.Some? {
      var k := rows[i];
      RowSetSplit(rows, i);
      if HasTicket(tickets, order, k.seat) {
        IssueAllIssues(tickets, order, rows, draw, i + 1);
        IssuedNoMore(tickets, r.value, order, k, RowSet(rows, i + 1));
      } else {
        IssueAllIssues(tickets[draw(i) := Ticket(order, k.performance, k.seat, Issued)], order, rows, draw, i + 1);
        IssuedOneMore(tickets, r.value, order, k, RowSet(rows, i + 1), draw(i));
      }
    }
  }

  /** Row a, at or after i, is the first for its seat and has no ticket yet. */
  ghost predicate NeedsTicket(tickets: TicketTable, order: OrderId, rows: seq<SeatKey>, i: int, a: int) {
    && 0 <= i <= a < |rows| && !HasTicket(tickets, order, rows[a].seat)
    && forall b :: i <= b < a ==> rows[b].seat != rows[a].seat
  }

  /** The ids drawn for the rows that need a ticket are unused and pairwise distinct. */
  ghost predicate DrawsFit(tickets: TicketTable, order: OrderId, rows: seq<SeatKey>, draw: nat -> Jti, i: nat) {
    && (forall a: nat :: NeedsTicket(tickets, order, rows, i, a) ==> draw(a) !in tickets)
    && (forall a: nat, b: nat ::
          NeedsTicket(tickets, order, rows, i, a) && NeedsTicket(tickets, order, rows, i, b) && a < b
          ==> draw(a) != draw(b))
  }

  /** The ticket loop goes through exactly when the drawn ids fit. */
  lemma {:induction false} IssueAllSucceedsIff(tickets: TicketTable, order: OrderId, rows: seq<SeatKey>,
                                               draw: nat -> Jti,
                                               i: nat)
    requires i <= |rows|
    ensures IssueAll(tickets, order, rows, draw, i).Some? <==> DrawsFit(tickets, order, rows, draw, i)
    decreases |rows| - i
  {
    if i < |rows| {
      var k := rows[i];
      if HasTicket(tickets, order, k.seat) {
        IssueAllSucceedsIff(tickets, order, rows, draw, i + 1);
        assert forall a :: NeedsTicket(tickets, order, rows, i, a) <==> NeedsTicket(tickets, order, rows, i + 1, a);
      } else {
        assert NeedsTicket(tickets, order, rows, i, i);
        if draw(i) !in tickets {
          var next := tickets[draw(i) := Ticket(order, k.performance, k.seat, Issued)];
          IssueAllSucceedsIff(next, order, rows, draw, i + 1);
          forall a
            ensures NeedsTicket(tickets, order, rows, i, a) <==> a == i || NeedsTicket(next, order, rows, i + 1, a)
          {
            if i < a < |rows| { TicketForOneMore(tickets, order, k, draw(i), rows[a].seat); }
          }
        }
      }
    }
  }

  lemma TicketForOneMore(tickets: TicketTable, order: OrderId, k: SeatKey, j0: Jti, seat: string)
    requires j0 !in tickets
    ensures HasTicket(tickets[j0 := Ticket(order, k.performance, k.seat, Issued)], order, seat)
            <==> HasTicket(tickets, order, seat) || seat == k.seat
  {
    var next := tickets[j0 := Ticket(order, k.performance, k.seat, Issued)];
    if HasTicket(tickets, order, seat) {
      var j :| j in tickets && tickets[j].order == order && tickets[j].seat == seat;
      assert j in next && next[j] == tickets[j];
    }
    if seat == k.seat { assert j0 in next && next[j0].order == order && next[j0].seat == seat; }
  }

  /** Selling or releasing touches only the reserved rows of the order. */
  lemma SellOwners(seats: SeatTable, o: OrderId)
    ensures forall p :: OwnedBy(Sell(seats, o), p) == OwnedBy(seats, p)
    ensures Sell(seats, o).Keys == seats.Keys
  {
    forall p ensures OwnedBy(Sell(seats, o), p) == OwnedBy(seats, p) {
      assert forall k :: k in OwnedBy(Sell(seats, o), p) <==> k in OwnedBy(seats, p);
    }
  }

  lemma SellKeepsOrders(l: Ledger, l': Ledger, o: OrderId)
    requires Inv(l) && o in l.orders
    requires l'.seats == Sell(l.seats, o) && l'.orders == SetStatus(l.orders, o, Confirmed)
    ensures RowsShaped(l'.seats) && OwnersExist(l') && IntentsUnique(l'.orders)
    ensures forall p :: p in l'.orders ==> OrderShaped(l', p)
  {
    SellOwners(l.seats, o);
    forall p | p in l'.orders ensures OrderShaped(l', p) {
      assert OrderShaped(l, p);
      assert OwnedBy(l'.seats, p) == OwnedBy(l.seats, p);
    }
  }

  lemma ReleaseKeepsOrders(l: Ledger, l': Ledger, o: OrderId)
    requires Inv(l) && o in l.orders
    requires l'.seats == Release(l.seats, o) && l'.orders == SetStatus(l.orders, o, Failed)
    ensures RowsShaped(l'.seats) && OwnersExist(l') && IntentsUnique(l'.orders)
    ensures forall p :: p in l'.orders ==> OrderShaped(l', p)
  {
    forall p | p in l'.orders ensures OrderShaped(l', p) {
      assert OrderShaped(l, p);
      var was, now := OwnedBy(l.seats, p), OwnedBy(l'.seats, p);
      if p != o || l.orders[o].status != Pending {
        assert now == was by {
          assert forall k :: k in now <==> k in was;
        }
      } else {
        assert now == {};
      }
    }
  }

  /**
   The insert guard ignores the performance. Under the invariant that loses nothing: an order's
   seats lie in one performance, so the guard finds exactly the tickets of the very seat.
   */
  lemma HasTicketMeansSeat(l: Ledger, o: OrderId, k: SeatKey)
    requires Inv(l) && o in l.orders && k in OwnedBy(l.seats, o)
    ensures HasTicket(l.tickets, o, k.seat) <==> IsTicketed(l.tickets, k)
  {
    if HasTicket(l.tickets, o, k.seat) {
      var j :| j in l.tickets && l.tickets[j].order == o && l.tickets[j].seat == k.seat;
      assert TicketValid(l.seats, l.tickets[j]);
      assert SeatOf(l.tickets[j]) in OwnedBy(l.seats, o);
      assert OrderShaped(l, o);
      assert IsTicketFor(l.tickets, j, k);
    }
    if IsTicketed(l.tickets, k) {
      var j :| IsTicketFor(l.tickets, j, k);
      assert TicketValid(l.seats, l.tickets[j]);
    }
  }

  lemma SeatTicketedAfterSale(l: Ledger, l': Ledger, o: OrderId, k: SeatKey)
    requires Inv(l) && o in l.orders
    requires l'.seats == Sell(l.seats, o)
    requires IssuedFor(l.tickets, l'.tickets, o, SoldTo(l'.seats, o))
    requires TicketsValid(l'.seats, l'.tickets)
    requires k in l'.seats && l'.seats[k].state == Sold
    ensures IsTicketed(l'.tickets, k)
  {
    if k in SoldTo(l'.seats, o) {
      assert HasTicket(l'.tickets, o, k.seat);
      var j :| j in l'.tickets && l'.tickets[j].order == o && l'.tickets[j].seat == k.seat;
      assert TicketValid(l'.seats, l'.tickets[j]);
      SellOwners(l.seats, o);
      assert SeatOf(l'.tickets[j]) in OwnedBy(l'.seats, o) && k in OwnedBy(l'.seats, o);
      assert OrderShaped(l, o);
      assert IsTicketFor(l'.tickets, j, k);
    } else {
      assert l.seats[k].state == Sold;
      assert IsTicketed(l.tickets, k);
      var j :| IsTicketFor(l.tickets, j, k);
      assert IsTicketFor(l'.tickets, j, k);
    }
  }

  lemma TicketsValidAfterSale(l: Ledger, l': Ledger, o: OrderId)
    requires TicketsValid(l.seats, l.tickets)
    requires l'.seats == Sell(l.seats, o)
    requires IssuedFor(l.tickets, l'.tickets, o, SoldTo(l'.seats, o))
    ensures TicketsValid(l'.seats, l'.tickets)
  {
    forall j | j in l'.tickets ensures TicketValid(l'.seats, l'.tickets[j]) {
      if j in l.tickets { assert TicketValid(l.seats, l.tickets[j]); }
    }
  }

  lemma IssueKeepsMatch(l: Ledger, l': Ledger, o: OrderId)
    requires Inv(l) && o in l.orders
    requires l'.seats == Sell(l.seats, o)
    requires IssuedFor(l.tickets, l'.tickets, o, SoldTo(l'.seats, o))
    ensures TicketsMatchSold(l')
  {
    TicketsValidAfterSale(l, l', o);
    forall k | k in l'.seats && l'.seats[k].state == Sold ensures IsTicketed(l'.tickets, k) {
      SeatTicketedAfterSale(l, l', o, k);
    }
    forall j1, j2 | j1 in l'.tickets && j2 in l'.tickets && SeatOf(l'.tickets[j1]) == SeatOf(l'.tickets[j2])
      ensures j1 == j2
    {
      TicketsOfOneSeat(l, l', o, j1, j2);
    }
  }

  lemma TicketsOfOneSeat(l: Ledger, l': Ledger, o: OrderId, j1: Jti, j2: Jti)
    requires OneTicketPerSeat(l.tickets)
    requires IssuedFor(l.tickets, l'.tickets, o, SoldTo(l'.seats, o))
    requires TicketsValid(l'.seats, l'.tickets)
    requires j1 in l'.tickets && j2 in l'.tickets && SeatOf(l'.tickets[j1]) == SeatOf(l'.tickets[j2])
    ensures j1 == j2
  {
    assert TicketValid(l'.seats, l'.tickets[j1]) && TicketValid(l'.seats, l'.tickets[j2]);
    if j1 in l.tickets && j2 !in l.tickets {
      assert HasTicket(l.tickets, o, l'.tickets[j2].seat);
    } else if j2 in l.tickets && j1 !in l.tickets {
      assert HasTicket(l.tickets, o, l'.tickets[j1].seat);
    }
  }

  lemma ConfirmKeepsInv(l: Ledger, o: OrderId, d: Delivery)
    requires Inv(l) && o in l.orders
    requires Enumerates(d.rows, SoldTo(Sell(l.seats, o), o))
    ensures Inv(ConfirmOrder(l, o, d))
  {
    var l' := ConfirmOrder(l, o, d);
    if l' != l {
      IssueAllIssues(l.tickets, o, d.rows, d.draw, 0);
      assert RowSet(d.rows, 0) == SoldTo(l'.seats, o) by {
        assert forall k :: k in RowSet(d.rows, 0) <==> k in d.rows;
      }
      SellKeepsOrders(l, l', o);
      IssueKeepsMatch(l, l', o);
    }
  }

  lemma FailKeepsInv(l: Ledger, o: OrderId, d: Delivery)
    requires Inv(l) && o in l.orders
    ensures Inv(FailOrder(l, o, d))
  {
    var l' := FailOrder(l, o, d);
    ReleaseKeepsOrders(l, l', o);
    forall j | j in l'.tickets ensures TicketValid(l'.seats, l'.tickets[j]) {
      assert TicketValid(l.seats, l.tickets[j]);
    }
  }

  lemma WebhookKeepsInv(l: Ledger, d: Delivery)
    requires Inv(l) && SeesSoldRows(l, d)
    ensures Inv(Webhook(l, d))
  {
    match OrderOf(l.orders, d.intent)
    case None =>
    case Some(o) =>
      FailKeepsInv(l, o, d);
      if ReachesTicketLoop(l, d, o) { ConfirmKeepsInv(l, o, d); }
  }

  // ----------------------------------------------------------------- redemption

  ghost predicate SameHolders(before: TicketTable, after: TicketTable) {
    && after.Keys == before.Keys
    && forall j :: j in before ==> after[j].order == before[j].order && SeatOf(after[j]) == SeatOf(before[j])
  }

  lemma SameHoldersMatch(l: Ledger, l': Ledger)
    requires TicketsMatchSold(l) && l'.seats == l.seats && SameHolders(l.tickets, l'.tickets)
    ensures TicketsMatchSold(l')
  {
    forall j | j in l'.tickets ensures TicketValid(l'.seats, l'.tickets[j]) {
      assert TicketValid(l.seats, l.tickets[j]);
    }
    forall k | k in l'.seats && l'.seats[k].state == Sold ensures IsTicketed(l'.tickets, k) {
      assert IsTicketed(l.tickets, k);
      var j :| IsTicketFor(l.tickets, j, k);
      assert IsTicketFor(l'.tickets, j, k);
    }
  }

  lemma SameTablesSameShape(l: Ledger, l': Ledger, o: OrderId)
    requires o in l.orders && OrderShaped(l, o) && l'.seats == l.seats && l'.orders == l.orders
    ensures OrderShaped(l', o)
  {}

  lemma RedeemKeepsMatch(l: Ledger, jti: Jti)
    requires TicketsMatchSold(l)
    ensures TicketsMatchSold(Redeem(l, jti))
  {
    assert SameHolders(l.tickets, Redeem(l, jti).tickets);
    SameHoldersMatch(l, Redeem(l, jti));
  }

  lemma RedeemKeepsInv(l: Ledger, jti: Jti)
    requires Inv(l)
    ensures Inv(Redeem(l, jti))
  {
    var l' := Redeem(l, jti);
    RedeemKeepsMatch(l, jti);
    forall o | o in l'.orders ensures OrderShaped(l', o) {
      SameTablesSameShape(l, l', o);
    }
  }

  // ----------------------------------------------------------------- every run

  lemma StepKeepsInv(l: Ledger, s: Step)
    requires Inv(l) && Enabled(l, s)
    ensures Inv(Apply(l, s))
  {
    match s
    case Order(performance, ids, order, intent) => OrderKeepsInv(l, performance, ids, order, intent);
    case Deliver(d) => WebhookKeepsInv(l, d);
    case RedeemTicket(jti) => RedeemKeepsInv(l, jti);
  }

  lemma SeededInv(l: Ledger)
    requires IsSeeded(l)
    ensures Inv(l)
  {}

  lemma {:induction false} RunKeepsInv(l: Ledger, steps: seq<Step>)
    requires Inv(l) && EnabledRun(l, steps)
    ensures Inv(Run(l, steps))
    decreases |steps|
  {
    if steps != [] {
      StepKeepsInv(l, steps[0]);
      RunKeepsInv(Apply(l, steps[0]), steps[1..]);
    }
  }

  /** Whatever the orders, deliveries and redemptions, in whatever order, the ledger stays consistent. */
  lemma EveryReachableLedger(seeded: Ledger, steps: seq<Step>)
    requires IsSeeded(seeded) && EnabledRun(seeded, steps)
    ensures Inv(Run(seeded, steps))
  {
    SeededInv(seeded);
    RunKeepsInv(seeded, steps);
  }
}
