/**
 Whole-run results about the ledger: which event decides an order, what a decision fixes for good,
 at-most-once redemption, and conservation of seats and money.
 */
module LedgerRuns {
  import opened Options
  import opened TicketLedger
  import opened LedgerInvariant

  // ------------------------------------------------- decisions about one order

  ghost predicate IsDecided(l: Ledger, o: OrderId) {
    o in l.orders && l.orders[o].status != Pending
  }

  /** The step is a terminal payment event for `o` that commits: no fault, not seen before, no clash of ticket ids. */
  ghost predicate Decides(l: Ledger, s: Step, o: OrderId) {
    && s.Deliver? && s.delivery.intent != "" && !s.delivery.fault && !Deduplicated(l, s.delivery)
    && OrderOf(l.orders, s.delivery.intent) == Some(o)
    && match s.delivery.kind
       case FailedOrCanceled => true
       case Succeeded =>
         && ReachesTicketLoop(l, s.delivery, o)
         && DrawsFit(l.tickets, o, s.delivery.rows, s.delivery.draw, 0)
       case Other => false
  }

  ghost function FirstDecision(l: Ledger, steps: seq<Step>, o: OrderId): Option<Kind>
    decreases |steps|
  {
    if steps == [] then None
    else if Decides(l, steps[0], o) then Some(steps[0].delivery.kind)
    else FirstDecision(Apply(l, steps[0]), steps[1..], o)
  }

  ghost function LastDecision(l: Ledger, steps: seq<Step>, o: OrderId): Option<Kind>
    decreases |steps|
  {
    if steps == [] then None
    else
      var later := LastDecision(Apply(l, steps[0]), steps[1..], o);
      if later.Some? then later
      else if Decides(l, steps[0], o) then Some(steps[0].delivery.kind)
      else None
  }

  ghost predicate SameSeats(l: Ledger, l': Ledger, o: OrderId) {
    && OwnedBy(l'.seats, o) == OwnedBy(l.seats, o)
    && forall k :: k in OwnedBy(l.seats, o) ==> l'.seats[k] == l.seats[k]
  }

  lemma PlaceOrderSparesOthers(l: Ledger, s: Step, o: OrderId)
    requires Inv(l) && s.Order? && o in l.orders
    ensures var l' := Apply(l, s); o in l'.orders && l'.orders[o] == l.orders[o] && SameSeats(l, l', o)
  {
    PlaceOrderAllOrNothing(l, s.performance, s.ids, s.order, s.intent);
    if CanPlace(l, s.performance, s.ids, s.order, s.intent) {
      assert forall k :: k in KeysOf(s.performance, s.ids) ==> IsFree(l.seats, k);
    }
  }

  lemma TouchSparesOthers(l: Ledger, p: OrderId, o: OrderId)
    requires p != o
    ensures SameSeats(l, l.(seats := Sell(l.seats, p)), o)
    ensures SameSeats(l, l.(seats := Release(l.seats, p)), o)
  {
    assert forall k :: k in OwnedBy(Release(l.seats, p), o) <==> k in OwnedBy(l.seats, o);
  }

  lemma DeliverySparesOthers(l: Ledger, s: Step, o: OrderId)
    requires s.Deliver? && o in l.orders && !Decides(l, s, o)
    ensures var l' := Apply(l, s); o in l'.orders && l'.orders[o] == l.orders[o] && SameSeats(l, l', o)
  {
    match OrderOf(l.orders, s.delivery.intent)
    case None =>
    case Some(p) =>
      IssueAllSucceedsIff(l.tickets, p, s.delivery.rows, s.delivery.draw, 0);
      if p != o { TouchSparesOthers(l, p, o); }
  }

  lemma DecidedHasNothingReserved(l: Ledger, o: OrderId)
    requires IsDecided(l, o) && OrderShaped(l, o)
    ensures Sell(l.seats, o) == l.seats && Release(l.seats, o) == l.seats
    ensures SoldTo(l.seats, o) == OwnedBy(l.seats, o)
  {
    assert forall k :: k in l.seats && l.seats[k].owner == Some(o) ==> k in OwnedBy(l.seats, o);
  }

  lemma FailureOnOrder(l: Ledger, d: Delivery, o: OrderId)
    requires o in l.orders && OrderShaped(l, o)
    ensures var l' := FailOrder(l, o, d);
            && (IsDecided(l, o) ==> SameSeats(l, l', o))
            && (!IsDecided(l, o) ==> OwnedBy(l'.seats, o) == {})
  {
    if IsDecided(l, o) { DecidedHasNothingReserved(l, o); }
  }

  lemma SuccessOnOrder(l: Ledger, d: Delivery, o: OrderId)
    requires o in l.orders && OrderShaped(l, o)
    ensures var l' := ConfirmOrder(l, o, d);
            && (IsDecided(l, o) ==> SameSeats(l, l', o))
            && OwnedBy(l'.seats, o) == OwnedBy(l.seats, o)
  {
    SellOwners(l.seats, o);
    if IsDecided(l, o) { DecidedHasNothingReserved(l, o); }
  }

  /** What one step does to one order: nothing at all unless it is a committing terminal event for it. */
  lemma StepOnOrder(l: Ledger, s: Step, o: OrderId)
    requires Inv(l) && Enabled(l, s) && o in l.orders
    ensures var l' := Apply(l, s);
            && o in l'.orders
            && (!Decides(l, s, o) ==> l'.orders[o] == l.orders[o] && SameSeats(l, l', o))
            && (Decides(l, s, o) ==>
                 && l'.orders[o].status == (if s.delivery.kind == Succeeded then Confirmed else Failed)
                 && l'.orders[o].totalMinor == l.orders[o].totalMinor)
            && (Decides(l, s, o) && IsDecided(l, o) ==> SameSeats(l, l', o))
            && (Decides(l, s, o) && !IsDecided(l, o) ==>
                 OwnedBy(l'.seats, o) == if s.delivery.kind == Succeeded then OwnedBy(l.seats, o) else {})
  {
    if s.Order? {
      PlaceOrderSparesOthers(l, s, o);
    } else if s.Deliver? {
      if !Decides(l, s, o) {
        DeliverySparesOthers(l, s, o);
      } else if s.delivery.kind == Succeeded {
        IssueAllSucceedsIff(l.tickets, o, s.delivery.rows, s.delivery.draw, 0);
        SuccessOnOrder(l, s.delivery, o);
      } else {
        FailureOnOrder(l, s.delivery, o);
      }
    }
  }

  lemma {:induction false} SeatsAreFinal(l: Ledger, steps: seq<Step>, o: OrderId)
    requires Inv(l) && EnabledRun(l, steps) && IsDecided(l, o)
    ensures IsDecided(Run(l, steps), o) && SameSeats(l, Run(l, steps), o)
    decreases |steps|
  {
    if steps != [] {
      StepOnOrder(l, steps[0], o);
      StepKeepsInv(l, steps[0]);
      SeatsAreFinal(Apply(l, steps[0]), steps[1..], o);
    }
  }

  /** Once an order is decided, no later step of any kind changes the seats it holds or which tickets it has. */
  lemma DecisionIsFinal(l: Ledger, steps: seq<Step>, o: OrderId)
    requires Inv(l) && EnabledRun(l, steps) && IsDecided(l, o)
    ensures var l' := Run(l, steps);
            IsDecided(l', o) && SameSeats(l, l', o) && TicketsOf(l'.tickets, o) == TicketsOf(l.tickets, o)
  {
    var l' := Run(l, steps);
    SeatsAreFinal(l, steps, o);
    RunKeepsInv(l, steps);
    SoldForever(l, steps);
    OneTicketPerOwnedSeat(l, o);
    OneTicketPerOwnedSeat(l', o);
    TicketsGrow(l, l', o);
    SubsetSameSize(TicketsOf(l.tickets, o), TicketsOf(l'.tickets, o));
  }

  lemma TicketsGrow(l: Ledger, l': Ledger, o: OrderId)
    requires KeepsSales(l, l')
    ensures TicketsOf(l.tickets, o) <= TicketsOf(l'.tickets, o)
  {
    forall j | j in TicketsOf(l.tickets, o) ensures j in TicketsOf(l'.tickets, o) {
      assert l'.tickets[j].(status := Issued) == l.tickets[j].(status := Issued);
    }
  }

  lemma SubsetSameSize(a: set<Jti>, b: set<Jti>)
    requires a <= b && |a| == |b|
    ensures a == b
  {
    if a != b {
      var j :| j in b && j !in a;
      assert a <= b - {j};
      SubsetIsSmaller(a, b - {j});
    }
  }

  lemma {:induction false} SubsetIsSmaller(a: set<Jti>, b: set<Jti>)
    requires a <= b
    ensures |a| <= |b|
    decreases a
  {
    if a != {} {
      var j :| j in a;
      SubsetIsSmaller(a - {j}, b - {j});
    }
  }

  /** A pending order after its deciding event: all its seats sold to it and ticketed, or no seat and no ticket left. */
  ghost predicate Outcome(l: Ledger, l': Ledger, o: OrderId, kind: Kind) {
    && IsDecided(l', o)
    && |TicketsOf(l'.tickets, o)| == |OwnedBy(l'.seats, o)|
    && (kind == Succeeded ==> SoldTo(l'.seats, o) == OwnedBy(l'.seats, o) == OwnedBy(l.seats, o))
    && (kind != Succeeded ==> OwnedBy(l'.seats, o) == {})
  }

  lemma DecidingStep(l: Ledger, s: Step, o: OrderId)
    requires Inv(l) && Enabled(l, s) && o in l.orders && l.orders[o].status == Pending && Decides(l, s, o)
    ensures Outcome(l, Apply(l, s), o, s.delivery.kind)
  {
    StepOnOrder(l, s, o);
    StepKeepsInv(l, s);
    DecidedHasNothingReserved(Apply(l, s), o);
    OneTicketPerOwnedSeat(Apply(l, s), o);
  }

  lemma OutcomeStays(l: Ledger, l1: Ledger, l2: Ledger, o: OrderId, kind: Kind)
    requires Outcome(l, l1, o, kind) && SameSeats(l1, l2, o) && IsDecided(l2, o)
    requires TicketsOf(l2.tickets, o) == TicketsOf(l1.tickets, o)
    ensures Outcome(l, l2, o, kind)
  {
    assert forall k :: k in SoldTo(l2.seats, o) ==> k in OwnedBy(l2.seats, o);
    assert forall k :: k in OwnedBy(l1.seats, o) && k in SoldTo(l1.seats, o) ==> k in SoldTo(l2.seats, o);
    if kind == Succeeded {
      assert SoldTo(l2.seats, o) == OwnedBy(l2.seats, o);
    }
  }

  /**
   The first committing terminal event decides a pending order's seats and tickets, however many more events of
   either kind follow and whatever other orders do in between.
   */
  lemma {:induction false} FirstTerminalEventWins(l: Ledger, steps: seq<Step>, o: OrderId)
    requires Inv(l) && EnabledRun(l, steps) && o in l.orders && l.orders[o].status == Pending
    ensures var l' := Run(l, steps);
            match FirstDecision(l, steps, o)
            case None =>
              o in l'.orders && l'.orders[o] == l.orders[o] && SameSeats(l, l', o) && TicketsOf(l'.tickets, o) == {}
            case Some(kind) => Outcome(l, l', o, kind)
    decreases |steps|
  {
    if steps == [] {
      PendingHasNoTickets(l, o);
    } else {
      var s, l1 := steps[0], Apply(l, steps[0]);
      StepKeepsInv(l, s);
      if Decides(l, s, o) {
        DecidingStep(l, s, o);
        DecisionIsFinal(l1, steps[1..], o);
        OutcomeStays(l, l1, Run(l, steps), o, s.delivery.kind);
      } else {
        StepOnOrder(l, s, o);
        FirstTerminalEventWins(l1, steps[1..], o);
      }
    }
  }

  /** The order status, unlike the seats, follows the last committing event. */
  lemma {:induction false} StatusFollowsLastEvent(l: Ledger, steps: seq<Step>, o: OrderId)
    requires Inv(l) && EnabledRun(l, steps) && o in l.orders
    ensures var l' := Run(l, steps);
            && o in l'.orders
            && l'.orders[o].status ==
               match LastDecision(l, steps, o)
               case None => l.orders[o].status
               case Some(kind) => if kind == Succeeded then Confirmed else Failed
    decreases |steps|
  {
    if steps != [] {
      StepOnOrder(l, steps[0], o);
      StepKeepsInv(l, steps[0]);
      StatusFollowsLastEvent(Apply(l, steps[0]), steps[1..], o);
    }
  }

  lemma {:induction false} LastNeedsFirst(l: Ledger, steps: seq<Step>, o: OrderId)
    ensures FirstDecision(l, steps, o).None? <==> LastDecision(l, steps, o).None?
    ensures LastDecision(l, steps, o).Some? ==> LastDecision(l, steps, o).value != Other
    ensures FirstDecision(l, steps, o).Some? ==> FirstDecision(l, steps, o).value != Other
    decreases |steps|
  {
    if steps != [] { LastNeedsFirst(Apply(l, steps[0]), steps[1..], o); }
  }

  /**
   "A confirmed order holds its seats" is false. A pending order ends confirmed without a seat exactly
   when its first committing terminal event is a failure and its last one a success.
   */
  lemma ConfirmedWithoutSeats(l: Ledger, steps: seq<Step>, o: OrderId)
    requires Inv(l) && EnabledRun(l, steps) && o in l.orders && l.orders[o].status == Pending
    ensures var l' := Run(l, steps);
            o in l'.orders &&
            ((l'.orders[o].status == Confirmed && OwnedBy(l'.seats, o) == {})
             <==> FirstDecision(l, steps, o) == Some(FailedOrCanceled) && LastDecision(l, steps, o) == Some(Succeeded))
  {
    FirstTerminalEventWins(l, steps, o);
    StatusFollowsLastEvent(l, steps, o);
    LastNeedsFirst(l, steps, o);
    assert OrderShaped(l, o);
  }

  /** A concrete such run: one seat, one order, a failure and then a success. */
  lemma FailureThenSuccess()
    ensures exists l: Ledger, steps: seq<Step>, o ::
              && IsSeeded(l) && EnabledRun(l, steps)
              && var l' := Run(l, steps);
                 o in l'.orders && l'.orders[o].status == Confirmed && OwnedBy(l'.seats, o) == {}
  {
    var k := SeatKey("p", "s");
    var l := Ledger(map[k := SeatRow(Available, None)], map[], map[], {});
    var place := Order("p", ["s"], "o", Some("pi"));
    var fail := Deliver(Delivery(None, FailedOrCanceled, "pi", [], i => "", false));
    var succeed := Deliver(Delivery(None, Succeeded, "pi", [], i => "", false));
    PlaceOrderAllOrNothing(l, "p", ["s"], "o", Some("pi"));
    assert CanPlace(l, "p", ["s"], "o", Some("pi"));
    var l1 := Apply(l, place);
    assert HasIntent(l1.orders, "o", "pi");
    assert OrderOf(l1.orders, "pi") == Some("o");
    var l2 := Apply(l1, fail);
    assert OwnedBy(l2.seats, "o") == {};
    assert HasIntent(l2.orders, "o", "pi");
    assert OrderOf(l2.orders, "pi") == Some("o");
    assert SoldTo(Sell(l2.seats, "o"), "o") == {};
    var l3 := Apply(l2, succeed);
    assert l3.orders["o"].status == Confirmed && OwnedBy(l3.seats, "o") == {};
    assert [place, fail, succeed][1..] == [fail, succeed] && [fail, succeed][1..] == [succeed] && [succeed][1..] == [];
    assert Run(l2, [succeed]) == l3;
    assert Run(l1, [fail, succeed]) == l3;
    assert Run(l, [place, fail, succeed]) == l3;
    assert EnabledRun(l2, [succeed]);
    assert EnabledRun(l1, [fail, succeed]);
    assert EnabledRun(l, [place, fail, succeed]);
  }

  // -------------------------------------------------------- tickets and seats

  ghost function TicketsOf(tickets: TicketTable, o: OrderId): set<Jti> {
    set j | j in tickets && tickets[j].order == o
  }

  lemma {:induction false} NothingLeftToIssue(tickets: TicketTable, o: OrderId, rows: seq<SeatKey>, draw: nat -> Jti,
                                              i: nat)
    requires i <= |rows|
    requires forall k :: k in rows ==> HasTicket(tickets, o, k.seat)
    ensures IssueAll(tickets, o, rows, draw, i) == Some(tickets)
    decreases |rows| - i
  {
    if i < |rows| {
      assert rows[i] in rows;
      NothingLeftToIssue(tickets, o, rows, draw, i + 1);
    }
  }

  lemma IntentFindsOrder(orders: OrderTable, o: OrderId, intent: IntentId)
    requires IntentsUnique(orders) && HasIntent(orders, o, intent)
    ensures OrderOf(orders, intent) == Some(o)
  {}

  lemma ReconfirmIsInert(l: Ledger, d: Delivery, o: OrderId)
    requires IsDecided(l, o) && OrderShaped(l, o)
    requires forall k :: k in SoldTo(l.seats, o) ==> HasTicket(l.tickets, o, k.seat)
    requires forall k :: k in d.rows ==> k in SoldTo(Sell(l.seats, o), o)
    ensures ConfirmOrder(l, o, d).seats == l.seats && ConfirmOrder(l, o, d).tickets == l.tickets
  {
    DecidedHasNothingReserved(l, o);
    NothingLeftToIssue(l.tickets, o, d.rows, d.draw, 0);
  }

  /** A later delivery for a decided order leaves the whole seat table and the whole ticket table alone. */
  lemma LaterDeliveryIsInert(l: Ledger, d: Delivery, o: OrderId)
    requires Inv(l) && SeesSoldRows(l, d) && IsDecided(l, o) && HasIntent(l.orders, o, d.intent)
    ensures Webhook(l, d).seats == l.seats && Webhook(l, d).tickets == l.tickets
  {
    IntentFindsOrder(l.orders, o, d.intent);
    DecidedHasNothingReserved(l, o);
    if ReachesTicketLoop(l, d, o) {
      forall k | k in SoldTo(l.seats, o) ensures HasTicket(l.tickets, o, k.seat) {
        SoldSeatHasTicket(l, o, k);
      }
      ReconfirmIsInert(l, d, o);
    }
  }

  lemma SoldSeatHasTicket(l: Ledger, o: OrderId, k: SeatKey)
    requires Inv(l) && o in l.orders && k in SoldTo(l.seats, o)
    ensures HasTicket(l.tickets, o, k.seat)
  {
    assert k in OwnedBy(l.seats, o);
    HasTicketMeansSeat(l, o, k);
  }

  lemma PendingHasNoTickets(l: Ledger, o: OrderId)
    requires Inv(l) && o in l.orders && l.orders[o].status == Pending
    ensures TicketsOf(l.tickets, o) == {}
  {
    assert OrderShaped(l, o);
    forall j | j in l.tickets ensures l.tickets[j].order != o {
      assert TicketValid(l.seats, l.tickets[j]);
      assert SeatOf(l.tickets[j]) in OwnedBy(l.seats, l.tickets[j].order);
    }
  }

  /** The tickets of `o` are new, unused and one for each of the seats it holds; all others are as before. */
  ghost predicate OnePerSeat(l: Ledger, l': Ledger, o: OrderId) {
    && |TicketsOf(l'.tickets, o)| == |OwnedBy(l.seats, o)|
    && (forall j :: j in TicketsOf(l'.tickets, o) ==> j !in l.tickets && l'.tickets[j].status == Issued)
    && (forall j :: j in l.tickets ==> j in l'.tickets && l'.tickets[j] == l.tickets[j])
    && l'.tickets.Keys == l.tickets.Keys + TicketsOf(l'.tickets, o)
  }

  lemma IssuedIsOnePerSeat(l: Ledger, l': Ledger, o: OrderId, keys: set<SeatKey>)
    requires TicketsOf(l.tickets, o) == {}
    requires IssuedFor(l.tickets, l'.tickets, o, keys)
    requires |TicketsOf(l'.tickets, o)| == |OwnedBy(l.seats, o)|
    ensures OnePerSeat(l, l', o)
  {
    forall j | j in TicketsOf(l'.tickets, o) ensures j !in l.tickets {
      assert j !in TicketsOf(l.tickets, o);
    }
  }

  /** Selling a pending order issues exactly one unused ticket for each of its seats. */
  lemma SaleIssuesOnePerSeat(l: Ledger, d: Delivery, o: OrderId)
    requires Inv(l) && SeesSoldRows(l, d) && o in l.orders && l.orders[o].status == Pending
    requires d.kind == Succeeded && Decides(l, Deliver(d), o)
    ensures OnePerSeat(l, Webhook(l, d), o)
  {
    StepOnOrder(l, Deliver(d), o);
    StepKeepsInv(l, Deliver(d));
    OneTicketPerOwnedSeat(Webhook(l, d), o);
    PendingHasNoTickets(l, o);
    IssueAllIssues(l.tickets, o, d.rows, d.draw, 0);
    IssuedIsOnePerSeat(l, Webhook(l, d), o, RowSet(d.rows, 0));
  }

  lemma {:induction false} SameSizeWhenMatched(keys: set<SeatKey>, js: set<Jti>, f: map<Jti, SeatKey>)
    requires forall j :: j in js ==> j in f && f[j] in keys
    requires forall k :: k in keys ==> exists j :: j in js && f[j] == k
    requires forall j1, j2 :: j1 in js && j2 in js && f[j1] == f[j2] ==> j1 == j2
    ensures |js| == |keys|
    decreases keys
  {
    if keys == {} {
      assert js == {};
    } else {
      var k :| k in keys;
      var j :| j in js && f[j] == k;
      SameSizeWhenMatched(keys - {k}, js - {j}, f);
    }
  }

  lemma OneTicketPerOwnedSeat(l: Ledger, o: OrderId)
    requires Inv(l) && IsDecided(l, o)
    ensures |TicketsOf(l.tickets, o)| == |OwnedBy(l.seats, o)|
  {
    assert OrderShaped(l, o);
    var keys, js := OwnedBy(l.seats, o), TicketsOf(l.tickets, o);
    var f := map j | j in l.tickets :: SeatOf(l.tickets[j]);
    forall j | j in js ensures f[j] in keys {
      assert TicketValid(l.seats, l.tickets[j]);
    }
    forall k | k in keys ensures exists j :: j in js && f[j] == k {
      assert IsTicketed(l.tickets, k);
      var j :| IsTicketFor(l.tickets, j, k);
      assert TicketValid(l.seats, l.tickets[j]);
      assert j in js && f[j] == k;
    }
    SameSizeWhenMatched(keys, js, f);
  }

  /** In every reachable ledger the two tables are equally long: one ticket per sold seat. */
  lemma AsManyTicketsAsSoldSeats(seeded: Ledger, steps: seq<Step>)
    requires IsSeeded(seeded) && EnabledRun(seeded, steps)
    ensures var l := Run(seeded, steps); |l.tickets.Keys| == |InState(l.seats, Sold)|
  {
    EveryReachableLedger(seeded, steps);
    var l := Run(seeded, steps);
    var keys := InState(l.seats, Sold);
    var f := map j | j in l.tickets :: SeatOf(l.tickets[j]);
    forall j | j in l.tickets.Keys ensures f[j] in keys {
      assert TicketValid(l.seats, l.tickets[j]);
    }
    forall k | k in keys ensures exists j :: j in l.tickets.Keys && f[j] == k {
      assert IsTicketed(l.tickets, k);
      var j :| IsTicketFor(l.tickets, j, k);
      assert f[j] == k;
    }
    SameSizeWhenMatched(keys, l.tickets.Keys, f);
  }

  // ----------------------------------------------------- sold seats and tickets stay

  ghost predicate KeepsSales(l: Ledger, l': Ledger) {
    && l'.seats.Keys == l.seats.Keys
    && (forall k :: k in l.seats && l.seats[k].state == Sold ==> l'.seats[k] == l.seats[k])
    && (forall j :: j in l.tickets ==>
          j in l'.tickets && l'.tickets[j].(status := Issued) == l.tickets[j].(status := Issued))
  }

  lemma StepKeepsSales(l: Ledger, s: Step)
    ensures KeepsSales(l, Apply(l, s))
  {
    match s
    case Order(performance, ids, order, intent) =>
      PlaceOrderAllOrNothing(l, performance, ids, order, intent);
      if CanPlace(l, performance, ids, order, intent) {
        assert forall k :: k in KeysOf(performance, ids) ==> IsFree(l.seats, k);
      }
    case Deliver(d) =>
      var o := OrderOf(l.orders, d.intent);
      if o.Some? { IssueAllIssues(l.tickets, o.value, d.rows, d.draw, 0); }
    case RedeemTicket(jti) =>
  }

  /** A row, once sold, never changes, and a ticket never disappears or moves, in any run from any ledger. */
  lemma {:induction false} SoldForever(l: Ledger, steps: seq<Step>)
    ensures KeepsSales(l, Run(l, steps))
    decreases |steps|
  {
    if steps != [] {
      StepKeepsSales(l, steps[0]);
      SoldForever(Apply(l, steps[0]), steps[1..]);
    }
  }

  // ---------------------------------------------------------------- redemption

  ghost predicate IsRedeemed(l: Ledger, jti: Jti) {
    jti in l.tickets && l.tickets[jti].status == Redeemed
  }

  /** How often a run answers "redeemed" for `jti`. */
  ghost function Redemptions(l: Ledger, steps: seq<Step>, jti: Jti): nat
    decreases |steps|
  {
    if steps == [] then 0
    else
      (if steps[0] == RedeemTicket(jti) && RedeemOutcome(l.tickets, jti) == RedeemedNow then 1 else 0)
      + Redemptions(Apply(l, steps[0]), steps[1..], jti)
  }

  lemma StepOnRedeemed(l: Ledger, s: Step, jti: Jti)
    ensures IsRedeemed(Apply(l, s), jti) <==>
            IsRedeemed(l, jti) || (s == RedeemTicket(jti) && RedeemOutcome(l.tickets, jti) == RedeemedNow)
  {
    if s.Deliver? {
      var o := OrderOf(l.orders, s.delivery.intent);
      if o.Some? { IssueAllIssues(l.tickets, o.value, s.delivery.rows, s.delivery.draw, 0); }
    }
  }

  /** A ticket is redeemed at most once in any run, and it is redeemed at the end iff that happened. */
  lemma {:induction false} RedeemedAtMostOnce(l: Ledger, steps: seq<Step>, jti: Jti)
    ensures Redemptions(l, steps, jti) == if IsRedeemed(Run(l, steps), jti) && !IsRedeemed(l, jti) then 1 else 0
    ensures IsRedeemed(l, jti) ==> IsRedeemed(Run(l, steps), jti)
    decreases |steps|
  {
    if steps != [] {
      StepOnRedeemed(l, steps[0], jti);
      RedeemedAtMostOnce(Apply(l, steps[0]), steps[1..], jti);
    }
  }

  ghost predicate IsRevoked(l: Ledger, jti: Jti) {
    jti in l.tickets && l.tickets[jti].status == Revoked
  }

  lemma StepOnRevoked(l: Ledger, s: Step, jti: Jti)
    ensures IsRevoked(Apply(l, s), jti) <==> IsRevoked(l, jti)
  {
    if s.Deliver? {
      var o := OrderOf(l.orders, s.delivery.intent);
      if o.Some? { IssueAllIssues(l.tickets, o.value, s.delivery.rows, s.delivery.draw, 0); }
    }
  }

  lemma {:induction false} NothingIsRevoked(l: Ledger, steps: seq<Step>, jti: Jti)
    ensures IsRevoked(Run(l, steps), jti) <==> IsRevoked(l, jti)
    decreases |steps|
  {
    if steps != [] {
      StepOnRevoked(l, steps[0], jti);
      NothingIsRevoked(Apply(l, steps[0]), steps[1..], jti);
    }
  }

  /**
   The four replies after any run from any ledger: unknown iff there is no such ticket, revoked iff it was from the
   start, already redeemed iff it was from the start or the run answered "redeemed" once, and redeemed now, with the
   ticket redeemed and nothing else changed, in all other cases.
   */
  lemma ReplyTellsHistory(l: Ledger, steps: seq<Step>, jti: Jti)
    ensures var l' := Run(l, steps);
            && (RedeemOutcome(l'.tickets, jti) == NotFound <==> jti !in l'.tickets)
            && (RedeemOutcome(l'.tickets, jti) == WasRevoked <==> jti in l.tickets && l.tickets[jti].status == Revoked)
            && (RedeemOutcome(l'.tickets, jti) == AlreadyRedeemed
                <==> (jti in l.tickets && l.tickets[jti].status == Redeemed) || Redemptions(l, steps, jti) == 1)
            && (RedeemOutcome(l'.tickets, jti) == RedeemedNow
                <==> jti in l'.tickets && l'.tickets[jti].status == Issued)
            && Redeem(l', jti)
               == if jti in l'.tickets && l'.tickets[jti].status == Issued
                  then l'.(tickets := l'.tickets[jti := l'.tickets[jti].(status := Redeemed)]) else l'
  {
    NothingIsRevoked(l, steps, jti);
    RedeemedAtMostOnce(l, steps, jti);
  }

  // -------------------------------------------------------------- conservation

  ghost function InState(seats: SeatTable, state: SeatState): set<SeatKey> {
    set k | k in seats && seats[k].state == state
  }

  ghost function Pick(os: set<OrderId>): (o: OrderId)
    requires os != {}
    ensures o in os
  {
    var o :| o in os; o
  }

  ghost function TotalOf(orders: OrderTable, os: set<OrderId>): nat
    requires os <= orders.Keys
  {
    if os == {} then 0
    else orders[Pick(os)].totalMinor + TotalOf(orders, os - {Pick(os)})
  }

  ghost function SoldToAny(seats: SeatTable, os: set<OrderId>): set<SeatKey> {
    set k | k in seats && seats[k].state == Sold && seats[k].owner.Some? && seats[k].owner.value in os
  }

  ghost function SellingOrders(l: Ledger): set<OrderId> {
    set o | o in l.orders && SoldTo(l.seats, o) != {}
  }

  lemma SellingOrderSoldAll(l: Ledger, o: OrderId)
    requires o in SellingOrders(l) && OrderShaped(l, o)
    ensures PRICE_PER_SEAT * |SoldTo(l.seats, o)| == l.orders[o].totalMinor
  {
    var k :| k in SoldTo(l.seats, o);
    assert k in OwnedBy(l.seats, o);
    assert SoldTo(l.seats, o) == OwnedBy(l.seats, o);
  }

  lemma {:induction false} RevenueOf(l: Ledger, os: set<OrderId>)
    requires os <= SellingOrders(l) && forall o :: o in os ==> OrderShaped(l, o)
    ensures 2500 * |SoldToAny(l.seats, os)| == TotalOf(l.orders, os)
    decreases os
  {
    if os == {} {
      assert SoldToAny(l.seats, os) == {};
    } else {
      var o := Pick(os);
      RevenueOf(l, os - {o});
      SellingOrderSoldAll(l, o);
      assert SoldToAny(l.seats, os) == SoldToAny(l.seats, os - {o}) + SoldTo(l.seats, o);
      assert SoldToAny(l.seats, os - {o}) !! SoldTo(l.seats, o);
    }
  }

  lemma {:induction false} StatesPartition(seats: SeatTable)
    ensures |InState(seats, Available)| + |InState(seats, Reserved)| + |InState(seats, Sold)| == |seats.Keys|
  {
    var a, r, s := InState(seats, Available), InState(seats, Reserved), InState(seats, Sold);
    assert seats.Keys == a + r + s && a !! r && (a + r) !! s;
  }

  lemma EverySoldSeatHasSeller(l: Ledger)
    requires RowsShaped(l.seats) && OwnersExist(l)
    ensures InState(l.seats, Sold) == SoldToAny(l.seats, SellingOrders(l))
  {
    forall k | k in InState(l.seats, Sold) ensures k in SoldToAny(l.seats, SellingOrders(l)) {
      var o := l.seats[k].owner.value;
      assert k in SoldTo(l.seats, o);
    }
  }

  /** Seats are conserved, and the price of the sold seats is the sum of the totals of the orders that own them. */
  lemma Conservation(seeded: Ledger, steps: seq<Step>)
    requires IsSeeded(seeded) && EnabledRun(seeded, steps)
    ensures var l := Run(seeded, steps);
            && l.seats.Keys == seeded.seats.Keys
            && |InState(l.seats, Available)| + |InState(l.seats, Reserved)| + |InState(l.seats, Sold)|
               == |seeded.seats.Keys|
            && 2500 * |InState(l.seats, Sold)| == TotalOf(l.orders, SellingOrders(l))
  {
    SoldForever(seeded, steps);
    EveryReachableLedger(seeded, steps);
    var l := Run(seeded, steps);
    StatesPartition(l.seats);
    RevenueOf(l, SellingOrders(l));
    EverySoldSeatHasSeller(l);
  }
}
