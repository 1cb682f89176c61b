/**
 The other direction of the two interleaving modules: every serial run of the atomic ledger is also a run of the
 statements. So what the interleaved statements can commit is exactly what serial runs can.
 */
module SerialRuns {
  import opened Options
  import opened TicketLedger
  import opened LedgerInvariant
  import opened EventDedupe
  import OI = OrderInterleaving
  import DI = DeliveryInterleaving

  // -------------------------------------------------------------- order transactions

  /** The events lead from the one system to the other. */
  ghost predicate OrdersLead(s: OI.System, events: seq<OI.Event>, end: OI.System) {
    OI.Possible(s, events) && OI.Final(s, events) == end
  }

  /** None of the events is another handler's commit. */
  ghost predicate OrdersOnly(events: seq<OI.Event>) {
    forall e :: e in events ==> !e.Committed?
  }

  lemma OneOrderEvent(s: OI.System, e: OI.Event, more: seq<OI.Event>, end: OI.System)
    requires OI.AllWellFormed(s) && OI.CanHappen(s, e) && OrdersLead(OI.Happen(s, e), more, end)
    ensures OrdersLead(s, [e] + more, end)
  {
    assert ([e] + more)[1..] == more;
  }

  lemma NoOrderEvent(s: OI.System)
    requires OI.AllWellFormed(s)
    ensures OrdersLead(s, [], s)
  {}

  function OpenTx(db: Ledger, t: OI.TxId, tx: OI.Tx): OI.System { OI.System(db, map[t := tx]) }

  function Quiet(db: Ledger): OI.System { OI.System(db, map[]) }

  lemma CommitGoesThrough(db: Ledger, t: OI.TxId, tx: OI.Tx, intent: IntentId)
    requires tx.WellFormed() && tx.next == |tx.ids| && forall o :: !HasIntent(db.orders, o, intent)
    ensures OrdersLead(OpenTx(db, t, tx), [OI.Commit(t, intent)], Quiet(OI.Install(db, tx, intent)))
  {
    var s, end := OpenTx(db, t, tx), Quiet(OI.Install(db, tx, intent));
    assert OI.Happen(s, OI.Commit(t, intent)).txs == map[];
    NoOrderEvent(end);
    OneOrderEvent(s, OI.Commit(t, intent), [], end);
    assert [OI.Commit(t, intent)] + [] == [OI.Commit(t, intent)];
  }

  lemma ReserveGoesThrough(db: Ledger, t: OI.TxId, tx: OI.Tx, more: seq<OI.Event>, end: OI.System)
    requires tx.WellFormed() && tx.next < |tx.ids| && Distinct(tx.ids) && AllFree(db.seats, tx.performance, tx.ids)
    requires OrdersLead(OpenTx(db, t, tx.(next := tx.next + 1)), more, end)
    ensures OrdersLead(OpenTx(db, t, tx), [OI.ReserveNext(t)] + more, end)
  {
    var s := OpenTx(db, t, tx);
    CurrentIsFree(db, tx);
    assert OI.AllWellFormed(s) && !OI.LockedByOther(s, t, tx.Current());
    assert OI.Happen(s, OI.ReserveNext(t)).txs == map[t := tx.(next := tx.next + 1)];
    OneOrderEvent(s, OI.ReserveNext(t), more, end);
  }

  lemma CurrentIsFree(db: Ledger, tx: OI.Tx)
    requires tx.WellFormed() && tx.next < |tx.ids| && Distinct(tx.ids) && AllFree(db.seats, tx.performance, tx.ids)
    ensures tx.Current() !in tx.Locked() && IsFree(db.seats, tx.Current())
  {
    assert tx.ids[tx.next] in tx.ids;
    assert forall x :: x in tx.ids[..tx.next] ==> x != tx.ids[tx.next];
  }

  /** From any progress on, the transaction can update its remaining rows one by one and commit. */
  lemma {:induction false} OrderGoesThrough(db: Ledger, t: OI.TxId, tx: OI.Tx, intent: IntentId)
    returns (events: seq<OI.Event>)
    requires tx.WellFormed() && Distinct(tx.ids) && AllFree(db.seats, tx.performance, tx.ids)
    requires forall o :: !HasIntent(db.orders, o, intent)
    ensures OrdersLead(OpenTx(db, t, tx), events, Quiet(OI.Install(db, tx.(next := |tx.ids|), intent)))
    ensures OrdersOnly(events)
    decreases |tx.ids| - tx.next
  {
    if tx.next == |tx.ids| {
      CommitGoesThrough(db, t, tx, intent);
      events := [OI.Commit(t, intent)];
    } else {
      var more := OrderGoesThrough(db, t, tx.(next := tx.next + 1), intent);
      ReserveGoesThrough(db, t, tx, more, Quiet(OI.Install(db, tx.(next := |tx.ids|), intent)));
      events := [OI.ReserveNext(t)] + more;
    }
  }

  /** An order that can be placed is placed by opening a transaction and going through with it. */
  lemma OrderHappens(db: Ledger, step: Step) returns (events: seq<OI.Event>)
    requires step.Order?
    ensures OrdersLead(Quiet(db), events, Quiet(Apply(db, step))) && OrdersOnly(events)
  {
    PlaceOrderAllOrNothing(db, step.performance, step.ids, step.order, step.intent);
    if CanPlace(db, step.performance, step.ids, step.order, step.intent) {
      var tx := OI.Tx(step.order, step.performance, step.ids, 0);
      var begin := OI.Begin(0, step.order, step.performance, step.ids);
      var more := OrderGoesThrough(db, 0, tx, step.intent.value);
      InstalledOrder(db, tx.(next := |tx.ids|), step.intent.value);
      assert OI.Happen(Quiet(db), begin).txs == map[0 := tx];
      OneOrderEvent(Quiet(db), begin, more, Quiet(Apply(db, step)));
      events := [begin] + more;
    } else {
      events := [];
      NoOrderEvent(Quiet(db));
    }
  }

  lemma InstalledOrder(db: Ledger, tx: OI.Tx, intent: IntentId)
    requires tx.WellFormed() && tx.next == |tx.ids|
    requires CanPlace(db, tx.performance, tx.ids, tx.order, Some(intent))
    ensures OI.Install(db, tx, intent) == PlaceOrder(db, tx.performance, tx.ids, tx.order, Some(intent))
  {
    assert tx.ids[..tx.next] == tx.ids;
    PlaceOrderAllOrNothing(db, tx.performance, tx.ids, tx.order, Some(intent));
    OI.InstallIsTaken(db, tx, intent);
  }

  // ---------------------------------------------------------------------- deliveries

  function Alone(db: Ledger, t: DI.TxId, tx: DI.Tx): DI.System { DI.System(Quiet(db), map[t := tx]) }

  function Idle(db: Ledger): DI.System { DI.System(Quiet(db), map[]) }

  /** The events lead from the one system to the other. */
  ghost predicate Leads(s: DI.System, events: seq<DI.Event>, end: DI.System) {
    DI.Possible(s, events) && DI.Final(s, events) == end
  }

  lemma OneEvent(s: DI.System, e: DI.Event, more: seq<DI.Event>, end: DI.System)
    requires DI.WellFormed(s) && DI.CanHappen(s, e) && Leads(DI.Happen(s, e), more, end)
    ensures Leads(s, [e] + more, end)
  {
    assert ([e] + more)[1..] == more;
  }

  lemma NoEvent(s: DI.System)
    requires DI.WellFormed(s)
    ensures Leads(s, [], s)
  {}

  lemma ReadyCommits(db: Ledger, t: DI.TxId, tx: DI.Tx)
    requires DI.WellFormed(Alone(db, t, tx)) && DI.IsReady(tx)
    requires tx.Holds().Some? ==> tx.Holds().value in db.orders
    ensures Leads(Alone(db, t, tx), [DI.Commit(t)], Idle(DI.Install(db, tx)))
  {
    var s, end := Alone(db, t, tx), Idle(DI.Install(db, tx));
    assert DI.Happen(s, DI.Commit(t)).dels == map[];
    NoEvent(end);
    OneEvent(s, DI.Commit(t), [], end);
    assert [DI.Commit(t)] + [] == [DI.Commit(t)];
  }

  ghost predicate IsIssuing(tx: DI.Tx, db: Ledger) {
    tx.phase.Issuing? && tx.phase.o in db.orders && tx.phase.next <= |tx.phase.rows|
  }

  /** What the loop has left to do after its next insert. */
  lemma InsertIsLoopStep(db: Ledger, tx: DI.Tx)
    requires IsIssuing(tx, db) && tx.phase.next < |tx.phase.rows|
    requires IssueAll(db.tickets + tx.phase.own, tx.phase.o, tx.phase.rows, tx.draw, tx.phase.next).Some?
    ensures var after := DI.AfterInsert(db, tx);
            && after.Some? && IsIssuing(after.value, db)
            && after.value.(phase := tx.phase) == tx
            && after.value.phase.(next := tx.phase.next, own := tx.phase.own) == tx.phase
            && after.value.phase.next == tx.phase.next + 1
            && IssueAll(db.tickets + tx.phase.own, tx.phase.o, tx.phase.rows, tx.draw, tx.phase.next)
               == IssueAll(db.tickets + after.value.phase.own, tx.phase.o, tx.phase.rows, tx.draw, tx.phase.next + 1)
  {
    var p := tx.phase;
    var jti, ticket := tx.draw(p.next), Ticket(p.o, p.rows[p.next].performance, p.rows[p.next].seat, Issued);
    assert db.tickets + p.own[jti := ticket] == (db.tickets + p.own)[jti := ticket];
  }

  /** The inserts that are left, and the commit. */
  lemma {:induction false} InsertsGoThrough(db: Ledger, t: DI.TxId, tx: DI.Tx)
    returns (events: seq<DI.Event>, last: DI.Tx)
    requires IsIssuing(tx, db)
    requires IssueAll(db.tickets + tx.phase.own, tx.phase.o, tx.phase.rows, tx.draw, tx.phase.next).Some?
    ensures IsIssuing(last, db) && last.event == tx.event
    ensures last.phase.(next := tx.phase.next, own := tx.phase.own) == tx.phase
    ensures Some(db.tickets + last.phase.own)
            == IssueAll(db.tickets + tx.phase.own, tx.phase.o, tx.phase.rows, tx.draw, tx.phase.next)
    ensures Leads(Alone(db, t, tx), events, Idle(DI.Install(db, last)))
    decreases |tx.phase.rows| - tx.phase.next
  {
    var s := Alone(db, t, tx);
    if tx.phase.next == |tx.phase.rows| {
      last := tx;
      events := [DI.Commit(t)];
      ReadyCommits(db, t, tx);
    } else {
      InsertIsLoopStep(db, tx);
      var after := DI.AfterInsert(db, tx).value;
      var more;
      more, last := InsertsGoThrough(db, t, after);
      events := [DI.Insert(t)] + more;
      assert DI.Happen(s, DI.Insert(t)).dels == map[t := after];
      OneEvent(s, DI.Insert(t), more, Idle(DI.Install(db, last)));
    }
  }

  /** Reading, marking and touching: the statements a success and a failure share. */
  lemma TouchesGoThrough(db: Ledger, t: DI.TxId, tx: DI.Tx, o: OrderId, more: seq<DI.Event>, end: DI.System)
    requires tx.phase == DI.Opened && tx.kind != Other && OrderOf(db.orders, tx.intent) == Some(o)
    requires tx.kind == Succeeded ==> !DI.IsOver(db.orders[o].status)
    requires Leads(Alone(db, t, tx.(phase := DI.Touched(o, DI.ReservedFor(db.seats, o)))), more, end)
    ensures Leads(Alone(db, t, tx), [DI.Read(t), DI.Mark(t), DI.Touch(t)] + more, end)
  {
    var found, marked := tx.(phase := DI.Found(o)), tx.(phase := DI.Marked(o));
    var touched := tx.(phase := DI.Touched(o, DI.ReservedFor(db.seats, o)));
    assert DI.Happen(Alone(db, t, marked), DI.Touch(t)).dels == map[t := touched];
    OneEvent(Alone(db, t, marked), DI.Touch(t), more, end);
    assert DI.Happen(Alone(db, t, found), DI.Mark(t)).dels == map[t := marked];
    OneEvent(Alone(db, t, found), DI.Mark(t), [DI.Touch(t)] + more, end);
    assert DI.Happen(Alone(db, t, tx), DI.Read(t)).dels == map[t := found];
    OneEvent(Alone(db, t, tx), DI.Read(t), [DI.Mark(t)] + ([DI.Touch(t)] + more), end);
    assert [DI.Read(t)] + ([DI.Mark(t)] + ([DI.Touch(t)] + more)) == [DI.Read(t), DI.Mark(t), DI.Touch(t)] + more;
  }

  lemma SuccessGoesThrough(db: Ledger, t: DI.TxId, tx: DI.Tx, d: Delivery, o: OrderId)
    returns (events: seq<DI.Event>)
    requires d.kind == Succeeded && Commits(db, d) && SeesSoldRows(db, d) && OrderOf(db.orders, d.intent) == Some(o)
    requires tx == DI.Tx(d.event, d.kind, d.intent, d.draw, DI.Opened)
    ensures Leads(Alone(db, t, tx), events, Idle(Webhook(db, d)))
  {
    IssueAllSucceedsIff(db.tickets, o, d.rows, d.draw, 0);
    DI.OverlayIsUpdate(db.seats, o);
    var touched := DI.ReservedFor(db.seats, o);
    var waiting := tx.(phase := DI.Touched(o, touched));
    var issuing := tx.(phase := DI.Issuing(o, touched, d.rows, 0, map[]));
    assert db.tickets + map[] == db.tickets;
    var inserts, last := InsertsGoThrough(db, t, issuing);
    assert ReachesTicketLoop(db, d, o);
    assert DI.Happen(Alone(db, t, waiting), DI.Select(t, d.rows)).dels == map[t := issuing];
    OneEvent(Alone(db, t, waiting), DI.Select(t, d.rows), inserts, Idle(DI.Install(db, last)));
    TouchesGoThrough(db, t, tx, o, [DI.Select(t, d.rows)] + inserts, Idle(DI.Install(db, last)));
    events := [DI.Read(t), DI.Mark(t), DI.Touch(t)] + ([DI.Select(t, d.rows)] + inserts);
    assert DI.Install(db, last) == ConfirmOrder(db, o, d);
  }

  lemma FailureGoesThrough(db: Ledger, t: DI.TxId, tx: DI.Tx, d: Delivery) returns (events: seq<DI.Event>)
    requires d.kind == FailedOrCanceled && Commits(db, d)
    requires tx == DI.Tx(d.event, d.kind, d.intent, d.draw, DI.Opened)
    ensures Leads(Alone(db, t, tx), events, Idle(Webhook(db, d)))
  {
    match OrderOf(db.orders, d.intent)
    case None =>
      var unknown := tx.(phase := DI.NoOrder);
      ReadyCommits(db, t, unknown);
      assert DI.Happen(Alone(db, t, tx), DI.Read(t)).dels == map[t := unknown];
      OneEvent(Alone(db, t, tx), DI.Read(t), [DI.Commit(t)], Idle(DI.Install(db, unknown)));
      events := [DI.Read(t)] + [DI.Commit(t)];
    case Some(o) =>
      var touched := tx.(phase := DI.Touched(o, DI.ReservedFor(db.seats, o)));
      DI.OverlayIsUpdate(db.seats, o);
      ReadyCommits(db, t, touched);
      TouchesGoThrough(db, t, tx, o, [DI.Commit(t)], Idle(DI.Install(db, touched)));
      events := [DI.Read(t), DI.Mark(t), DI.Touch(t)] + [DI.Commit(t)];
  }

  /** A delivery that commits can do so statement by statement; one that does not changes nothing anyway. */
  lemma DeliveryHappens(db: Ledger, d: Delivery) returns (events: seq<DI.Event>)
    requires SeesSoldRows(db, d)
    ensures Leads(Idle(db), events, Idle(Webhook(db, d)))
  {
    DeliveryIsExact(db, d);
    if !Commits(db, d) {
      events := [];
      NoEvent(Idle(db));
    } else {
      var tx := DI.Tx(d.event, d.kind, d.intent, d.draw, DI.Opened);
      var more;
      match d.kind {
        case Succeeded =>
          var o :| Confirms(db, d, o);
          more := SuccessGoesThrough(db, 0, tx, d, o);
        case FailedOrCanceled =>
          more := FailureGoesThrough(db, 0, tx, d);
        case Other =>
          ReadyCommits(db, 0, tx);
          more := [DI.Commit(0)];
      }
      var open := DI.Open(0, d.event, d.kind, d.intent, d.draw);
      assert DI.Happen(Idle(db), open).dels == map[0 := tx];
      OneEvent(Idle(db), open, more, Idle(Webhook(db, d)));
      events := [open] + more;
    }
  }

  // ------------------------------------------------------------------- whole runs

  lemma {:induction false} LeadsOn(s: DI.System, a: seq<DI.Event>, mid: DI.System, b: seq<DI.Event>, end: DI.System)
    requires Leads(s, a, mid) && Leads(mid, b, end)
    ensures Leads(s, a + b, end)
    decreases |a|
  {
    if a == [] {
      assert a + b == b;
    } else {
      LeadsOn(DI.Happen(s, a[0]), a[1..], mid, b, end);
      OneEvent(s, a[0], a[1..] + b, end);
      assert a + b == [a[0]] + (a[1..] + b);
    }
  }

  function Based(events: seq<OI.Event>): seq<DI.Event> {
    seq(|events|, i requires 0 <= i < |events| => DI.Base(events[i]))
  }

  /** No delivery is open, so order transactions run as they do without deliveries. */
  lemma {:induction false} BaseGoesThrough(base: OI.System, events: seq<OI.Event>)
    requires OI.Possible(base, events)
    requires forall e :: e in events && e.Committed? ==> !e.step.Deliver?
    ensures Leads(DI.System(base, map[]), Based(events), DI.System(OI.Final(base, events), map[]))
    decreases |events|
  {
    var s := DI.System(base, map[]);
    if events == [] {
      NoEvent(s);
    } else {
      var next := OI.Happen(base, events[0]);
      assert events[0] in events;
      BaseGoesThrough(next, events[1..]);
      OneEvent(s, DI.Base(events[0]), Based(events[1..]), DI.System(OI.Final(base, events), map[]));
      assert Based(events) == [DI.Base(events[0])] + Based(events[1..]);
    }
  }

  lemma RedemptionHappens(db: Ledger, step: Step)
    requires step.RedeemTicket?
    ensures OrdersLead(Quiet(db), [OI.Committed(step)], Quiet(Apply(db, step)))
  {
    NoOrderEvent(Quiet(Apply(db, step)));
    OneOrderEvent(Quiet(db), OI.Committed(step), [], Quiet(Apply(db, step)));
    assert [OI.Committed(step)] + [] == [OI.Committed(step)];
  }

  /** Every step can happen statement by statement. */
  lemma StepHappens(db: Ledger, step: Step) returns (events: seq<DI.Event>)
    requires Enabled(db, step)
    ensures Leads(Idle(db), events, Idle(Apply(db, step)))
  {
    match step
    case Order(_, _, _, _) =>
      var base := OrderHappens(db, step);
      BaseGoesThrough(Quiet(db), base);
      events := Based(base);
    case Deliver(d) =>
      events := DeliveryHappens(db, d);
    case RedeemTicket(_) =>
      RedemptionHappens(db, step);
      BaseGoesThrough(Quiet(db), [OI.Committed(step)]);
      events := Based([OI.Committed(step)]);
  }

  /** Every serial run is a run of the statements that leaves no transaction open. */
  lemma {:induction false} EverySerialRunHappens(db: Ledger, steps: seq<Step>) returns (events: seq<DI.Event>)
    requires EnabledRun(db, steps)
    ensures Leads(Idle(db), events, Idle(Run(db, steps)))
    decreases |steps|
  {
    if steps == [] {
      events := [];
      NoEvent(Idle(db));
    } else {
      var first := StepHappens(db, steps[0]);
      var more := EverySerialRunHappens(Apply(db, steps[0]), steps[1..]);
      LeadsOn(Idle(db), first, Idle(Apply(db, steps[0])), more, Idle(Run(db, steps)));
      events := first + more;
    }
  }

  ghost predicate SeriallyReachable(seeded: Ledger, l: Ledger) {
    exists steps :: EnabledRun(seeded, steps) && Run(seeded, steps) == l
  }

  ghost predicate StatementwiseReachable(seeded: Ledger, l: Ledger) {
    exists events :: DI.Possible(Idle(seeded), events) && DI.Final(Idle(seeded), events).Db() == l
  }

  /** The statements, interleaved in any way, can commit exactly the ledgers that serial runs lead to. */
  lemma SameLedgersReached(seeded: Ledger, l: Ledger)
    requires IsSeeded(seeded)
    ensures StatementwiseReachable(seeded, l) <==> SeriallyReachable(seeded, l)
  {
    if StatementwiseReachable(seeded, l) {
      var events :| DI.Possible(Idle(seeded), events) && DI.Final(Idle(seeded), events).Db() == l;
      DI.EveryRunIsSerial(seeded, events);
    }
    if SeriallyReachable(seeded, l) {
      var steps :| EnabledRun(seeded, steps) && Run(seeded, steps) == l;
      var events := EverySerialRunHappens(seeded, steps);
    }
  }
}
