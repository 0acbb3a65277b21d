/** Finishing and reassigning with separate reads (src/modules/orders/orders.service.ts): both work from
    an order document read before their transaction. Finishing releases what that document names and
    compares only the status; reassigning checks the status on that document and compares nothing. */
module VehicleRace {
  import opened Options
  import opened OrderStates
  import opened Vehicles

  // ---------- the transactions, from the document they read ----------

  /** `cancel`, `completeDelivery` and `forceComplete`. */
  function FinishFrom(f: Fleet, o: OrderId, read: Order, from: OrderStatus, to: OrderStatus,
                      manualOverride: bool): Reply
    requires to == Cancelled || to == Delivered
  {
    if o !in f.orders then Refused(OrderNotFound)
    else if !TransitionOk(f.orders[o].status, from, to, manualOverride) then Refused(InvalidTransition)
    else
      Committed(f.(orders := f.orders[o := f.orders[o].(status := to)],
                   drivers := Release(f.drivers, read.driver, o),
                   available := f.available + Freed(f.drivers, read.driver, o),
                   trucks := Release(f.trucks, read.truck, o), tanks := Release(f.tanks, read.tank, o)))
  }

  /** `reassignVehicle`. */
  function ReassignFrom(f: Fleet, o: OrderId, read: Order, truck: Id, tank: Id): Reply {
    if o !in f.orders then Refused(OrderNotFound)
    else if read.status != AssignedToDriver then Refused(AlreadyDeparted)
    else
      var trucks, tanks := Release(f.trucks, read.truck, o), Release(f.tanks, read.tank, o);
      if !IsFree(trucks, truck) then Refused(TruckUnavailable)
      else if !IsFree(tanks, tank) then Refused(TankUnavailable)
      else if TankFits(f, tank, read).Some? then Refused(TankFits(f, tank, read).value)
      else Committed(f.(orders := f.orders[o := f.orders[o].(truck := Some(truck), tank := Some(tank))],
                        trucks := Book(trucks, truck, o), tanks := Book(tanks, tank, o)))
  }

  /** With nothing between read and write, these are the one-step requests. */
  lemma FreshReadIsOneStep(f: Fleet, o: OrderId, from: OrderStatus, to: OrderStatus, manualOverride: bool, truck: Id,
                           tank: Id)
    requires o in f.orders && (to == Cancelled || to == Delivered)
    ensures FinishFrom(f, o, f.orders[o], from, to, manualOverride) == Finish(f, o, from, to, manualOverride)
    ensures ReassignFrom(f, o, f.orders[o], truck, tank) == Reassign(f, o, truck, tank)
  {
  }

  // ---------- exactly when one of them keeps bookings and deliveries agreed ----------

  /** The document read names whatever the order, if it is a live delivery, names now. */
  predicate UpToDate(read: Option<Id>, now: Option<Id>) { now.Some? ==> read == now }

  lemma ReleaseAgreesExactlyWhen(pool: Pool, orders: map<OrderId, Order>, name: Naming, o: OrderId, read: Option<Id>,
                                 orders': map<OrderId, Order>)
    requires Agrees(pool, orders, name) && o in orders
    requires o in orders' && orders' == orders[o := orders'[o]] && !IsLiveDelivery(orders'[o].status)
    ensures Agrees(Release(pool, read, o), orders', name)
       <==> (IsLiveDelivery(orders[o].status) ==> UpToDate(read, name(orders[o])))
  {
    var pool', now := Release(pool, read, o), name(orders[o]);
    if IsLiveDelivery(orders[o].status) && !UpToDate(read, now) {
      assert LiveNames(orders, name, o, now.value);
      assert Holds(pool', now.value, o) && !LiveNames(orders', name, o, now.value);
    } else {
      forall id: Id, p: OrderId ensures Holds(pool', id, p) <==> LiveNames(orders', name, p, id) {
        assert Holds(pool, id, p) <==> LiveNames(orders, name, p, id);
      }
    }
  }

  lemma RebookAgreesExactlyWhen(pool: Pool, orders: map<OrderId, Order>, name: Naming, o: OrderId, read: Option<Id>,
                                id: Id, orders': map<OrderId, Order>)
    requires Agrees(pool, orders, name) && o in orders && IsFree(Release(pool, read, o), id)
    requires o in orders' && orders' == orders[o := orders'[o]]
    requires orders'[o].status == orders[o].status && name(orders'[o]) == Some(id)
    ensures Agrees(Book(Release(pool, read, o), id, o), orders', name)
       <==> IsLiveDelivery(orders[o].status) && UpToDate(read, name(orders[o]))
  {
    var pool', now := Book(Release(pool, read, o), id, o), name(orders[o]);
    if !IsLiveDelivery(orders[o].status) {
      assert Holds(pool', id, o) && !LiveNames(orders', name, o, id);
    } else if !UpToDate(read, now) {
      assert LiveNames(orders, name, o, now.value);
      assert Holds(pool', now.value, o) && !LiveNames(orders', name, o, now.value);
    } else {
      forall v: Id, p: OrderId ensures Holds(pool', v, p) <==> LiveNames(orders', name, p, v) {
        assert Holds(pool, v, p) <==> LiveNames(orders, name, p, v);
      }
    }
  }

  /** A finish works from a document that is still right. */
  predicate FinishUpToDate(read: Order, now: Order) {
    IsLiveDelivery(now.status) ==>
      UpToDate(read.driver, now.driver) && UpToDate(read.truck, now.truck) && UpToDate(read.tank, now.tank)
  }

  /** A reassignment does, and the delivery it was read as is still live. */
  predicate ReassignUpToDate(read: Order, now: Order) {
    IsLiveDelivery(now.status) && UpToDate(read.truck, now.truck) && UpToDate(read.tank, now.tank)
  }

  lemma FinishKeepsExactlyWhen(f: Fleet, o: OrderId, read: Order, from: OrderStatus, to: OrderStatus,
                               manualOverride: bool)
    requires (to == Cancelled || to == Delivered) && Inv(f)
    requires FinishFrom(f, o, read, from, to, manualOverride).Committed?
    ensures Inv(FinishFrom(f, o, read, from, to, manualOverride).fleet) <==> FinishUpToDate(read, f.orders[o])
  {
    var g := FinishFrom(f, o, read, from, to, manualOverride).fleet;
    ReleaseAgreesExactlyWhen(f.drivers, f.orders, DriverOf(), o, read.driver, g.orders);
    ReleaseAgreesExactlyWhen(f.trucks, f.orders, TruckOf(), o, read.truck, g.orders);
    ReleaseAgreesExactlyWhen(f.tanks, f.orders, TankOf(), o, read.tank, g.orders);
  }

  lemma ReassignKeepsExactlyWhen(f: Fleet, o: OrderId, read: Order, truck: Id, tank: Id)
    requires Inv(f) && ReassignFrom(f, o, read, truck, tank).Committed?
    ensures Inv(ReassignFrom(f, o, read, truck, tank).fleet) <==> ReassignUpToDate(read, f.orders[o])
  {
    var g := ReassignFrom(f, o, read, truck, tank).fleet;
    RebookAgreesExactlyWhen(f.trucks, f.orders, TruckOf(), o, read.truck, truck, g.orders);
    RebookAgreesExactlyWhen(f.tanks, f.orders, TankOf(), o, read.tank, tank, g.orders);
    UnchangedAgrees(f.drivers, f.orders, DriverOf(), o, g.orders);
  }

  // ---------- runs ----------

  datatype Intent =
    | ToFinish(from: OrderStatus, to: OrderStatus, manualOverride: bool)
    | ToReassign(truck: Id, tank: Id)

  /** A request that has read its order and not yet run its transaction. */
  datatype Pending = Pending(o: OrderId, read: Order, intent: Intent)
  datatype State = State(fleet: Fleet, pending: map<nat, Pending>)
  datatype Event = AtOnce(r: Request) | Read(id: nat, o: OrderId, intent: Intent) | Write(id: nat)

  function Attempt(f: Fleet, p: Pending): Reply {
    match p.intent
    case ToFinish(from, to, manualOverride) =>
      if to == Cancelled || to == Delivered then FinishFrom(f, p.o, p.read, from, to, manualOverride)
      else Refused(InvalidTransition)
    case ToReassign(truck, tank) => ReassignFrom(f, p.o, p.read, truck, tank)
  }

  function Next(s: State, e: Event): State {
    match e
    case AtOnce(r) => s.(fleet := Vehicles.Step(s.fleet, r))
    case Read(id, o, intent) =>
      if id in s.pending || o !in s.fleet.orders then s
      else s.(pending := s.pending[id := Pending(o, s.fleet.orders[o], intent)])
    case Write(id) =>
      if id !in s.pending then s
      else State(match Attempt(s.fleet, s.pending[id]) case Committed(g) => g case Refused(_) => s.fleet,
                 s.pending - {id})
  }

  function Run(s: State, events: seq<Event>): State {
    if events == [] then s else Next(Run(s, events[..|events| - 1]), events[|events| - 1])
  }

  /** The event is not a write that commits from a document gone stale. */
  ghost predicate UpToDateEvent(s: State, e: Event) {
    e.Write? && e.id in s.pending && Attempt(s.fleet, s.pending[e.id]).Committed? ==>
      var p := s.pending[e.id];
      var now := s.fleet.orders[p.o];
      if p.intent.ToFinish? then FinishUpToDate(p.read, now) else ReassignUpToDate(p.read, now)
  }

  lemma NextKeepsExactlyWhen(s: State, e: Event)
    requires Inv(s.fleet)
    ensures Inv(Next(s, e).fleet) <==> UpToDateEvent(s, e)
  {
    match e {
      case AtOnce(r) => StepKeeps(s.fleet, r);
      case Read(_, _, _) =>
      case Write(id) =>
        if id in s.pending && Attempt(s.fleet, s.pending[id]).Committed? {
          var p := s.pending[id];
          match p.intent {
            case ToFinish(from, to, manualOverride) =>
              FinishKeepsExactlyWhen(s.fleet, p.o, p.read, from, to, manualOverride);
            case ToReassign(truck, tank) => ReassignKeepsExactlyWhen(s.fleet, p.o, p.read, truck, tank);
          }
        }
    }
  }

  /** Bookings and live deliveries named each other exactly after every event so far. */
  ghost predicate AlwaysAgreed(s: State, events: seq<Event>) {
    Inv(Run(s, events).fleet) && (events != [] ==> AlwaysAgreed(s, events[..|events| - 1]))
  }

  ghost predicate AlwaysUpToDate(s: State, events: seq<Event>) {
    events != [] ==>
      var init := events[..|events| - 1];
      AlwaysUpToDate(s, init) && UpToDateEvent(Run(s, init), events[|events| - 1])
  }

  /** In every interleaving of reads and writes, bookings and live deliveries agree throughout if and only
      if no request committed from a document that had gone stale. */
  lemma {:induction false} AgreementHoldsExactlyWhileUpToDate(s: State, events: seq<Event>)
    requires Initial(s.fleet)
    ensures AlwaysAgreed(s, events) <==> AlwaysUpToDate(s, events)
  {
    if events == [] {
      BookingsAgreeWithDeliveries(s.fleet, []);
    } else {
      var init, e := events[..|events| - 1], events[|events| - 1];
      AgreementHoldsExactlyWhileUpToDate(s, init);
      if AlwaysAgreed(s, init) { NextKeepsExactlyWhen(Run(s, init), e); }
    }
  }

  // ---------- runs that break it ----------

  lemma RunOfThree(s: State, a: Event, b: Event, c: Event)
    ensures Run(s, [a, b, c]) == Next(Next(Next(s, a), b), c)
  {
    assert [a, b, c][..2] == [a, b] && [a, b][..1] == [a] && [a][..0] == [];
    assert Run(s, [a]) == Next(s, a);
    assert Run(s, [a, b]) == Next(Next(s, a), b);
  }

  /** One request reads, another runs whole, then the first writes. */
  lemma Overtaken(f: Fleet, o: OrderId, intent: Intent, r: Request)
    requires o in f.orders
    ensures var p, g := Pending(o, f.orders[o], intent), Vehicles.Step(f, r);
            Run(State(f, map[]), [Read(1, o, intent), AtOnce(r), Write(1)]).fleet
            == match Attempt(g, p) case Committed(h) => h case Refused(_) => g
  {
    RunOfThree(State(f, map[]), Read(1, o, intent), AtOnce(r), Write(1));
  }

  /** A cancelled order still holds a truck, so bookings and deliveries disagree. */
  ghost predicate HeldByCancelled(f: Fleet, o: OrderId, truck: Id) {
    o in f.orders && f.orders[o].status == Cancelled && Holds(f.trucks, truck, o)
  }

  lemma HeldByCancelledDisagrees(f: Fleet, o: OrderId, truck: Id)
    requires HeldByCancelled(f, o, truck)
    ensures !Inv(f)
  {
    assert !LiveNames(f.orders, TruckOf(), o, truck);
  }

  /** From any fleet in which an order could be given another truck: a reassignment that commits between
      a cancellation's read and its write leaves the new truck on the cancelled order. */
  lemma CancelOvertakenByReassignment(f: Fleet, o: OrderId, truck: Id, tank: Id)
    requires o in f.orders && Reassign(f, o, truck, tank).Committed? && f.orders[o].truck != Some(truck)
    ensures var cancel := ToFinish(AssignedToDriver, Cancelled, false);
            var after := Run(State(f, map[]), [Read(1, o, cancel), AtOnce(ReassignTo(o, truck, tank)), Write(1)]).fleet;
            HeldByCancelled(after, o, truck) && !Inv(after)
  {
    var cancel := ToFinish(AssignedToDriver, Cancelled, false);
    Overtaken(f, o, cancel, ReassignTo(o, truck, tank));
    HeldByCancelledDisagrees(
      Run(State(f, map[]), [Read(1, o, cancel), AtOnce(ReassignTo(o, truck, tank)), Write(1)]).fleet, o, truck);
  }

  /** And a cancellation that commits between a reassignment's read and its write does the same. */
  lemma ReassignmentOvertakenByCancel(f: Fleet, o: OrderId, truck: Id, tank: Id)
    requires o in f.orders && Reassign(f, o, truck, tank).Committed?
    ensures var cancel := AtOnce(CancelFrom(o, AssignedToDriver));
            var after := Run(State(f, map[]), [Read(1, o, ToReassign(truck, tank)), cancel, Write(1)]).fleet;
            HeldByCancelled(after, o, truck) && !Inv(after)
  {
    var cancel := AtOnce(CancelFrom(o, AssignedToDriver));
    Overtaken(f, o, ToReassign(truck, tank), CancelFrom(o, AssignedToDriver));
    HeldByCancelledDisagrees(
      Run(State(f, map[]), [Read(1, o, ToReassign(truck, tank)), cancel, Write(1)]).fleet, o, truck);
  }

  // ---------- such a fleet is reachable ----------

  const IDLE := Bookable(true, None)
  const YARD := Fleet(map[], map[1 := IDLE], {1}, map[1 := IDLE, 2 := IDLE], map[1 := IDLE, 2 := IDLE],
                      map[1 := TankSpec(9.0, {0}), 2 := TankSpec(9.0, {0})])

  function Waiting(status: OrderStatus): Order { Order(status, None, None, None, 5.0, 0) }

  const ROUTED_RUN: seq<Request> := [PlaceOrder(1, 5.0, 0), Move(1, Approved), Move(1, RoutedToTransport)]

  lemma ReachesRouted()
    ensures Vehicles.Run(YARD, ROUTED_RUN) == YARD.(orders := map[1 := Waiting(RoutedToTransport)])
  {
    var place, approve, route := PlaceOrder(1, 5.0, 0), Move(1, Approved), Move(1, RoutedToTransport);
    assert ROUTED_RUN[..2] == [place, approve] && [place, approve][..1] == [place] && [place][..0] == [];
    assert Vehicles.Run(YARD, [place]) == YARD.(orders := map[1 := Waiting(PendingApproval)]);
    assert Vehicles.Run(YARD, [place, approve]) == YARD.(orders := map[1 := Waiting(Approved)]);
  }

  /** Order 1 goes out with the first truck and tank, and could be given the second. */
  lemma ReassignableIsReachable()
    ensures Initial(YARD)
    ensures var g := Vehicles.Run(YARD, ROUTED_RUN + [AssignTo(1, 1, 1, 1)]);
      1 in g.orders && Reassign(g, 1, 2, 2).Committed? && g.orders[1].truck != Some(2)
  {
    var assign := AssignTo(1, 1, 1, 1);
    ReachesRouted();
    assert (ROUTED_RUN + [assign])[..3] == ROUTED_RUN;
  }
}
