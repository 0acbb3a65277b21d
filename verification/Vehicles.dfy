/** Booking of drivers, trucks and tanks (src/modules/orders/orders.service.ts and the assignment in
    src/modules/dispatch/services/dispatch.service.ts). A booked document points at its order
    through `activeOrder`, and an order names what it booked; each request is one atomic step. */
module Vehicles {
  import opened Options
  import opened OrderStates

  type Id = nat
  type OrderId = nat
  type Grade = nat

  datatype Order = Order(status: OrderStatus, driver: Option<Id>, truck: Option<Id>, tank: Option<Id>, quantity: real,
                         grade: Grade)
  datatype Bookable = Bookable(isActive: bool, activeOrder: Option<OrderId>)
  datatype TankSpec = TankSpec(capacity: real, grades: set<Grade>)
  type Pool = map<Id, Bookable>

  /** `available` holds the drivers whose `isAvailable` flag is set. */
  datatype Fleet = Fleet(orders: map<OrderId, Order>, drivers: Pool, available: set<Id>, trucks: Pool, tanks: Pool,
                         specs: map<Id, TankSpec>)

  datatype Refusal =
    | OrderNotFound | AlreadyDeparted | InvalidTransition | DriverUnavailable | TruckUnavailable | TankUnavailable
    | TankCapacityExceeded | TankGradeUnsupported
  datatype Reply = Committed(fleet: Fleet) | Refused(why: Refusal)

  // ---------- conditional updates ----------

  predicate IsFree(pool: Pool, id: Id) { id in pool && pool[id].isActive && pool[id].activeOrder.None? }

  function Book(pool: Pool, id: Id, o: OrderId): Pool
    requires id in pool
  {
    pool[id := pool[id].(activeOrder := Some(o))]
  }

  predicate Holds(pool: Pool, id: Id, o: OrderId) { id in pool && pool[id].activeOrder == Some(o) }

  /** Clears the booking only if it is this order's. */
  function Release(pool: Pool, id: Option<Id>, o: OrderId): Pool {
    if id.Some? && Holds(pool, id.value, o) then pool[id.value := pool[id.value].(activeOrder := None)] else pool
  }

  /** The driver a release makes available again, if it does release one. */
  function Freed(pool: Pool, id: Option<Id>, o: OrderId): set<Id> {
    if id.Some? && Holds(pool, id.value, o) then {id.value} else {}
  }

  function TankFits(f: Fleet, tank: Id, x: Order): Option<Refusal> {
    if tank !in f.specs || f.specs[tank].capacity < x.quantity then Some(TankCapacityExceeded)
    else if x.grade !in f.specs[tank].grades then Some(TankGradeUnsupported)
    else None
  }

  // ---------- requests ----------

  function Assign(f: Fleet, o: OrderId, driver: Id, truck: Id, tank: Id): Reply {
    if o !in f.orders then Refused(OrderNotFound)
    else
      var x := f.orders[o];
      if !IsFree(f.drivers, driver) || driver !in f.available then Refused(DriverUnavailable)
      else if !IsFree(f.trucks, truck) then Refused(TruckUnavailable)
      else if !IsFree(f.tanks, tank) then Refused(TankUnavailable)
      else if TankFits(f, tank, x).Some? then Refused(TankFits(f, tank, x).value)
      else if !TransitionOk(x.status, RoutedToTransport, AssignedToDriver, false) then Refused(InvalidTransition)
      else Committed(f.(orders := f.orders[o := x.(status := AssignedToDriver, driver := Some(driver),
                                                   truck := Some(truck), tank := Some(tank))],
                        drivers := Book(f.drivers, driver, o), available := f.available - {driver},
                        trucks := Book(f.trucks, truck, o), tanks := Book(f.tanks, tank, o)))
  }

  /** `reassignVehicle`: release the old pair, book the new one, all in one transaction. */
  function Reassign(f: Fleet, o: OrderId, truck: Id, tank: Id): Reply {
    if o !in f.orders then Refused(OrderNotFound)
    else
      var x := f.orders[o];
      if x.status != AssignedToDriver then Refused(AlreadyDeparted)
      else
        var trucks, tanks := Release(f.trucks, x.truck, o), Release(f.tanks, x.tank, o);
        if !IsFree(trucks, truck) then Refused(TruckUnavailable)
        else if !IsFree(tanks, tank) then Refused(TankUnavailable)
        else if TankFits(f, tank, x).Some? then Refused(TankFits(f, tank, x).value)
        else Committed(f.(orders := f.orders[o := x.(truck := Some(truck), tank := Some(tank))],
                          trucks := Book(trucks, truck, o), tanks := Book(tanks, tank, o)))
  }

  /** Cancelling, completing and force-completing: release everything, then the compare-and-set on
      the status, which rolls the release back if it fails. */
  function Finish(f: Fleet, o: OrderId, from: OrderStatus, to: OrderStatus, manualOverride: bool): Reply
    requires to == Cancelled || to == Delivered
  {
    if o !in f.orders then Refused(OrderNotFound)
    else
      var x := f.orders[o];
      if !TransitionOk(x.status, from, to, manualOverride) then Refused(InvalidTransition)
      else Committed(f.(orders := f.orders[o := x.(status := to)],
                        drivers := Release(f.drivers, x.driver, o),
                        available := f.available + Freed(f.drivers, x.driver, o),
                        trucks := Release(f.trucks, x.truck, o), tanks := Release(f.tanks, x.tank, o)))
  }

  function Cancel(f: Fleet, o: OrderId, from: OrderStatus): Reply { Finish(f, o, from, Cancelled, false) }
  function CompleteDelivery(f: Fleet, o: OrderId): Reply { Finish(f, o, Unloading, Delivered, false) }
  function ForceComplete(f: Fleet, o: OrderId, from: OrderStatus): Reply { Finish(f, o, from, Delivered, true) }

  /** Every status change that neither books nor releases. */
  function Advance(f: Fleet, o: OrderId, to: OrderStatus): Reply {
    if o !in f.orders then Refused(OrderNotFound)
    else if !Allowed(f.orders[o].status, to, false) || IsLiveDelivery(f.orders[o].status) != IsLiveDelivery(to) then
      Refused(InvalidTransition)
    else Committed(f.(orders := f.orders[o := f.orders[o].(status := to)]))
  }

  datatype Request =
    | PlaceOrder(o: OrderId, quantity: real, grade: Grade)
    | AssignTo(o: OrderId, driver: Id, truck: Id, tank: Id)
    | ReassignTo(o: OrderId, truck: Id, tank: Id)
    | CancelFrom(o: OrderId, from: OrderStatus)
    | Complete(o: OrderId)
    | Force(o: OrderId, from: OrderStatus)
    | Move(o: OrderId, to: OrderStatus)

  function Respond(f: Fleet, r: Request): Reply {
    match r
    case PlaceOrder(o, quantity, grade) =>
      if o in f.orders then Refused(InvalidTransition)
      else Committed(f.(orders := f.orders[o := Order(PendingApproval, None, None, None, quantity, grade)]))
    case AssignTo(o, driver, truck, tank) => Assign(f, o, driver, truck, tank)
    case ReassignTo(o, truck, tank) => Reassign(f, o, truck, tank)
    case CancelFrom(o, from) => Cancel(f, o, from)
    case Complete(o) => CompleteDelivery(f, o)
    case Force(o, from) => ForceComplete(f, o, from)
    case Move(o, to) => Advance(f, o, to)
  }

  /** A refused request rolls back whole. */
  function Step(f: Fleet, r: Request): Fleet {
    match Respond(f, r) case Committed(g) => g case Refused(_) => f
  }

  function Run(f: Fleet, requests: seq<Request>): Fleet {
    if requests == [] then f else Step(Run(f, requests[..|requests| - 1]), requests[|requests| - 1])
  }

  ghost predicate Idle(pool: Pool) { forall id <- pool :: pool[id].activeOrder.None? }

  ghost predicate Initial(f: Fleet) {
    f.orders == map[] && Idle(f.drivers) && Idle(f.trucks) && Idle(f.tanks)
  }

  // ---------- the invariant ----------

  type Naming = Order -> Option<Id>
  function DriverOf(): Naming { (x: Order) => x.driver }
  function TruckOf(): Naming { (x: Order) => x.truck }
  function TankOf(): Naming { (x: Order) => x.tank }

  /** Order `o` is a live delivery naming `id`. */
  ghost predicate LiveNames(orders: map<OrderId, Order>, name: Naming, o: OrderId, id: Id) {
    o in orders && IsLiveDelivery(orders[o].status) && name(orders[o]) == Some(id)
  }

  /** A document's active order is `o` exactly when `o` is a live delivery naming it. */
  ghost predicate Agrees(pool: Pool, orders: map<OrderId, Order>, name: Naming) {
    forall id: Id, o: OrderId :: Holds(pool, id, o) <==> LiveNames(orders, name, o, id)
  }

  ghost predicate Inv(f: Fleet) {
    && Agrees(f.drivers, f.orders, DriverOf())
    && Agrees(f.trucks, f.orders, TruckOf())
    && Agrees(f.tanks, f.orders, TankOf())
    && (forall d <- f.drivers :: f.drivers[d].activeOrder.Some? ==> d !in f.available)
  }

  /** Ending a delivery releases what it named. */
  lemma ReleaseAgrees(pool: Pool, orders: map<OrderId, Order>, name: Naming, o: OrderId, orders': map<OrderId, Order>)
    requires Agrees(pool, orders, name) && o in orders
    requires o in orders' && orders' == orders[o := orders'[o]] && !IsLiveDelivery(orders'[o].status)
    ensures Agrees(Release(pool, name(orders[o]), o), orders', name)
  {
    var pool' := Release(pool, name(orders[o]), o);
    forall id: Id, p: OrderId ensures Holds(pool', id, p) <==> LiveNames(orders', name, p, id) {
      assert Holds(pool, id, p) <==> LiveNames(orders, name, p, id);
    }
  }

  /** Starting a delivery books what it names. */
  lemma BookAgrees(pool: Pool, orders: map<OrderId, Order>, name: Naming, o: OrderId, id: Id,
                   orders': map<OrderId, Order>)
    requires Agrees(pool, orders, name) && IsFree(pool, id)
    requires o in orders ==> !IsLiveDelivery(orders[o].status)
    requires o in orders' && orders' == orders[o := orders'[o]] && IsLiveDelivery(orders'[o].status)
    requires name(orders'[o]) == Some(id)
    ensures Agrees(Book(pool, id, o), orders', name)
  {
    var pool' := Book(pool, id, o);
    forall v: Id, p: OrderId ensures Holds(pool', v, p) <==> LiveNames(orders', name, p, v) {
      assert Holds(pool, v, p) <==> LiveNames(orders, name, p, v);
    }
  }

  /** A change of an order that leaves what it names and whether it is live leaves agreement. */
  lemma UnchangedAgrees(pool: Pool, orders: map<OrderId, Order>, name: Naming, o: OrderId, orders': map<OrderId, Order>)
    requires Agrees(pool, orders, name) && o in orders' && orders' == orders[o := orders'[o]]
    requires o in orders
        ==> IsLiveDelivery(orders[o].status) == IsLiveDelivery(orders'[o].status) && name(orders[o]) == name(orders'[o])
    requires o !in orders ==> !IsLiveDelivery(orders'[o].status)
    ensures Agrees(pool, orders', name)
  {
    forall id: Id, p: OrderId ensures Holds(pool, id, p) <==> LiveNames(orders', name, p, id) {
      assert Holds(pool, id, p) <==> LiveNames(orders, name, p, id);
    }
  }

  lemma AssignKeeps(f: Fleet, o: OrderId, driver: Id, truck: Id, tank: Id)
    requires Inv(f) && Assign(f, o, driver, truck, tank).Committed?
    ensures Inv(Assign(f, o, driver, truck, tank).fleet)
  {
    var orders' := Assign(f, o, driver, truck, tank).fleet.orders;
    BookAgrees(f.drivers, f.orders, DriverOf(), o, driver, orders');
    BookAgrees(f.trucks, f.orders, TruckOf(), o, truck, orders');
    BookAgrees(f.tanks, f.orders, TankOf(), o, tank, orders');
  }

  lemma FinishKeeps(f: Fleet, o: OrderId, from: OrderStatus, to: OrderStatus, manualOverride: bool)
    requires (to == Cancelled || to == Delivered) && Inv(f) && Finish(f, o, from, to, manualOverride).Committed?
    ensures Inv(Finish(f, o, from, to, manualOverride).fleet)
  {
    var g := Finish(f, o, from, to, manualOverride).fleet;
    ReleaseAgrees(f.drivers, f.orders, DriverOf(), o, g.orders);
    ReleaseAgrees(f.trucks, f.orders, TruckOf(), o, g.orders);
    ReleaseAgrees(f.tanks, f.orders, TankOf(), o, g.orders);
  }

  /** Reassignment passes through a state in which the order holds nothing. */
  lemma ReassignKeeps(f: Fleet, o: OrderId, truck: Id, tank: Id)
    requires Inv(f) && Reassign(f, o, truck, tank).Committed?
    ensures Inv(Reassign(f, o, truck, tank).fleet)
  {
    var x, g := f.orders[o], Reassign(f, o, truck, tank).fleet;
    var between := f.orders[o := x.(status := RoutedToTransport)];
    ReleaseAgrees(f.trucks, f.orders, TruckOf(), o, between);
    ReleaseAgrees(f.tanks, f.orders, TankOf(), o, between);
    BookAgrees(Release(f.trucks, x.truck, o), between, TruckOf(), o, truck, g.orders);
    BookAgrees(Release(f.tanks, x.tank, o), between, TankOf(), o, tank, g.orders);
    UnchangedAgrees(f.drivers, f.orders, DriverOf(), o, g.orders);
  }

  lemma QuietKeeps(f: Fleet, o: OrderId, g: Fleet)
    requires Inv(f) && o in g.orders && g == f.(orders := f.orders[o := g.orders[o]])
    requires o in f.orders ==> g.orders[o] == f.orders[o].(status := g.orders[o].status)
                               && IsLiveDelivery(f.orders[o].status) == IsLiveDelivery(g.orders[o].status)
    requires o !in f.orders ==> !IsLiveDelivery(g.orders[o].status)
    ensures Inv(g)
  {
    UnchangedAgrees(f.drivers, f.orders, DriverOf(), o, g.orders);
    UnchangedAgrees(f.trucks, f.orders, TruckOf(), o, g.orders);
    UnchangedAgrees(f.tanks, f.orders, TankOf(), o, g.orders);
  }

  lemma StepKeeps(f: Fleet, r: Request)
    requires Inv(f)
    ensures Inv(Step(f, r))
  {
    if Respond(f, r).Committed? {
      match r {
        case PlaceOrder(o, _, _) => QuietKeeps(f, o, Step(f, r));
        case AssignTo(o, driver, truck, tank) => AssignKeeps(f, o, driver, truck, tank);
        case ReassignTo(o, truck, tank) => ReassignKeeps(f, o, truck, tank);
        case CancelFrom(o, from) => FinishKeeps(f, o, from, Cancelled, false);
        case Complete(o) => FinishKeeps(f, o, Unloading, Delivered, false);
        case Force(o, from) => FinishKeeps(f, o, from, Delivered, true);
        case Move(o, _) => QuietKeeps(f, o, Step(f, r));
      }
    }
  }

  /** Over every run, bookings and live deliveries name each other exactly. */
  lemma {:induction false} BookingsAgreeWithDeliveries(f: Fleet, requests: seq<Request>)
    requires Initial(f)
    ensures Inv(Run(f, requests))
  {
    if requests != [] {
      BookingsAgreeWithDeliveries(f, requests[..|requests| - 1]);
      StepKeeps(Run(f, requests[..|requests| - 1]), requests[|requests| - 1]);
    }
  }

  // ---------- what is booked can carry the order ----------

  /** The tank can take the order's quantity and is permitted its grade. */
  predicate Carries(spec: TankSpec, x: Order) { x.quantity <= spec.capacity && x.grade in spec.grades }

  /** A live delivery names a driver, a truck and a tank that can carry it. */
  ghost predicate Equipped(f: Fleet, x: Order) {
    IsLiveDelivery(x.status) ==>
      x.driver.Some? && x.truck.Some? && x.tank.Some? && x.tank.value in f.specs && Carries(f.specs[x.tank.value], x)
  }

  lemma StepEquips(f: Fleet, r: Request)
    requires forall o <- f.orders :: Equipped(f, f.orders[o])
    ensures Step(f, r).specs == f.specs
    ensures forall o <- Step(f, r).orders :: Equipped(Step(f, r), Step(f, r).orders[o])
  {
    var g := Step(f, r);
    forall o <- g.orders ensures Equipped(g, g.orders[o]) { if o in f.orders { assert Equipped(f, f.orders[o]); } }
  }

  /** Over every run each live delivery has a driver and a truck, and a tank that can carry its quantity and
      grade, however often it was reassigned. */
  lemma {:induction false} LiveDeliveriesAreEquipped(f: Fleet, requests: seq<Request>)
    requires Initial(f)
    ensures forall o <- Run(f, requests).orders :: Equipped(Run(f, requests), Run(f, requests).orders[o])
    ensures Run(f, requests).specs == f.specs
  {
    if requests != [] {
      LiveDeliveriesAreEquipped(f, requests[..|requests| - 1]);
      StepEquips(Run(f, requests[..|requests| - 1]), requests[|requests| - 1]);
    }
  }

  /** An assignment goes through exactly when the order awaits one, its driver, truck and tank are free and in
      service, the driver is available, and the tank can carry it. */
  lemma AssignsExactlyWhen(f: Fleet, o: OrderId, driver: Id, truck: Id, tank: Id)
    ensures Assign(f, o, driver, truck, tank).Committed? <==>
      && o in f.orders && f.orders[o].status == RoutedToTransport
      && InService(f.drivers, driver) && InService(f.trucks, truck) && InService(f.tanks, tank) && driver in f.available
      && (forall p: OrderId :: !Holds(f.drivers, driver, p) && !Holds(f.trucks, truck, p) && !Holds(f.tanks, tank, p))
      && tank in f.specs && Carries(f.specs[tank], f.orders[o])
  {
    FreeMeans(f.drivers, driver);
    FreeMeans(f.trucks, truck);
    FreeMeans(f.tanks, tank);
  }

  predicate InService(pool: Pool, id: Id) { id in pool && pool[id].isActive }

  lemma FreeMeans(pool: Pool, id: Id)
    ensures IsFree(pool, id) <==> InService(pool, id) && forall p: OrderId :: !Holds(pool, id, p)
  {
    if InService(pool, id) && pool[id].activeOrder.Some? { assert Holds(pool, id, pool[id].activeOrder.value); }
  }

  /** Cancelling goes through exactly from the status named, before the truck is under way; completing, exactly
      from UNLOADING; force-completing, exactly from the status named, once loading has begun. Each leaves
      the order finished and touches no other order. */
  lemma FinishesExactlyWhen(f: Fleet, o: OrderId, from: OrderStatus)
    ensures Cancel(f, o, from).Committed? <==>
      && o in f.orders && f.orders[o].status == from
      && from !in {InTransit, Unloading, Delivered, Rejected, Cancelled}
    ensures CompleteDelivery(f, o).Committed? <==> o in f.orders && f.orders[o].status == Unloading
    ensures ForceComplete(f, o, from).Committed? <==>
      o in f.orders && f.orders[o].status == from && from in {Loading, InTransit, Unloading}
    ensures Cancel(f, o, from).Committed? ==>
      Cancel(f, o, from).fleet.orders == f.orders[o := f.orders[o].(status := Cancelled)]
    ensures CompleteDelivery(f, o).Committed? ==>
      CompleteDelivery(f, o).fleet.orders == f.orders[o := f.orders[o].(status := Delivered)]
    ensures ForceComplete(f, o, from).Committed? ==>
      ForceComplete(f, o, from).fleet.orders == f.orders[o := f.orders[o].(status := Delivered)]
  {
    EdgesInto(from, false);
    EdgesInto(from, true);
  }

  /** Every other move goes through exactly along an edge of the lifecycle that neither starts a delivery nor
      ends one, and moves nothing but the order's status. */
  lemma MovesExactlyWhen(f: Fleet, o: OrderId, to: OrderStatus)
    ensures var reply := Advance(f, o, to);
      && (reply.Committed? <==>
            && o in f.orders && Allowed(f.orders[o].status, to, false) && to != AssignedToDriver
            && !(IsLiveDelivery(f.orders[o].status) && (to == Delivered || to == Cancelled)))
      && (reply.Committed? ==> reply.fleet == f.(orders := f.orders[o := f.orders[o].(status := to)]))
  {
    if o in f.orders && Allowed(f.orders[o].status, to, false) {
      LiveUntilFinished(f.orders[o].status, to, false);
    }
  }

  /** A reassignment goes through exactly when the order has not departed, each of the new pair is in service
      and held by no order but this one, as the pair it names, and the new tank can carry it. */
  lemma ReassignsExactlyWhen(f: Fleet, o: OrderId, truck: Id, tank: Id)
    ensures Reassign(f, o, truck, tank).Committed? <==>
      && o in f.orders && f.orders[o].status == AssignedToDriver
      && InService(f.trucks, truck) && InService(f.tanks, tank)
      && (forall p: OrderId :: Holds(f.trucks, truck, p) ==> p == o && f.orders[o].truck == Some(truck))
      && (forall p: OrderId :: Holds(f.tanks, tank, p) ==> p == o && f.orders[o].tank == Some(tank))
      && tank in f.specs && Carries(f.specs[tank], f.orders[o])
  {
    if o in f.orders {
      FreedMeans(f.trucks, f.orders[o].truck, o, truck);
      FreedMeans(f.tanks, f.orders[o].tank, o, tank);
    }
  }

  lemma FreedMeans(pool: Pool, named: Option<Id>, o: OrderId, id: Id)
    ensures IsFree(Release(pool, named, o), id) <==>
      InService(pool, id) && forall p: OrderId :: Holds(pool, id, p) ==> p == o && named == Some(id)
  {
    FreeMeans(Release(pool, named, o), id);
    if InService(pool, id) && pool[id].activeOrder.Some? { assert Holds(pool, id, pool[id].activeOrder.value); }
  }

  // ---------- main results ----------

  ghost predicate HoldsNothing(f: Fleet, o: OrderId) {
    forall id: Id :: !Holds(f.drivers, id, o) && !Holds(f.trucks, id, o) && !Holds(f.tanks, id, o)
  }

  /** A finished order holds no driver, truck or tank, its driver is available again, and what other
      orders hold is undisturbed. */
  lemma FinishedOrderHoldsNothing(f: Fleet, requests: seq<Request>, o: OrderId, from: OrderStatus, to: OrderStatus,
                                  manualOverride: bool)
    requires Initial(f) && (to == Cancelled || to == Delivered)
    requires Finish(Run(f, requests), o, from, to, manualOverride).Committed?
    ensures var before := Run(f, requests);
            var after := Finish(before, o, from, to, manualOverride).fleet;
            && HoldsNothing(after, o)
            && (forall d: Id :: Holds(before.drivers, d, o) ==> d in after.available)
            && (forall p: OrderId, id: Id :: p != o ==>
                  && (Holds(before.drivers, id, p) <==> Holds(after.drivers, id, p))
                  && (Holds(before.trucks, id, p) <==> Holds(after.trucks, id, p))
                  && (Holds(before.tanks, id, p) <==> Holds(after.tanks, id, p)))
  {
    var before := Run(f, requests);
    var after := Finish(before, o, from, to, manualOverride).fleet;
    BookingsAgreeWithDeliveries(f, requests);
    FinishKeeps(before, o, from, to, manualOverride);
    forall id: Id ensures !Holds(after.drivers, id, o) && !Holds(after.trucks, id, o) && !Holds(after.tanks, id, o) {
      assert !LiveNames(after.orders, DriverOf(), o, id) && !LiveNames(after.orders, TruckOf(), o, id)
          && !LiveNames(after.orders, TankOf(), o, id);
    }
    forall d: Id | Holds(before.drivers, d, o) ensures d in after.available {
      assert LiveNames(before.orders, DriverOf(), o, d);
    }
  }

  /** A reassigned order holds exactly the new truck and tank, whether or not they are the old ones,
      keeps its driver, and disturbs no other order. */
  lemma ReassignedOrderHoldsExactlyTheNewPair(f: Fleet, requests: seq<Request>, o: OrderId, truck: Id, tank: Id)
    requires Initial(f) && Reassign(Run(f, requests), o, truck, tank).Committed?
    ensures var before := Run(f, requests);
            var after := Reassign(before, o, truck, tank).fleet;
            && (forall id: Id :: Holds(after.trucks, id, o) <==> id == truck)
            && (forall id: Id :: Holds(after.tanks, id, o) <==> id == tank)
            && after.drivers == before.drivers
            && (forall p: OrderId, id: Id :: p != o ==>
                  (Holds(before.trucks, id, p) <==> Holds(after.trucks, id, p))
                      && (Holds(before.tanks, id, p) <==> Holds(after.tanks, id, p)))
  {
    var before := Run(f, requests);
    var after := Reassign(before, o, truck, tank).fleet;
    BookingsAgreeWithDeliveries(f, requests);
    ReassignKeeps(before, o, truck, tank);
    forall id: Id ensures (Holds(after.trucks, id, o) <==> id == truck) && (Holds(after.tanks, id, o) <==> id == tank) {
      assert Holds(after.trucks, id, o) <==> LiveNames(after.orders, TruckOf(), o, id);
      assert Holds(after.tanks, id, o) <==> LiveNames(after.orders, TankOf(), o, id);
    }
  }

  /** Naming the pair it already has is never refused for unavailability while they stay in service. */
  lemma ReassigningToTheSamePairSucceeds(f: Fleet, requests: seq<Request>, o: OrderId)
    requires Initial(f)
    requires var g := Run(f, requests);
      && o in g.orders && g.orders[o].status == AssignedToDriver
      && g.orders[o].truck.Some? && g.orders[o].tank.Some?
      && (g.orders[o].truck.value in g.trucks ==> g.trucks[g.orders[o].truck.value].isActive)
      && (g.orders[o].tank.value in g.tanks ==> g.tanks[g.orders[o].tank.value].isActive)
      && TankFits(g, g.orders[o].tank.value, g.orders[o]).None?
    ensures var g := Run(f, requests);
            Reassign(g, o, g.orders[o].truck.value, g.orders[o].tank.value) == Committed(g)
  {
    var g := Run(f, requests);
    BookingsAgreeWithDeliveries(f, requests);
    var x := g.orders[o];
    assert LiveNames(g.orders, TruckOf(), o, x.truck.value) && LiveNames(g.orders, TankOf(), o, x.tank.value);
    assert Holds(g.trucks, x.truck.value, o) && Holds(g.tanks, x.tank.value, o);
    assert Book(Release(g.trucks, x.truck, o), x.truck.value, o) == g.trucks;
    assert Book(Release(g.tanks, x.tank, o), x.tank.value, o) == g.tanks;
    assert g.orders[o := x] == g.orders;
  }

  // ---------- the service object ----------

  class Dispatcher {
    var orders: map<OrderId, Order>
    var drivers: Pool
    var available: set<Id>
    var trucks: Pool
    var tanks: Pool
    var specs: map<Id, TankSpec>

    ghost function Stored(): Fleet
      reads this
    {
      Fleet(orders, drivers, available, trucks, tanks, specs)
    }

    /** Releases the order's driver, truck and tank, each only if it is still this order's. */
    method ReleaseDriverIfAssigned(o: OrderId)
      requires o in orders
      modifies this`drivers, this`available, this`trucks, this`tanks
      ensures drivers == Release(old(drivers), orders[o].driver, o)
      ensures trucks == Release(old(trucks), orders[o].truck, o) && tanks == Release(old(tanks), orders[o].tank, o)
      ensures available == old(available) + Freed(old(drivers), orders[o].driver, o)
    {
      var x := orders[o];
      if x.driver.Some? && x.driver.value in drivers && drivers[x.driver.value].activeOrder == Some(o) {
        drivers := drivers[x.driver.value := drivers[x.driver.value].(activeOrder := None)];
        available := available + {x.driver.value};
      }
      if x.truck.Some? && x.truck.value in trucks && trucks[x.truck.value].activeOrder == Some(o) {
        trucks := trucks[x.truck.value := trucks[x.truck.value].(activeOrder := None)];
      }
      if x.tank.Some? && x.tank.value in tanks && tanks[x.tank.value].activeOrder == Some(o) {
        tanks := tanks[x.tank.value := tanks[x.tank.value].(activeOrder := None)];
      }
    }

    method FinishOrder(o: OrderId, from: OrderStatus, to: OrderStatus, manualOverride: bool)
      returns (refusal: Option<Refusal>)
      requires to == Cancelled || to == Delivered
      modifies this
      ensures match Finish(old(Stored()), o, from, to, manualOverride)
              case Committed(f) => refusal == None && Stored() == f
              case Refused(why) => refusal == Some(why) && Stored() == old(Stored())
    {
      if o !in orders { return Some(OrderNotFound); }
      var drivers0, available0, trucks0, tanks0 := drivers, available, trucks, tanks;
      ReleaseDriverIfAssigned(o);
      if !TransitionOk(orders[o].status, from, to, manualOverride) {
        drivers, available, trucks, tanks := drivers0, available0, trucks0, tanks0;  // the transaction aborts
        return Some(InvalidTransition);
      }
      orders := orders[o := orders[o].(status := to)];
      return None;
    }

    method ReassignVehicle(o: OrderId, truck: Id, tank: Id) returns (refusal: Option<Refusal>)
      modifies this
      ensures match Reassign(old(Stored()), o, truck, tank)
              case Committed(f) => refusal == None && Stored() == f
              case Refused(why) => refusal == Some(why) && Stored() == old(Stored())
    {
      if o !in orders { return Some(OrderNotFound); }
      var x := orders[o];
      if x.status != AssignedToDriver { return Some(AlreadyDeparted); }
      var trucks1, tanks1 := Release(trucks, x.truck, o), Release(tanks, x.tank, o);
      if !IsFree(trucks1, truck) { return Some(TruckUnavailable); }
      if !IsFree(tanks1, tank) { return Some(TankUnavailable); }
      if tank !in specs || specs[tank].capacity < x.quantity { return Some(TankCapacityExceeded); }
      if x.grade !in specs[tank].grades { return Some(TankGradeUnsupported); }
      trucks, tanks := Book(trucks1, truck, o), Book(tanks1, tank, o);
      orders := orders[o := x.(truck := Some(truck), tank := Some(tank))];
      return None;
    }
  }
}
