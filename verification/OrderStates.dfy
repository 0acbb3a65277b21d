/** The order lifecycle: the transition table and its compare-and-set
    (src/modules/orders/services/order-state.service.ts). */
module OrderStates {
  datatype OrderStatus =
    | PendingApproval | Approved | AwaitingRouting | RoutedToTransport | AssignedToDriver | PendingPayment
    | Loading | InTransit | Unloading | Delivered | Rejected | Cancelled

  predicate Allowed(from: OrderStatus, to: OrderStatus, manualOverride: bool) {
    match from
    case PendingApproval => to in {Approved, Rejected, Cancelled}
    case Approved => to in {PendingPayment, AwaitingRouting, RoutedToTransport, Cancelled}
    case AwaitingRouting => to in {RoutedToTransport, Cancelled}
    case RoutedToTransport => to in {AssignedToDriver, PendingPayment, Cancelled}
    case AssignedToDriver => to in {Loading, Cancelled}
    case PendingPayment => to in {RoutedToTransport, Approved, Cancelled}
    case Loading => to in {InTransit, Cancelled} || (to == Delivered && manualOverride)
    case InTransit => to == Unloading || (to == Delivered && manualOverride)
    case Unloading => to == Delivered
    case Delivered => false
    case Rejected => false
    case Cancelled => false
  }

  /** The table read the other way, by what leads into each status. Nothing leads back to the start, nothing
      leaves a finished order, and only an override skips a delivery stage. */
  lemma EdgesInto(from: OrderStatus, manualOverride: bool)
    ensures !Allowed(from, PendingApproval, manualOverride)
    ensures Allowed(from, Approved, manualOverride) <==> from == PendingApproval || from == PendingPayment
    ensures Allowed(from, Rejected, manualOverride) <==> from == PendingApproval
    ensures Allowed(from, AwaitingRouting, manualOverride) <==> from == Approved
    ensures Allowed(from, PendingPayment, manualOverride) <==> from == Approved || from == RoutedToTransport
    ensures Allowed(from, RoutedToTransport, manualOverride)
       <==> from == Approved || from == AwaitingRouting || from == PendingPayment
    ensures Allowed(from, AssignedToDriver, manualOverride) <==> from == RoutedToTransport
    ensures Allowed(from, Loading, manualOverride) <==> from == AssignedToDriver
    ensures Allowed(from, InTransit, manualOverride) <==> from == Loading
    ensures Allowed(from, Unloading, manualOverride) <==> from == InTransit
    ensures Allowed(from, Delivered, manualOverride)
       <==> from == Unloading || (manualOverride && (from == Loading || from == InTransit))
    ensures Allowed(from, Cancelled, manualOverride)
       <==> from !in {InTransit, Unloading, Delivered, Rejected, Cancelled}
  {
  }

  /** `transition`: refuses an edge the table lacks and an order no longer in the expected status. */
  predicate TransitionOk(current: OrderStatus, from: OrderStatus, to: OrderStatus, manualOverride: bool) {
    Allowed(from, to, manualOverride) && current == from
  }

  /** A booked driver, truck and tank are out on this order. */
  predicate IsLiveDelivery(s: OrderStatus) { s in {AssignedToDriver, Loading, InTransit, Unloading} }

  /** An order becomes a live delivery by being assigned, and stays one until it is delivered or cancelled. */
  lemma LiveUntilFinished(from: OrderStatus, to: OrderStatus, manualOverride: bool)
    requires Allowed(from, to, manualOverride)
    ensures IsLiveDelivery(to) <==>
      to == AssignedToDriver || (IsLiveDelivery(from) && to != Delivered && to != Cancelled)
  {
  }
}
