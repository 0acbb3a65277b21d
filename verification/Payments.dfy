/** The payment webhook (src/modules/payments/payments.service.ts) acting on orders and on the
    invoice ledger. A delivery first claims its transaction id in a unique index, then settles the
    invoice and moves the order on in one transaction. Other requests may run in between, a handler
    that dies there never comes to its second half, and the calls it makes after the commit (cancelling
    the payment timeout, notifying the client) may fail inside the same `try`. */
module Payments {
  import opened Options
  import opened OrderStates
  import opened Ledger
  import LedgerProofs

  type TxnId = string
  datatype Outcome = ConfirmedEvent | OutOfSequence | AmountMismatch | InvalidSignature
  datatype Order = Order(company: CompanyId, client: ClientId, status: OrderStatus, finalPrice: Option<nat>,
                         invoiced: bool, paidBy: Option<TxnId>)
  datatype Delivery = Delivery(txn: TxnId, order: OrderId, amount: int, currency: string, status: string, signed: bool)
  datatype Answer = Unauthorized | UnknownOrder | Duplicate | Accepted | NotAccepted

  /** A delivery whose handler has claimed the id, with the price it read, and not yet concluded. */
  datatype InFlight = InFlight(d: Delivery, price: Option<nat>)

  datatype Shop = Shop(ledger: System, orders: map<OrderId, Order>, events: map<TxnId, Outcome>,
                       inFlight: map<TxnId, InFlight>)

  /** Inserting into the unique index on the gateway transaction id. */
  function Claim(events: map<TxnId, Outcome>, t: TxnId, outcome: Outcome): map<TxnId, Outcome> {
    if t in events then events else events[t := outcome]
  }

  /** The first half of the handler: an answer at once, or the id claimed with a tentative outcome. */
  function BeginDelivery(s: Shop, d: Delivery): (Shop, Option<Answer>) {
    if !d.signed then (s.(events := Claim(s.events, d.txn, InvalidSignature)), Some(Unauthorized))
    else if d.order !in s.orders then (s, Some(UnknownOrder))
    else if d.txn in s.events then (s, Some(Duplicate))
    else (s.(events := s.events[d.txn := ConfirmedEvent],
             inFlight := s.inFlight[d.txn := InFlight(d, s.orders[d.order].finalPrice)]), None)
  }

  /** The settling transaction commits: paid in full by the price read on arrival, the invoice is there
      and the order still awaits payment. */
  predicate Commits(s: Shop, t: TxnId)
    requires t in s.inFlight
  {
    var d := s.inFlight[t].d;
    && d.status == "PAID" && d.currency == "SAR" && s.inFlight[t].price == Some(d.amount)
    && d.order in s.orders && Settle(s.ledger.book, d.order).Committed?
    && TransitionOk(s.orders[d.order].status, PendingPayment, RoutedToTransport, false)
  }

  /** The second half: settle the invoice and move the order on together, or correct the outcome.
      `callFails` says that a call made after the commit fails: its `catch` corrects the outcome too. */
  ghost function ConcludeDelivery(s: Shop, t: TxnId, callFails: bool): (Shop, Answer)
    requires t in s.inFlight
  {
    var d, left := s.inFlight[t].d, s.(inFlight := s.inFlight - {t});
    if !Commits(s, t) then
      var mismatch := d.status == "PAID" && (s.inFlight[t].price != Some(d.amount) || d.currency != "SAR");
      (left.(events := s.events[t := if mismatch then AmountMismatch else OutOfSequence]), NotAccepted)
    else
      var paid := left.(ledger := Step(s.ledger, SettleOrder(d.order)),
                        orders := s.orders[d.order := s.orders[d.order].(status := RoutedToTransport,
                                                                         paidBy := Some(t))]);
      if callFails then (paid.(events := s.events[t := OutOfSequence]), NotAccepted) else (paid, Accepted)
  }

  /** A delivery handled without interruption. */
  ghost function HandleWebhook(s: Shop, d: Delivery, callFails: bool): (Shop, Answer) {
    var (claimed, answer) := BeginDelivery(s, d);
    if answer.Some? then (claimed, answer.value) else ConcludeDelivery(claimed, d.txn, callFails)
  }

  // ---------- everything else that touches the same documents ----------

  datatype Request =
    | Arrive(d: Delivery)
    | Conclude(txn: TxnId, callFails: bool)
    | Place(o: OrderId, c: CompanyId, client: ClientId)
    | Bill(o: OrderId, pm: PaymentMethod, price: nat)
    | Advance(o: OrderId, to: OrderStatus, manualOverride: bool)
    | CancelOrder(o: OrderId)
    | SettleByHand(o: OrderId)
    | ChangeProgramme(p: Programme)
    | ChangeTerm(t: Rate)
    | ChangeCreditLimit(client: ClientId, limit: nat)

  function Moved(s: Shop, o: OrderId, to: OrderStatus): map<OrderId, Order>
    requires o in s.orders
  {
    s.orders[o := s.orders[o].(status := to)]
  }

  ghost function Serve(s: Shop, r: Request): Shop {
    match r
    case Arrive(d) => BeginDelivery(s, d).0
    case Conclude(t, callFails) => if t in s.inFlight then ConcludeDelivery(s, t, callFails).0 else s
    case Place(o, c, client) =>
      if o in s.orders then s else s.(orders := s.orders[o := Order(c, client, PendingApproval, None, false, None)])
    case Bill(o, pm, price) =>
      // Routing prices the order, asks for payment and issues the invoice in one transaction.
      if o !in s.orders || !TransitionOk(s.orders[o].status, RoutedToTransport, PendingPayment, false) then s
      else
        var order := s.orders[o];
        var issue := IssueFor(o, order.company, order.client, pm, price);
        if Respond(s.ledger.book, issue).Refused? then s
        else s.(ledger := Step(s.ledger, issue),
                orders := s.orders[o := order.(status := PendingPayment, finalPrice := Some(price), invoiced := true)])
    case Advance(o, to, manualOverride) =>
      // Every other move of the lifecycle: approval, timeout, re-opening, acceptance, delivery stages.
      if o !in s.orders || to == Cancelled || (s.orders[o].status == RoutedToTransport && to == PendingPayment)
         || !Allowed(s.orders[o].status, to, manualOverride) then s
      else s.(orders := Moved(s, o, to))
    case CancelOrder(o) =>
      if o !in s.orders || !Allowed(s.orders[o].status, Cancelled, false) then s
      else s.(ledger := if s.orders[o].invoiced then Step(s.ledger, VoidOrder(o)) else s.ledger,
              orders := Moved(s, o, Cancelled))
    case SettleByHand(o) => s.(ledger := Step(s.ledger, SettleOrder(o)))
    case ChangeProgramme(p) => s.(ledger := Step(s.ledger, SetProgramme(p)))
    case ChangeTerm(t) => s.(ledger := Step(s.ledger, SetTerm(t)))
    case ChangeCreditLimit(client, l) => s.(ledger := Step(s.ledger, SetCreditLimit(client, l)))
  }

  ghost function Run(s: Shop, requests: seq<Request>): Shop {
    if requests == [] then s else Serve(Run(s, requests[..|requests| - 1]), requests[|requests| - 1])
  }

  ghost predicate Initial(s: Shop) {
    Ledger.Initial(s.ledger) && s.orders == map[] && s.events == map[] && s.inFlight == map[]
  }

  // ---------- when a delivery is accepted ----------

  /** Everything a delivery needs to be accepted, its signature and its id apart. */
  predicate Payable(s: Shop, d: Delivery) {
    && d.order in s.orders && d.status == "PAID" && d.currency == "SAR"
    && s.orders[d.order].finalPrice == Some(d.amount) && s.orders[d.order].status == PendingPayment
    && FindInvoice(s.ledger.book.invoices, d.order).Some?
  }

  /** An arrival spends its id when it is badly signed, or names a known order. */
  predicate SpendsId(s: Shop, r: Request, t: TxnId) {
    r.Arrive? && r.d.txn == t && (!r.d.signed || r.d.order in s.orders)
  }

  ghost predicate SpentAt(s: Shop, requests: seq<Request>, t: TxnId, n: nat) {
    n < |requests| && SpendsId(Run(s, requests[..n]), requests[n], t)
  }

  /** Some earlier delivery spent the id. */
  ghost predicate Spent(s: Shop, requests: seq<Request>, t: TxnId) { exists n: nat :: SpentAt(s, requests, t, n) }

  lemma OnlyDeliveriesTouchEvents(s: Shop, r: Request)
    requires !r.Arrive? && !r.Conclude?
    ensures Serve(s, r).events == s.events && Serve(s, r).inFlight == s.inFlight
  {
  }

  /** Which ids have events, and which have handlers at work, after one more request. */
  lemma StepEvents(s: Shop, r: Request, t: TxnId)
    requires t in s.inFlight ==> t in s.events
    ensures t in Serve(s, r).events <==> t in s.events || SpendsId(s, r, t)
    ensures t in Serve(s, r).inFlight ==> t in Serve(s, r).events
  {
    if !r.Arrive? && !r.Conclude? { OnlyDeliveriesTouchEvents(s, r); }
  }

  lemma SpentGrows(s: Shop, requests: seq<Request>, t: TxnId)
    requires requests != []
    ensures var init := requests[..|requests| - 1];
            Spent(s, requests, t) <==> Spent(s, init, t) || SpendsId(Run(s, init), requests[|requests| - 1], t)
  {
    var init := requests[..|requests| - 1];
    if Spent(s, requests, t) {
      var n: nat :| SpentAt(s, requests, t, n);
      if n < |init| { assert init[..n] == requests[..n]; assert SpentAt(s, init, t, n); }
    }
    if Spent(s, init, t) {
      var n: nat :| SpentAt(s, init, t, n);
      assert init[..n] == requests[..n];
      assert SpentAt(s, requests, t, n);
    }
    if SpendsId(Run(s, init), requests[|requests| - 1], t) { assert SpentAt(s, requests, t, |init|); }
  }

  /** An id has an event, or a handler at work on it, only if it was spent. */
  lemma {:induction false} EventsAreSpentIds(s: Shop, requests: seq<Request>, t: TxnId)
    requires Initial(s)
    ensures t in Run(s, requests).events <==> Spent(s, requests, t)
    ensures t in Run(s, requests).inFlight ==> t in Run(s, requests).events
  {
    if requests != [] {
      var init := requests[..|requests| - 1];
      EventsAreSpentIds(s, init, t);
      SpentGrows(s, requests, t);
      StepEvents(Run(s, init), requests[|requests| - 1], t);
    }
  }

  /** In every reachable state a delivery is accepted if and only if it is signed, payable, no earlier
      delivery spent its id, not even one that was refused or never concluded, and no call after the
      commit fails; and a signed delivery for a known order is a duplicate if and only if one did. */
  lemma AcceptedExactlyWhen(s: Shop, requests: seq<Request>, d: Delivery, callFails: bool)
    requires Initial(s)
    ensures var now := Run(s, requests);
            var answer := HandleWebhook(now, d, callFails).1;
      && (answer.Accepted? <==> d.signed && Payable(now, d) && !Spent(s, requests, d.txn) && !callFails)
      && (answer.Duplicate? <==> d.signed && d.order in now.orders && Spent(s, requests, d.txn))
      && (answer.NotAccepted? <==>
            d.signed && d.order in now.orders && !Spent(s, requests, d.txn) && (Payable(now, d) ==> callFails))
  {
    EventsAreSpentIds(s, requests, d.txn);
  }

  /** What its event says of a delivery: a bad signature; an amount or currency that does not match, only if
      it was PAID; out of sequence for every other refusal and for a failure after the commit; confirmed, if
      and only if it was accepted or is still under way. */
  lemma EventSaysWhy(s: Shop, d: Delivery, t: TxnId, callFails: bool)
    ensures d.txn !in s.events && (!d.signed || d.order in s.orders) ==>
      var after := BeginDelivery(s, d).0;
      && d.txn in after.events
      && (after.events[d.txn] == InvalidSignature <==> !d.signed)
      && (after.events[d.txn] == ConfirmedEvent <==> d.signed)
    ensures t in s.inFlight && t in s.events && s.events[t] == ConfirmedEvent ==>
      var (after, answer) := ConcludeDelivery(s, t, callFails);
      var d, price := s.inFlight[t].d, s.inFlight[t].price;
      && t in after.events && t !in after.inFlight
      && (after.events[t] == ConfirmedEvent <==> answer == Accepted)
      && (after.events[t] == AmountMismatch <==> d.status == "PAID" && (price != Some(d.amount) || d.currency != "SAR"))
      && (after.events[t] == OutOfSequence <==>
            answer != Accepted && (d.status != "PAID" || (price == Some(d.amount) && d.currency == "SAR")))
  {
  }

  /** Neither half of a delivery rewrites another's event, and its first half moves nothing else. */
  lemma DeliveriesKeepToThemselves(s: Shop, d: Delivery, t: TxnId, callFails: bool)
    ensures BeginDelivery(s, d).0.ledger == s.ledger && BeginDelivery(s, d).0.orders == s.orders
    ensures forall u <- s.events :: u in BeginDelivery(s, d).0.events && BeginDelivery(s, d).0.events[u] == s.events[u]
    ensures t in s.inFlight ==> forall u <- s.events :: u != t ==>
      u in ConcludeDelivery(s, t, callFails).0.events && ConcludeDelivery(s, t, callFails).0.events[u] == s.events[u]
  {
  }

  // ---------- what every run keeps ----------

  /** An invoice is its order's: same company, same client, the price the order was billed at; and a void one
      belongs to a cancelled order. */
  ghost predicate InvoiceOk(s: Shop, i: nat)
    requires i < |s.ledger.book.invoices|
  {
    var inv := s.ledger.book.invoices[i];
    && inv.orderId in s.orders && s.orders[inv.orderId].invoiced
    && s.orders[inv.orderId].company == inv.company && s.orders[inv.orderId].client == inv.client
    && s.orders[inv.orderId].finalPrice == Some(inv.amount)
    && (inv.state.Void? ==> s.orders[inv.orderId].status == Cancelled)
  }

  /** An order is priced when it is billed, and then has an invoice. */
  ghost predicate OrderOk(s: Shop, o: OrderId)
    requires o in s.orders
  {
    && (s.orders[o].finalPrice.Some? <==> s.orders[o].invoiced)
    && (s.orders[o].invoiced ==> FindInvoice(s.ledger.book.invoices, o).Some?)
  }

  ghost predicate Inv(s: Shop) {
    && LedgerProofs.Inv(s.ledger) && LedgerProofs.CreditedOnce(s.ledger)
    && (forall o <- s.orders :: OrderOk(s, o))
    && forall i :: 0 <= i < |s.ledger.book.invoices| ==> InvoiceOk(s, i)
  }

  lemma LedgerStepKeeps(s: System, a: Action)
    requires LedgerProofs.Inv(s) && LedgerProofs.CreditedOnce(s)
    ensures LedgerProofs.Inv(Step(s, a)) && LedgerProofs.CreditedOnce(Step(s, a))
  {
    LedgerProofs.StepKeeps(s, a);
    LedgerProofs.StepCreditsOnce(s, a);
  }

  /** A ledger step changes no invoice but its state, voids only the one named, and issues only the one
      named, for an order that had none. */
  lemma LedgerStepInvoices(s: System, a: Action)
    ensures var was, now := s.book.invoices, Step(s, a).book.invoices;
      && |was| <= |now|
      && (forall i :: 0 <= i < |was| ==>
            && now[i] == was[i].(state := now[i].state)
            && (now[i].state.Void? ==> was[i].state.Void? || (a.VoidOrder? && was[i].orderId == a.o)))
      && (forall i :: |was| <= i < |now| ==>
            a.IssueFor? && now[i] == Invoice(a.o, a.c, a.client, a.pm, a.amount, Issued))
  {
  }

  /** The one ledger action a request performs, if any. */
  ghost function LedgerPart(s: Shop, r: Request): Option<Action> {
    match r
    case Conclude(t, _) => if t in s.inFlight && Commits(s, t) then Some(SettleOrder(s.inFlight[t].d.order)) else None
    case Bill(o, pm, price) =>
      if Serve(s, r) == s then None
      else if o in s.orders then Some(IssueFor(o, s.orders[o].company, s.orders[o].client, pm, price)) else None
    case CancelOrder(o) =>
      if o in s.orders && Allowed(s.orders[o].status, Cancelled, false) && s.orders[o].invoiced
      then Some(VoidOrder(o))
      else None
    case SettleByHand(o) => Some(SettleOrder(o))
    case ChangeProgramme(p) => Some(SetProgramme(p))
    case ChangeTerm(t) => Some(SetTerm(t))
    case ChangeCreditLimit(client, l) => Some(SetCreditLimit(client, l))
    case _ => None
  }

  lemma ServeStepsLedger(s: Shop, r: Request)
    ensures Serve(s, r).ledger == match LedgerPart(s, r) case Some(a) => Step(s.ledger, a) case None => s.ledger
  {
  }

  ghost predicate IssuesFor(s: Shop, r: Request, o: OrderId) {
    LedgerPart(s, r).Some? && LedgerPart(s, r).value.IssueFor? && LedgerPart(s, r).value.o == o
  }

  ghost predicate VoidsFor(s: Shop, r: Request, o: OrderId) {
    LedgerPart(s, r).Some? && LedgerPart(s, r).value.VoidOrder? && LedgerPart(s, r).value.o == o
  }

  /** Orders are never dropped, never change hands, are never un-invoiced, keep their price, and never leave
      CANCELLED, except that a request that issues an invoice prices and invoices its order. */
  lemma OrderKeeps(s: Shop, r: Request, o: OrderId)
    requires o in s.orders
    ensures o in Serve(s, r).orders
    ensures var was, now := s.orders[o], Serve(s, r).orders[o];
      && now.company == was.company && now.client == was.client
      && (was.invoiced ==> now.invoiced) && (was.status == Cancelled ==> now.status == Cancelled)
      && (!IssuesFor(s, r, o) ==> now.finalPrice == was.finalPrice && now.invoiced == was.invoiced)
      && (VoidsFor(s, r, o) ==> now.status == Cancelled)
  {
  }

  /** An invoice is issued for an order that has none, with the order's company and client at its new price. */
  lemma IssueIsTheOrders(s: Shop, r: Request, o: OrderId)
    requires IssuesFor(s, r, o)
    ensures FindInvoice(s.ledger.book.invoices, o).None? && o in s.orders
    ensures Respond(s.ledger.book, LedgerPart(s, r).value).Committed?
    ensures var a, now := LedgerPart(s, r).value, Serve(s, r).orders;
      && o in now && now[o].invoiced && now[o].finalPrice == Some(a.amount)
      && now[o].company == a.c && now[o].client == a.client
  {
  }

  lemma NewOrdersAreBlank(s: Shop, r: Request, o: OrderId)
    requires o !in s.orders && o in Serve(s, r).orders
    ensures !Serve(s, r).orders[o].invoiced && Serve(s, r).orders[o].finalPrice.None?
  {
  }

  lemma LedgerPartInvoices(s: Shop, r: Request)
    ensures var was, now := s.ledger.book.invoices, Serve(s, r).ledger.book.invoices;
      && |was| <= |now|
      && (forall i :: 0 <= i < |was| ==>
            && now[i] == was[i].(state := now[i].state)
            && (now[i].state.Void? ==> was[i].state.Void? || VoidsFor(s, r, was[i].orderId)))
      && (forall i :: |was| <= i < |now| ==>
            && IssuesFor(s, r, now[i].orderId)
            && var a := LedgerPart(s, r).value;
               now[i] == Invoice(a.o, a.c, a.client, a.pm, a.amount, Issued))
  {
    ServeStepsLedger(s, r);
    if LedgerPart(s, r).Some? { LedgerStepInvoices(s.ledger, LedgerPart(s, r).value); }
  }

  /** The invoice of an order is found as long as there is one. */
  lemma IsFound(invoices: seq<Invoice>, i: nat, o: OrderId)
    requires i < |invoices| && invoices[i].orderId == o
    ensures FindInvoice(invoices, o).Some?
  {
  }

  lemma InvoicesStayOk(s: Shop, r: Request, i: nat)
    requires Inv(s) && i < |Serve(s, r).ledger.book.invoices|
    ensures InvoiceOk(Serve(s, r), i)
  {
    LedgerPartInvoices(s, r);
    if i < |s.ledger.book.invoices| {
      var o := s.ledger.book.invoices[i].orderId;
      assert InvoiceOk(s, i);
      IsFound(s.ledger.book.invoices, i, o);
      OrderKeeps(s, r, o);
      if IssuesFor(s, r, o) { IssueIsTheOrders(s, r, o); }
    } else {
      IssueIsTheOrders(s, r, Serve(s, r).ledger.book.invoices[i].orderId);
    }
  }

  lemma OrdersStayOk(s: Shop, r: Request, o: OrderId)
    requires Inv(s) && o in Serve(s, r).orders
    ensures OrderOk(Serve(s, r), o)
  {
    var was, now := s.ledger.book.invoices, Serve(s, r).ledger.book.invoices;
    LedgerPartInvoices(s, r);
    if IssuesFor(s, r, o) {
      IssueIsTheOrders(s, r, o);
      ServeStepsLedger(s, r);
      IsFound(now, |was|, o);
    } else if o in s.orders {
      OrderKeeps(s, r, o);
      assert OrderOk(s, o);
      if s.orders[o].invoiced { IsFound(now, FindInvoice(was, o).value, o); }
    } else {
      NewOrdersAreBlank(s, r, o);
    }
  }

  lemma ServeKeeps(s: Shop, r: Request)
    requires Inv(s)
    ensures Inv(Serve(s, r))
  {
    var t := Serve(s, r);
    ServeStepsLedger(s, r);
    if LedgerPart(s, r).Some? { LedgerStepKeeps(s.ledger, LedgerPart(s, r).value); }
    forall i | 0 <= i < |t.ledger.book.invoices| ensures InvoiceOk(t, i) { InvoicesStayOk(s, r, i); }
    forall o <- t.orders ensures OrderOk(t, o) { OrdersStayOk(s, r, o); }
  }

  lemma {:induction false} RunKeeps(s: Shop, requests: seq<Request>)
    requires Initial(s)
    ensures Inv(Run(s, requests))
  {
    if requests == [] {
      LedgerProofs.InitialInv(s.ledger);
    } else {
      RunKeeps(s, requests[..|requests| - 1]);
      ServeKeeps(Run(s, requests[..|requests| - 1]), requests[|requests| - 1]);
    }
  }

  /** Over every run an order is billed if and only if it has an invoice, and then the invoice is made out by
      its company to its client for the price it was billed at. */
  lemma OrdersAndInvoicesAgree(s: Shop, requests: seq<Request>, o: OrderId)
    requires Initial(s) && o in Run(s, requests).orders
    ensures var t := Run(s, requests);
            var found := FindInvoice(t.ledger.book.invoices, o);
      && (t.orders[o].invoiced <==> found.Some?)
      && (found.Some? ==>
            var inv, x := t.ledger.book.invoices[found.value], t.orders[o];
            inv.orderId == o && inv.company == x.company && inv.client == x.client && x.finalPrice == Some(inv.amount))
  {
    RunKeeps(s, requests);
    var t := Run(s, requests);
    assert OrderOk(t, o);
    match FindInvoice(t.ledger.book.invoices, o) {
      case Some(i) => assert InvoiceOk(t, i);
      case None =>
    }
  }

  /** A request moves an order only along an edge of the lifecycle, asks a routed one for payment only by
      billing it, and cancels one only as a cancellation, which then has an edge to follow. */
  lemma StatusesFollowTheTable(s: Shop, r: Request, o: OrderId)
    requires o in s.orders
    ensures o in Serve(s, r).orders
    ensures var was, now := s.orders[o].status, Serve(s, r).orders[o].status;
      && (now != was ==> Allowed(was, now, true))
      && (was == RoutedToTransport && now == PendingPayment ==> IssuesFor(s, r, o))
      && (now == Cancelled && was != Cancelled ==> r == CancelOrder(o))
      && (r == CancelOrder(o) && Allowed(was, Cancelled, false) ==> now == Cancelled)
      && (r.Advance? && r.o == o && Allowed(was, r.to, r.manualOverride) && r.to != Cancelled
          && (was != RoutedToTransport || r.to != PendingPayment) ==>
            now == r.to)
  {
  }

  /** Delivery `t` took its order out of PENDING_PAYMENT and left its invoice settled, and touched no
      other order. */
  ghost predicate PaidFor(before: Shop, t: TxnId, after: Shop)
    requires t in before.inFlight
  {
    var o := before.inFlight[t].d.order;
    var found := FindInvoice(after.ledger.book.invoices, o);
    && o in before.orders && before.orders[o].status == PendingPayment
    && o in after.orders && after.orders == before.orders[o := after.orders[o]]
    && after.orders[o].status == RoutedToTransport && after.orders[o].paidBy == Some(t)
    && found.Some? && after.ledger.book.invoices[found.value].state.Settled?
  }

  /** In every reachable state, whatever ran since the id was claimed, a delivery that commits moves
      its order on and settles its invoice in the same step; so does, then, every accepted one. */
  lemma CommittedDeliverySettles(s: Shop, requests: seq<Request>, t: TxnId, callFails: bool)
    requires Initial(s) && t in Run(s, requests).inFlight && Commits(Run(s, requests), t)
    ensures PaidFor(Run(s, requests), t, ConcludeDelivery(Run(s, requests), t, callFails).0)
  {
    var before := Run(s, requests);
    var o := before.inFlight[t].d.order;
    RunKeeps(s, requests);
    var i := FindInvoice(before.ledger.book.invoices, o).value;
    assert InvoiceOk(before, i);
    FindAfterSettle(before.ledger.book.invoices, i, o);
  }

  /** A price read when a delivery arrived still stands. */
  ghost predicate PriceStands(s: Shop, t: TxnId)
    requires t in s.inFlight
  {
    var o, price := s.inFlight[t].d.order, s.inFlight[t].price;
    price.Some? ==> o in s.orders && s.orders[o].invoiced && s.orders[o].finalPrice == price
  }

  lemma StepPriceStands(s: Shop, r: Request, t: TxnId)
    requires Inv(s) && t in Serve(s, r).inFlight && (t in s.inFlight ==> PriceStands(s, t))
    ensures PriceStands(Serve(s, r), t)
  {
    var entry := Serve(s, r).inFlight[t];
    if t in s.inFlight && entry == s.inFlight[t] {
      if entry.price.Some? {
        assert OrderOk(s, entry.d.order);
        OrderKeeps(s, r, entry.d.order);
        if IssuesFor(s, r, entry.d.order) { IssueIsTheOrders(s, r, entry.d.order); }
      }
    } else {
      ArrivalReadsPrice(s, r, t);
      assert OrderOk(s, r.d.order);
    }
  }

  /** Only an arrival starts a handler, and it reads the price its order has. */
  lemma ArrivalReadsPrice(s: Shop, r: Request, t: TxnId)
    requires t in Serve(s, r).inFlight && (t in s.inFlight ==> Serve(s, r).inFlight[t] != s.inFlight[t])
    ensures r.Arrive? && r.d.txn == t && r.d.order in s.orders && Serve(s, r).orders == s.orders
    ensures Serve(s, r).inFlight[t] == InFlight(r.d, s.orders[r.d.order].finalPrice)
  {
    if !r.Arrive? && !r.Conclude? { OnlyDeliveriesTouchEvents(s, r); }
  }

  lemma {:induction false} PricesStand(s: Shop, requests: seq<Request>, t: TxnId)
    requires Initial(s) && t in Run(s, requests).inFlight
    ensures PriceStands(Run(s, requests), t)
  {
    if requests != [] {
      var init, r := requests[..|requests| - 1], requests[|requests| - 1];
      RunKeeps(s, init);
      if t in Run(s, init).inFlight { PricesStand(s, init, t); }
      StepPriceStands(Run(s, init), r, t);
    }
  }

  /** In every reachable state a delivery that commits pays exactly what its order's invoice is for, whatever
      ran since it arrived. */
  lemma CommittedDeliveryPaysInFull(s: Shop, requests: seq<Request>, t: TxnId)
    requires Initial(s) && t in Run(s, requests).inFlight && Commits(Run(s, requests), t)
    ensures var now := Run(s, requests);
            var found := FindInvoice(now.ledger.book.invoices, now.inFlight[t].d.order);
            found.Some? && now.ledger.book.invoices[found.value].amount == now.inFlight[t].d.amount
  {
    PricesStand(s, requests, t);
    OrdersAndInvoicesAgree(s, requests, Run(s, requests).inFlight[t].d.order);
  }

  /** In every reachable state a delivery answered as accepted has been paid for; one answered as not
      accepted has moved no order, no invoice and no money, except exactly when it committed and a call
      after the commit failed: then it too has been paid for, under an event that reads OUT_OF_SEQUENCE. */
  lemma RefusedDeliveryMovesExactlyWhen(s: Shop, requests: seq<Request>, t: TxnId, callFails: bool)
    requires Initial(s) && t in Run(s, requests).inFlight
    ensures var before := Run(s, requests);
            var (after, answer) := ConcludeDelivery(before, t, callFails);
      && (answer.Accepted? ==> PaidFor(before, t, after))
      && (answer.NotAccepted? ==>
            && (PaidFor(before, t, after) <==> Commits(before, t) && callFails)
            && (after.orders != before.orders <==> Commits(before, t) && callFails)
            && (!PaidFor(before, t, after) ==> after.ledger == before.ledger && after.orders == before.orders)
            && (PaidFor(before, t, after) ==> t in after.events && after.events[t].OutOfSequence?))
  {
    var before := Run(s, requests);
    var o := before.inFlight[t].d.order;
    if Commits(before, t) {
      CommittedDeliverySettles(s, requests, t, callFails);
      assert o in before.orders && before.orders[o].status == PendingPayment;
    }
  }

  lemma {:induction false} FindAfterSettle(invoices: seq<Invoice>, i: nat, o: OrderId)
    requires FindInvoice(invoices, o) == Some(i)
    ensures FindInvoice(invoices[i := invoices[i].(state := Settled)], o) == Some(i)
  {
    var after := invoices[i := invoices[i].(state := Settled)];
    if i < |invoices| - 1 {
      FindAfterSettle(invoices[..|invoices| - 1], i, o);
      assert after[..|invoices| - 1] == invoices[..|invoices| - 1][i := invoices[i].(state := Settled)];
    }
  }

  /** The request concludes this delivery, and its transaction commits. */
  ghost predicate Settles(s: Shop, r: Request, t: TxnId) {
    r.Conclude? && r.txn == t && t in s.inFlight && Commits(s, t)
  }

  /** How many deliveries under a transaction id settled over a run. */
  ghost function TimesSettled(s: Shop, requests: seq<Request>, t: TxnId): nat {
    if requests == [] then 0
    else
      var before := requests[..|requests| - 1];
      TimesSettled(s, before, t) + (if Settles(Run(s, before), requests[|requests| - 1], t) then 1 else 0)
  }

  /** How many of them were then reported as out of sequence. */
  ghost function TimesMisreported(s: Shop, requests: seq<Request>, t: TxnId): nat {
    if requests == [] then 0
    else
      var before, r := requests[..|requests| - 1], requests[|requests| - 1];
      TimesMisreported(s, before, t) + (if Settles(Run(s, before), r, t) && r.callFails then 1 else 0)
  }

  ghost function ReadsConfirmed(s: Shop, t: TxnId): nat {
    if t in s.events && s.events[t].ConfirmedEvent? then 1 else 0
  }
  ghost function AtWork(s: Shop, t: TxnId): nat { if t in s.inFlight then 1 else 0 }
  ghost function HasEvent(s: Shop, t: TxnId): nat { if t in s.events then 1 else 0 }

  lemma StepConfirmed(s: Shop, r: Request, t: TxnId)
    requires AtWork(s, t) <= ReadsConfirmed(s, t)
    ensures ReadsConfirmed(Serve(s, r), t) - AtWork(Serve(s, r), t)
         == ReadsConfirmed(s, t) - AtWork(s, t) + (if Settles(s, r, t) && !r.callFails then 1 else 0)
    ensures HasEvent(Serve(s, r), t) - AtWork(Serve(s, r), t)
         >= HasEvent(s, t) - AtWork(s, t) + (if Settles(s, r, t) then 1 else 0)
  {
    if !r.Arrive? && !r.Conclude? { OnlyDeliveriesTouchEvents(s, r); }
  }

  /** A transaction id settles at most once, and not while a handler is still at work on it. Its event
      reads CONFIRMED exactly when it settled, or the handler that claimed it is at work or died before
      concluding, except for a settlement misreported because a later call failed. */
  lemma {:induction false} TransactionSettlesAtMostOnce(s: Shop, requests: seq<Request>, t: TxnId)
    requires Initial(s)
    ensures TimesSettled(s, requests, t) + AtWork(Run(s, requests), t) <= HasEvent(Run(s, requests), t) <= 1
    ensures TimesSettled(s, requests, t) + AtWork(Run(s, requests), t)
         == ReadsConfirmed(Run(s, requests), t) + TimesMisreported(s, requests, t)
  {
    if requests != [] {
      var init := requests[..|requests| - 1];
      TransactionSettlesAtMostOnce(s, init, t);
      MisreportedSettled(s, init, t);
      StepConfirmed(Run(s, init), requests[|requests| - 1], t);
    }
  }

  lemma {:induction false} MisreportedSettled(s: Shop, requests: seq<Request>, t: TxnId)
    ensures TimesMisreported(s, requests, t) <= TimesSettled(s, requests, t)
  {
    if requests != [] { MisreportedSettled(s, requests[..|requests| - 1], t); }
  }

  /** Over every run an invoice is credited cashback at most once, and nothing it was credited is reversed. */
  lemma InvoiceCreditedAtMostOnce(s: Shop, requests: seq<Request>)
    requires Initial(s)
    ensures LedgerProofs.CreditedOnce(Run(s, requests).ledger)
  {
    RunKeeps(s, requests);
  }

  // ---------- an id spent without a payment, and a payment reported as refused ----------

  lemma RunPush(s: Shop, requests: seq<Request>, r: Request)
    ensures Run(s, requests + [r]) == Serve(Run(s, requests), r)
  {
    assert (requests + [r])[..|requests|] == requests;
  }

  /** Order 1 is placed, approved and routed, then billed at 100. */
  const ROUTED_RUN: seq<Request> := [Place(1, 7, 9), Advance(1, Approved, false), Advance(1, RoutedToTransport, false)]
  const BILLED_RUN: seq<Request> := ROUTED_RUN + [Bill(1, Direct, 100)]

  function Unpriced(status: OrderStatus): Order { Order(7, 9, status, None, false, None) }

  lemma ReachesRouted(s: Shop)
    requires Initial(s)
    ensures Run(s, ROUTED_RUN) == s.(orders := map[1 := Unpriced(RoutedToTransport)])
  {
    var place, approve, route := Place(1, 7, 9), Advance(1, Approved, false), Advance(1, RoutedToTransport, false);
    assert ROUTED_RUN[..2] == [place, approve] && [place, approve][..1] == [place] && [place][..0] == [];
    var placed, approved := s.(orders := map[1 := Unpriced(PendingApproval)]),
        s.(orders := map[1 := Unpriced(Approved)]);
    assert Run(s, [place]) == Serve(s, place) == placed;
    assert Run(s, [place, approve]) == Serve(placed, approve) == approved;
    assert Serve(approved, route).orders == map[1 := Unpriced(RoutedToTransport)];
  }

  lemma ReachesBilled(s: Shop)
    requires Initial(s)
    ensures var now := Run(s, BILLED_RUN);
      && now.orders == map[1 := Order(7, 9, PendingPayment, Some(100), true, None)] && now.events == map[]
      && now.inFlight == map[]
      && now.ledger.book.invoices == [Invoice(1, 7, 9, Direct, 100, Issued)]
  {
    ReachesRouted(s);
    RunPush(s, ROUTED_RUN, Bill(1, Direct, 100));
    assert FindInvoice(s.ledger.book.invoices, 1).None?;
  }

  /** A badly signed delivery, or a good one whose handler dies after claiming, spends its id: the
      next signed and payable delivery under that id is answered as a duplicate, with its order still
      awaiting payment and its invoice still issued. */
  lemma IdSpentWithoutPayment(s: Shop, t: TxnId, signed: bool)
    requires Initial(s)
    ensures var good := Delivery(t, 1, 100, "SAR", "PAID", true);
            var now := Run(s, BILLED_RUN + [Arrive(good.(signed := signed))]);
      && Payable(now, good) && HandleWebhook(now, good, false) == (now, Duplicate)
      && now.orders[1].status == PendingPayment && now.orders[1].paidBy.None?
      && now.ledger.book.invoices == [Invoice(1, 7, 9, Direct, 100, Issued)]
  {
    ReachesBilled(s);
    RunPush(s, BILLED_RUN, Arrive(Delivery(t, 1, 100, "SAR", "PAID", signed)));
  }

  /** A good delivery whose handler fails after the commit is answered as not accepted, with its order
      moved on and its invoice settled, and every later delivery under its id is a duplicate. */
  lemma SettledButReportedRefused(s: Shop, t: TxnId)
    requires Initial(s)
    ensures var good := Delivery(t, 1, 100, "SAR", "PAID", true);
            var claimed := Run(s, BILLED_RUN + [Arrive(good)]);
            var now := Run(s, BILLED_RUN + [Arrive(good)] + [Conclude(t, true)]);
      && t in claimed.inFlight && ConcludeDelivery(claimed, t, true) == (now, NotAccepted)
      && now.orders == map[1 := Order(7, 9, RoutedToTransport, Some(100), true, Some(t))]
      && now.ledger.book.invoices == [Invoice(1, 7, 9, Direct, 100, Ledger.Settled)]
      && now.events == map[t := OutOfSequence] && HandleWebhook(now, good, false) == (now, Duplicate)
  {
    var good := Delivery(t, 1, 100, "SAR", "PAID", true);
    ReachesBilled(s);
    RunPush(s, BILLED_RUN, Arrive(good));
    RunPush(s, BILLED_RUN + [Arrive(good)], Conclude(t, true));
    var claimed := Run(s, BILLED_RUN + [Arrive(good)]);
    assert claimed.inFlight == map[t := InFlight(good, Some(100))];
    assert FindInvoice(claimed.ledger.book.invoices, 1) == Some(0);
    assert Commits(claimed, t);
  }

  // ---------- the service object ----------

  class PaymentsService {
    var book: Book
    var orders: map<OrderId, Order>
    var events: map<TxnId, Outcome>

    /** The handler step by step: claim the id, check the payload, settle and move on together, then make
        the calls that may still fail. */
    method Handle(d: Delivery, callFails: bool, ghost audit: seq<Line>) returns (answer: Answer)
      modifies this
      ensures var before := Shop(System(old(book), audit), old(orders), old(events), map[]);
              var (after, expected) := HandleWebhook(before, d, callFails);
              answer == expected && book == after.ledger.book && orders == after.orders && events == after.events
    {
      if !d.signed {
        if d.txn !in events { events := events[d.txn := InvalidSignature]; }
        return Unauthorized;
      }
      if d.order !in orders { return UnknownOrder; }
      var order := orders[d.order];
      if d.txn in events { return Duplicate; }
      events := events[d.txn := ConfirmedEvent];  // tentative; corrected below
      if d.status != "PAID" {
        MarkOutcome(d.txn, OutOfSequence);
        return NotAccepted;
      }
      if Some(d.amount) != order.finalPrice || d.currency != "SAR" {
        MarkOutcome(d.txn, AmountMismatch);
        return NotAccepted;
      }
      var settled := Settle(book, d.order);
      if settled.Refused? || order.status != PendingPayment {
        MarkOutcome(d.txn, OutOfSequence);
        return NotAccepted;
      }
      book := settled.book;
      orders := orders[d.order := order.(status := RoutedToTransport, paidBy := Some(d.txn))];
      if callFails {
        MarkOutcome(d.txn, OutOfSequence);
        return NotAccepted;
      }
      return Accepted;
    }

    method MarkOutcome(t: TxnId, outcome: Outcome)
      modifies this`events
      ensures events == old(events)[t := outcome]
    {
      events := events[t := outcome];
    }
  }
}
