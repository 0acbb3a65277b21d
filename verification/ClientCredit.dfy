/** A client's available credit (src/modules/invoices/invoices.service.ts, `getAvailableCredit`): derived
    from the CREDIT invoices still ISSUED, so what settles or voids one gives its credit back. */
module ClientCredit {
  import opened Options
  import opened Sums
  import opened Ledger

  /** What the invoice ties up of the client's credit. */
  function Ties(i: Invoice, client: ClientId): nat {
    match i.state
    case Issued => if i.client == client && i.paymentMethod == Credit then i.amount else 0
    case Settled => 0
    case Void => 0
  }

  lemma {:induction false} OutstandingIsTied(invoices: seq<Invoice>, client: ClientId)
    ensures Sum(invoices, CreditWeight(client)) == Sum(invoices, (i: Invoice) => Ties(i, client))
  {
    if invoices != [] { OutstandingIsTied(invoices[..|invoices| - 1], client); }
  }

  /** Moving one invoice on changes the credit by the difference of what it ties up. */
  lemma CreditMoves(b: Book, i: nat, state: InvoiceState, client: ClientId, later: Book)
    requires i < |b.invoices| && client in b.creditLimits && later.creditLimits == b.creditLimits
    requires later.invoices == b.invoices[i := b.invoices[i].(state := state)]
    ensures AvailableCredit(later, client)
         == AvailableCredit(b, client) + Ties(b.invoices[i], client) - Ties(b.invoices[i].(state := state), client)
  {
    SumUpdate(b.invoices, i, b.invoices[i].(state := state), CreditWeight(client));
  }

  /** Settling an invoice gives back exactly what it tied up: the amount of an ISSUED CREDIT invoice of this
      client, and nothing otherwise. */
  lemma SettlingGivesBack(b: Book, i: nat, client: ClientId)
    requires i < |b.invoices| && client in b.creditLimits
    ensures AvailableCredit(ApplySettlement(b, i), client) == AvailableCredit(b, client) + Ties(b.invoices[i], client)
  {
    if b.invoices[i].state.Issued? { CreditMoves(b, i, Settled, client, ApplySettlement(b, i)); }
  }

  /** So does voiding the invoice of a cancelled order. */
  lemma VoidingGivesBack(b: Book, o: OrderId, client: ClientId)
    requires client in b.creditLimits
    ensures AvailableCredit(VoidInvoice(b, o), client) == AvailableCredit(b, client)
      + match FindInvoice(b.invoices, o) case None => 0 case Some(i) => Ties(b.invoices[i], client)
  {
    match FindInvoice(b.invoices, o) {
      case None =>
      case Some(i) => if b.invoices[i].state.Issued? { CreditMoves(b, i, Void, client, VoidInvoice(b, o)); }
    }
  }

  lemma IssuingTakes(b: Book, o: OrderId, c: CompanyId, payer: ClientId, pm: PaymentMethod, amount: nat,
                     client: ClientId)
    requires client in b.creditLimits && Issue(b, o, c, payer, pm, amount).Committed?
    ensures AvailableCredit(Issue(b, o, c, payer, pm, amount).book, client)
         == AvailableCredit(b, client) - (if pm == Credit && payer == client then amount else 0)
  {
    SumPush(b.invoices, Invoice(o, c, payer, pm, amount, Issued), CreditWeight(client));
  }

  /** How a request moves a client's available credit. */
  ghost function CreditMove(b: Book, a: Action, client: ClientId): int
    requires client in b.creditLimits
  {
    match a
    case IssueFor(_, _, payer, pm, amount) => if pm == Credit && payer == client then -(amount as int) else 0
    case SettleOrder(o) => (match FindInvoice(b.invoices, o) case None => 0 case Some(i) => Ties(b.invoices[i], client))
    case VoidOrder(o) => (match FindInvoice(b.invoices, o) case None => 0 case Some(i) => Ties(b.invoices[i], client))
    case SetCreditLimit(other, limit) => if other == client then limit - b.creditLimits[client] else 0
    case _ => 0
  }

  /** A committed request moves available credit by exactly that: a credit order takes its amount, settling
      or voiding gives it back, a new limit moves it by the difference, and nothing else touches it. */
  lemma StepMovesCredit(s: System, a: Action, client: ClientId)
    requires client in s.book.creditLimits
    ensures client in Step(s, a).book.creditLimits
    ensures AvailableCredit(Step(s, a).book, client) == AvailableCredit(s.book, client)
      + (if Respond(s.book, a).Committed? then CreditMove(s.book, a, client) else 0)
  {
    if Respond(s.book, a).Committed? {
      match a {
        case IssueFor(o, c, payer, pm, amount) => IssuingTakes(s.book, o, c, payer, pm, amount, client);
        case SettleOrder(o) => SettlingGivesBack(s.book, FindInvoice(s.book.invoices, o).value, client);
        case VoidOrder(o) => VoidingGivesBack(s.book, o, client);
        case _ =>
      }
    }
  }

  /** A client has its whole limit available if and only if none of its CREDIT invoices is still ISSUED for
      an amount. */
  lemma WholeLimitAvailableExactlyWhen(b: Book, client: ClientId)
    requires client in b.creditLimits
    ensures AvailableCredit(b, client) == b.creditLimits[client] <==>
      forall i <- b.invoices :: i.client == client && i.paymentMethod == Credit && i.state == Issued ==> i.amount == 0
  {
    var f := CreditWeight(client);
    if forall i <- b.invoices ::
         i.client == client && i.paymentMethod == Credit && i.state == Issued ==> i.amount == 0 {
      forall i <- b.invoices ensures f(i) == 0 {}
      SumZero(b.invoices, f);
    } else {
      var i :| i in b.invoices && i.client == client && i.paymentMethod == Credit && i.state == Issued && i.amount > 0;
      var k :| 0 <= k < |b.invoices| && b.invoices[k] == i;
      forall x <- b.invoices ensures f(x) >= 0 {}
      SumAtLeastTerm(b.invoices, k, f);
    }
  }
}
