/** Invoices, the append-only platform account and the balances derived from it.
    Models src/modules/invoices/invoices.service.ts, src/modules/billing/billing.service.ts and
    src/modules/platform-account/platform-account.service.ts as functions on the stored documents.
    Amounts are halalas. An invoice is identified by its position in `invoices`, a movement by its
    position in `movements`: neither list ever shrinks. */
module Ledger {
  import opened Options
  import opened Rounding
  import opened Sums

  type CompanyId = nat
  type ClientId = nat
  type OrderId = nat

  datatype PaymentMethod = Direct | Deferred | Credit
  datatype InvoiceState = Issued | Settled | Void
  datatype Invoice = Invoice(
    orderId: OrderId, company: CompanyId, client: ClientId, paymentMethod: PaymentMethod, amount: nat,
    state: InvoiceState)

  datatype Kind = CommissionCharged | CashbackCredited | PaymentRecorded | CashbackPaidOut
  datatype MovementState = Recorded | Confirmed
  datatype Movement = Movement(
    company: CompanyId, kind: Kind, amount: nat, state: MovementState,
    source: Option<nat>, reversalOf: Option<nat>, reference: Option<string>)

  datatype Basis = Percentage | PerUnit
  datatype Rate = Rate(basis: Basis, rate: real)
  datatype Programme = Programme(rate: Rate, isActive: bool, targetsAllCompanies: bool, targets: set<CompanyId>)

  datatype Book = Book(
    invoices: seq<Invoice>,
    movements: seq<Movement>,
    commissionTerm: Option<Rate>,
    cashbackProgramme: Option<Programme>,
    ceilings: map<CompanyId, nat>,
    defaultCeiling: nat,
    creditLimits: map<ClientId, nat>)

  datatype Refusal =
    | ClientNotFound | CreditLimitExceeded | CommissionCeilingExceeded | AlreadyInvoiced | InvoiceNotFound
    | PaymentEvidenceRequired | PaymentAlreadyConfirmed | PayoutExceedsBalance | PayoutDuplicateReference

  /** What a transaction leaves behind: a committed book, or nothing at all. */
  datatype Reply = Committed(book: Book) | Refused(why: Refusal)

  // ---------- derived balances ----------

  function Signed(c: CompanyId, k: Kind): Movement -> int {
    (m: Movement) =>
      if m.company == c && m.kind == k && m.state.Confirmed? then
        if m.reversalOf.Some? then -(m.amount as int) else m.amount
      else 0
  }

  ghost function ConfirmedBalance(movements: seq<Movement>, c: CompanyId, k: Kind): int {
    Sum(movements, Signed(c, k))
  }

  ghost function CashbackOwed(movements: seq<Movement>, c: CompanyId): int {
    ConfirmedBalance(movements, c, CashbackCredited) - ConfirmedBalance(movements, c, CashbackPaidOut)
  }

  ghost function NetCommissionOwed(movements: seq<Movement>, c: CompanyId): int {
    ConfirmedBalance(movements, c, CommissionCharged) - ConfirmedBalance(movements, c, PaymentRecorded)
  }

  function CreditWeight(client: ClientId): Invoice -> int {
    (i: Invoice) => if i.client == client && i.paymentMethod.Credit? && i.state.Issued? then i.amount else 0
  }

  ghost function AvailableCredit(b: Book, client: ClientId): int
    requires client in b.creditLimits
  {
    b.creditLimits[client] - Sum(b.invoices, CreditWeight(client))
  }

  function ResolveCeiling(ceilings: map<CompanyId, nat>, default: nat, c: CompanyId): nat {
    if c in ceilings then ceilings[c] else default
  }

  function Ceiling(b: Book, c: CompanyId): nat { ResolveCeiling(b.ceilings, b.defaultCeiling, c) }

  /** What a company sees of its account: the warning starts at nine tenths of the ceiling. */
  datatype Balances = Balances(commissionAccrued: int, cashbackAccrued: int, ceiling: nat, warning: bool,
                               exceeded: bool)

  ghost function BalancesFor(b: Book, c: CompanyId): Balances {
    var owed := NetCommissionOwed(b.movements, c);
    var ceiling := Ceiling(b, c);
    Balances(owed, ConfirmedBalance(b.movements, c, CashbackCredited), ceiling,
             ceiling > 0 && owed as real >= ceiling as real * 0.9, owed > ceiling)
  }

  function ComputeAmount(r: Rate, invoiceAmount: nat): int {
    Round(match r.basis
          case Percentage => invoiceAmount as real * r.rate / 100.0
          case PerUnit => invoiceAmount as real * r.rate)
  }

  /** The commission an invoice of this amount attracts under a term; nothing without a term or
      when the figure is not positive. */
  function CommissionFor(term: Option<Rate>, amount: nat): nat {
    if term.Some? && ComputeAmount(term.value, amount) > 0 then ComputeAmount(term.value, amount) else 0
  }

  function CashbackFor(p: Option<Programme>, c: CompanyId, amount: nat): nat {
    if p.Some? && p.value.isActive && (p.value.targetsAllCompanies || c in p.value.targets)
       && ComputeAmount(p.value.rate, amount) > 0
    then ComputeAmount(p.value.rate, amount) else 0
  }

  // ---------- lookups ----------

  /** The invoice of an order; the unique index on `orderId` makes it the only one. */
  function FindInvoice(invoices: seq<Invoice>, o: OrderId): (r: Option<nat>)
    ensures r.Some? ==> r.value < |invoices| && invoices[r.value].orderId == o
    ensures r.None? ==> forall i :: 0 <= i < |invoices| ==> invoices[i].orderId != o
  {
    if |invoices| == 0 then None
    else if invoices[|invoices| - 1].orderId == o then Some(|invoices| - 1)
    else FindInvoice(invoices[..|invoices| - 1], o)
  }

  predicate IsReversed(movements: seq<Movement>, j: nat) {
    exists k :: 0 <= k < |movements| && movements[k].reversalOf == Some(j)
  }

  predicate NeedsReversal(movements: seq<Movement>, invoice: nat, j: nat)
    requires j < |movements|
  {
    && movements[j].source == Some(invoice) && movements[j].state.Confirmed?
    && movements[j].reversalOf.None? && !IsReversed(movements, j)
  }

  function Accrual(c: CompanyId, k: Kind, amount: nat, invoice: nat): seq<Movement> {
    if amount > 0 then [Movement(c, k, amount, Confirmed, Some(invoice), None, None)] else []
  }

  function Compensation(m: Movement, j: nat): Movement {
    Movement(m.company, m.kind, m.amount, Confirmed, m.source, Some(j), None)
  }

  function Reversals(movements: seq<Movement>, invoice: nat, upTo: nat): seq<Movement>
    requires upTo <= |movements|
  {
    if upTo == 0 then []
    else Reversals(movements, invoice, upTo - 1)
         + (if NeedsReversal(movements, invoice, upTo - 1) then [Compensation(movements[upTo - 1], upTo - 1)] else [])
  }

  // ---------- transactions ----------

  ghost function Issue(b: Book, o: OrderId, c: CompanyId, client: ClientId, pm: PaymentMethod, amount: nat): Reply {
    if pm.Credit? && client !in b.creditLimits then Refused(ClientNotFound)
    else if pm.Credit? && amount > AvailableCredit(b, client) then Refused(CreditLimitExceeded)
    else if !pm.Direct? && NetCommissionOwed(b.movements, c) > Ceiling(b, c) then Refused(CommissionCeilingExceeded)
    else if FindInvoice(b.invoices, o).Some? then Refused(AlreadyInvoiced)
    else
      Committed(b.(invoices := b.invoices + [Invoice(o, c, client, pm, amount, Issued)],
                   movements := b.movements
                       + Accrual(c, CommissionCharged, CommissionFor(b.commissionTerm, amount), |b.invoices|)))
  }

  /** `applySettlement`: only an ISSUED invoice moves, and cashback is accrued with the move. */
  function ApplySettlement(b: Book, i: nat): Book
    requires i < |b.invoices|
  {
    var inv := b.invoices[i];
    if !inv.state.Issued? then b
    else
      b.(invoices := b.invoices[i := inv.(state := Settled)],
         movements := b.movements
                      + Accrual(inv.company, CashbackCredited,
                                CashbackFor(b.cashbackProgramme, inv.company, inv.amount), i))
  }

  function Settle(b: Book, o: OrderId): Reply {
    match FindInvoice(b.invoices, o)
    case None => Refused(InvoiceNotFound)
    case Some(i) => Committed(ApplySettlement(b, i))
  }

  /** `voidInvoice` inside the cancelling transaction: a missing or already resolved invoice is left alone. */
  function VoidInvoice(b: Book, o: OrderId): Book {
    match FindInvoice(b.invoices, o)
    case None => b
    case Some(i) =>
      if !b.invoices[i].state.Issued? then b
      else b.(invoices := b.invoices[i := b.invoices[i].(state := Void)],
              movements := b.movements + Reversals(b.movements, i, |b.movements|))
  }

  function RecordPayment(b: Book, c: CompanyId, amount: nat, reference: Option<string>, hasDocument: bool): Reply {
    if reference in {None, Some("")} && !hasDocument then Refused(PaymentEvidenceRequired)
    else Committed(b.(movements := b.movements
                      + [Movement(c, PaymentRecorded, amount, Recorded, None, None, reference)]))
  }

  function ConfirmPayment(b: Book, j: nat): Reply {
    if j < |b.movements| && b.movements[j].kind.PaymentRecorded? && b.movements[j].state.Recorded?
    then Committed(b.(movements := b.movements[j := b.movements[j].(state := Confirmed)]))
    else Refused(PaymentAlreadyConfirmed)
  }

  predicate PayoutReferenceTaken(movements: seq<Movement>, c: CompanyId, reference: string) {
    exists m <- movements :: m.company == c && m.kind.CashbackPaidOut? && m.reference == Some(reference)
  }

  ghost function RecordCashbackPayout(b: Book, c: CompanyId, amount: nat, reference: string): Reply {
    if amount > CashbackOwed(b.movements, c) then Refused(PayoutExceedsBalance)
    else if PayoutReferenceTaken(b.movements, c, reference) then Refused(PayoutDuplicateReference)
    else Committed(b.(movements := b.movements
                      + [Movement(c, CashbackPaidOut, amount, Confirmed, None, None, Some(reference))]))
  }

  // ---------- runs ----------

  datatype Action =
    | IssueFor(o: OrderId, c: CompanyId, client: ClientId, pm: PaymentMethod, amount: nat)
    | SettleOrder(o: OrderId)
    | VoidOrder(o: OrderId)
    | Pay(c: CompanyId, amount: nat, reference: Option<string>, hasDocument: bool)
    | Confirm(movement: nat)
    | PayOut(c: CompanyId, amount: nat, payoutReference: string)
    | SetTerm(term: Rate)
    | SetProgramme(programme: Programme)
    | SetCeiling(c: CompanyId, ceiling: nat)
    | SetCreditLimit(client: ClientId, limit: nat)

  ghost function Respond(b: Book, a: Action): Reply {
    match a
    case IssueFor(o, c, client, pm, amount) => Issue(b, o, c, client, pm, amount)
    case SettleOrder(o) => Settle(b, o)
    case VoidOrder(o) => Committed(VoidInvoice(b, o))
    case Pay(c, amount, reference, hasDocument) => RecordPayment(b, c, amount, reference, hasDocument)
    case Confirm(j) => ConfirmPayment(b, j)
    case PayOut(c, amount, reference) => RecordCashbackPayout(b, c, amount, reference)
    case SetTerm(t) => Committed(b.(commissionTerm := Some(t)))
    case SetProgramme(p) => Committed(b.(cashbackProgramme := Some(p)))
    case SetCeiling(c, k) => Committed(b.(ceilings := b.ceilings[c := k]))
    case SetCreditLimit(client, l) => Committed(b.(creditLimits := b.creditLimits[client := l]))
  }

  /** One line of an outside auditor's record: the invoice as it stands, the commission computed
      when it was issued and the cashback computed when it was settled (zero until then). The
      auditor never looks at a movement. */
  datatype Line = Line(invoice: Invoice, commission: nat, cashback: nat)

  datatype System = System(book: Book, audit: seq<Line>)

  ghost function AuditOf(s: System, a: Action): seq<Line> {
    match a
    case IssueFor(o, c, client, pm, amount) =>
      s.audit + [Line(Invoice(o, c, client, pm, amount, Issued), CommissionFor(s.book.commissionTerm, amount), 0)]
    case SettleOrder(o) =>
      (match FindInvoice(s.book.invoices, o)
       case Some(i) =>
         if i < |s.audit| && s.audit[i].invoice.state.Issued? then
           var inv := s.audit[i].invoice;
           s.audit[i := s.audit[i].(invoice := inv.(state := Settled),
                                    cashback := CashbackFor(s.book.cashbackProgramme, inv.company, inv.amount))]
         else s.audit
       case None => s.audit)
    case VoidOrder(o) =>
      (match FindInvoice(s.book.invoices, o)
       case Some(i) =>
         if i < |s.audit| && s.audit[i].invoice.state.Issued?
         then s.audit[i := s.audit[i].(invoice := s.audit[i].invoice.(state := Void))]
         else s.audit
       case None => s.audit)
    case _ => s.audit
  }

  /** A refused transaction rolls back: neither the book nor the auditor's record moves. */
  ghost function Step(s: System, a: Action): System {
    match Respond(s.book, a)
    case Refused(_) => s
    case Committed(b) => System(b, AuditOf(s, a))
  }

  ghost function Run(s: System, actions: seq<Action>): System {
    if actions == [] then s else Step(Run(s, actions[..|actions| - 1]), actions[|actions| - 1])
  }

  ghost predicate Initial(s: System) {
    s.book.invoices == [] && s.book.movements == [] && s.audit == []
  }
}
