/** The invoice, billing and platform-account services as an object over its stored collections.
    Each method commits what the matching `Ledger` function says, or refuses and changes nothing. */
module LedgerService {
  import opened Options
  import opened Sums
  import opened Ledger

  class Platform {
    var invoices: seq<Invoice>
    var movements: seq<Movement>
    var commissionTerm: Option<Rate>
    var cashbackProgramme: Option<Programme>
    var ceilings: map<CompanyId, nat>
    var defaultCeiling: nat
    var creditLimits: map<ClientId, nat>

    ghost function Stored(): Book
      reads this
    {
      Book(invoices, movements, commissionTerm, cashbackProgramme, ceilings, defaultCeiling, creditLimits)
    }

    ghost predicate Follows(before: Book, reply: Reply, refusal: Option<Refusal>)
      reads this
    {
      match reply
      case Committed(b) => refusal == None && Stored() == b
      case Refused(why) => refusal == Some(why) && Stored() == before
    }

    constructor (defaultCeiling: nat)
      ensures Stored() == Book([], [], None, None, map[], defaultCeiling, map[])
    {
      invoices, movements := [], [];
      commissionTerm, cashbackProgramme := None, None;
      ceilings, creditLimits := map[], map[];
      this.defaultCeiling := defaultCeiling;
    }

    method GetConfirmedBalance(c: CompanyId, k: Kind) returns (sum: int)
      ensures sum == ConfirmedBalance(movements, c, k)
    {
      sum := 0;
      for j := 0 to |movements|
        invariant sum == Sum(movements[..j], Signed(c, k))
      {
        assert movements[..j + 1] == movements[..j] + [movements[j]];
        SumPush(movements[..j], movements[j], Signed(c, k));
        sum := sum + Signed(c, k)(movements[j]);
      }
      assert movements[..|movements|] == movements;
    }

    method GetCashbackOwed(c: CompanyId) returns (owed: int)
      ensures owed == CashbackOwed(movements, c)
    {
      var credited := GetConfirmedBalance(c, CashbackCredited);
      var paidOut := GetConfirmedBalance(c, CashbackPaidOut);
      owed := credited - paidOut;
    }

    method GetAvailableCredit(client: ClientId) returns (available: Option<int>)
      ensures available == if client in creditLimits then Some(AvailableCredit(Stored(), client)) else None
    {
      if client !in creditLimits { return None; }
      var total := 0;
      for i := 0 to |invoices|
        invariant total == Sum(invoices[..i], CreditWeight(client))
      {
        assert invoices[..i + 1] == invoices[..i] + [invoices[i]];
        SumPush(invoices[..i], invoices[i], CreditWeight(client));
        total := total + CreditWeight(client)(invoices[i]);
      }
      assert invoices[..|invoices|] == invoices;
      available := Some(creditLimits[client] - total);
    }

    method AccrueFor(c: CompanyId, k: Kind, amount: nat, invoice: nat)
      modifies this`movements
      ensures movements == old(movements) + Accrual(c, k, amount, invoice)
    {
      if amount <= 0 { return; }
      movements := movements + [Movement(c, k, amount, Confirmed, Some(invoice), None, None)];
    }

    method IssueInvoice(o: OrderId, c: CompanyId, client: ClientId, pm: PaymentMethod, amount: nat)
      returns (refusal: Option<Refusal>)
      modifies this
      ensures Follows(old(Stored()), Issue(old(Stored()), o, c, client, pm, amount), refusal)
    {
      if pm.Credit? {
        var available := GetAvailableCredit(client);
        if available.None? { return Some(ClientNotFound); }
        if amount > available.value { return Some(CreditLimitExceeded); }
      }
      if pm.Deferred? || pm.Credit? {
        var charged := GetConfirmedBalance(c, CommissionCharged);
        var paid := GetConfirmedBalance(c, PaymentRecorded);
        if charged - paid > ResolveCeiling(ceilings, defaultCeiling, c) { return Some(CommissionCeilingExceeded); }
      }
      if FindInvoice(invoices, o).Some? { return Some(AlreadyInvoiced); }
      invoices := invoices + [Invoice(o, c, client, pm, amount, Issued)];
      AccrueFor(c, CommissionCharged, CommissionFor(commissionTerm, amount), |invoices| - 1);
      return None;
    }

    method SettleInvoiceForOrder(o: OrderId) returns (refusal: Option<Refusal>)
      modifies this
      ensures Follows(old(Stored()), Settle(old(Stored()), o), refusal)
    {
      var found := FindInvoice(invoices, o);
      if found.None? { return Some(InvoiceNotFound); }
      var inv := invoices[found.value];
      if !inv.state.Issued? { return None; }
      invoices := invoices[found.value := inv.(state := Settled)];
      AccrueFor(inv.company, CashbackCredited, CashbackFor(cashbackProgramme, inv.company, inv.amount), found.value);
      return None;
    }

    method ReverseMovementsForInvoice(invoice: nat)
      modifies this`movements
      ensures movements == old(movements) + Reversals(old(movements), invoice, |old(movements)|)
    {
      var originals := movements;
      for j := 0 to |originals|
        invariant movements == originals + Reversals(originals, invoice, j)
      {
        if NeedsReversal(originals, invoice, j) {
          movements := movements + [Compensation(originals[j], j)];
        }
      }
    }

    method VoidOrderInvoice(o: OrderId)
      modifies this
      ensures Stored() == VoidInvoice(old(Stored()), o)
    {
      var found := FindInvoice(invoices, o);
      if found.None? || !invoices[found.value].state.Issued? { return; }
      invoices := invoices[found.value := invoices[found.value].(state := Void)];
      ReverseMovementsForInvoice(found.value);
    }

    method RecordCompanyPayment(c: CompanyId, amount: nat, reference: Option<string>, hasDocument: bool)
      returns (refusal: Option<Refusal>)
      modifies this`movements
      ensures Follows(old(Stored()), RecordPayment(old(Stored()), c, amount, reference, hasDocument), refusal)
    {
      if (reference.None? || reference.value == "") && !hasDocument { return Some(PaymentEvidenceRequired); }
      movements := movements + [Movement(c, PaymentRecorded, amount, Recorded, None, None, reference)];
      return None;
    }

    method ConfirmRecordedPayment(j: nat) returns (refusal: Option<Refusal>)
      modifies this`movements
      ensures Follows(old(Stored()), ConfirmPayment(old(Stored()), j), refusal)
    {
      if j < |movements| && movements[j].kind.PaymentRecorded? && movements[j].state.Recorded? {
        movements := movements[j := movements[j].(state := Confirmed)];
        return None;
      }
      return Some(PaymentAlreadyConfirmed);
    }

    method PayOutCashback(c: CompanyId, amount: nat, reference: string) returns (refusal: Option<Refusal>)
      modifies this`movements
      ensures Follows(old(Stored()), RecordCashbackPayout(old(Stored()), c, amount, reference), refusal)
    {
      var owed := GetCashbackOwed(c);
      if amount > owed { return Some(PayoutExceedsBalance); }
      if PayoutReferenceTaken(movements, c, reference) { return Some(PayoutDuplicateReference); }
      movements := movements + [Movement(c, CashbackPaidOut, amount, Confirmed, None, None, Some(reference))];
      return None;
    }
  }
}
