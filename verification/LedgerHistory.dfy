/** What a run of the ledger never undoes: resolved invoices stay resolved, movements are only ever
    appended, and each payment is confirmed, and so counted, at most once. */
module LedgerHistory {
  import opened Options
  import opened Ledger
  import opened LedgerProofs

  lemma {:induction false} RunConcat(s: System, before: seq<Action>, after: seq<Action>)
    ensures Run(s, before + after) == Run(Run(s, before), after)
  {
    if after == [] {
      assert before + after == before;
    } else {
      assert (before + after)[..|before + after| - 1] == before + after[..|after| - 1];
      RunConcat(s, before, after[..|after| - 1]);
    }
  }

  // ---------- nothing is taken back ----------

  /** An invoice keeps everything but its state, and its state once it is resolved. */
  ghost predicate InvoiceContinues(was: Invoice, now: Invoice) {
    now == was.(state := now.state) && (!was.state.Issued? ==> now.state == was.state)
  }

  /** A movement is never rewritten, except that a recorded payment may become confirmed. */
  ghost predicate MovementContinues(was: Movement, now: Movement) {
    now == was || (was.kind.PaymentRecorded? && was.state.Recorded? && now == was.(state := Confirmed))
  }

  ghost predicate Continues(b: Book, later: Book) {
    && |b.invoices| <= |later.invoices| && |b.movements| <= |later.movements|
    && (forall i :: 0 <= i < |b.invoices| ==> InvoiceContinues(b.invoices[i], later.invoices[i]))
    && (forall j :: 0 <= j < |b.movements| ==> MovementContinues(b.movements[j], later.movements[j]))
  }

  lemma StepContinues(s: System, a: Action)
    ensures Continues(s.book, Step(s, a).book)
  {
  }

  lemma {:induction false} RunContinues(s: System, actions: seq<Action>)
    ensures Continues(s.book, Run(s, actions).book)
  {
    if actions != [] {
      var init := Run(s, actions[..|actions| - 1]);
      RunContinues(s, actions[..|actions| - 1]);
      StepContinues(init, actions[|actions| - 1]);
      var later := Run(s, actions).book;
      forall j | 0 <= j < |s.book.movements| ensures MovementContinues(s.book.movements[j], later.movements[j]) {
        assert MovementContinues(s.book.movements[j], init.book.movements[j]);
        assert MovementContinues(init.book.movements[j], later.movements[j]);
      }
      forall i | 0 <= i < |s.book.invoices| ensures InvoiceContinues(s.book.invoices[i], later.invoices[i]) {
        assert InvoiceContinues(s.book.invoices[i], init.book.invoices[i]);
        assert InvoiceContinues(init.book.invoices[i], later.invoices[i]);
      }
    }
  }

  /** An invoice that is settled or void at some point of a run is the same invoice in the same state
      at every later point, so none is ever both. */
  lemma ResolvedInvoiceIsFinal(s: System, before: seq<Action>, after: seq<Action>, i: nat)
    requires i < |Run(s, before).book.invoices|
    ensures var was, later := Run(s, before).book.invoices[i], Run(s, before + after).book;
      && i < |later.invoices| && later.invoices[i] == was.(state := later.invoices[i].state)
      && (!was.state.Issued? ==> later.invoices[i] == was)
  {
    RunConcat(s, before, after);
    RunContinues(Run(s, before), after);
    assert InvoiceContinues(Run(s, before).book.invoices[i], Run(s, before + after).book.invoices[i]);
  }

  /** The platform account is append-only: a movement once present keeps its place for ever, and the
      only change it can undergo is a recorded payment's single step to confirmed. */
  lemma MovementsAreAppendOnly(s: System, before: seq<Action>, after: seq<Action>, j: nat)
    requires j < |Run(s, before).book.movements|
    ensures var was, later := Run(s, before).book.movements[j], Run(s, before + after).book;
      && j < |later.movements|
      && (later.movements[j] == was
          || (was.kind.PaymentRecorded? && was.state.Recorded? && later.movements[j] == was.(state := Confirmed)))
  {
    RunConcat(s, before, after);
    RunContinues(Run(s, before), after);
    assert MovementContinues(Run(s, before).book.movements[j], Run(s, before + after).book.movements[j]);
  }

  // ---------- payments ----------

  /** The action confirms a payment, and goes through. */
  ghost predicate Confirms(s: System, a: Action) { a.Confirm? && Respond(s.book, a).Committed? }

  /** How many confirmations of movement `j` went through over a run. */
  ghost function TimesConfirmed(s: System, actions: seq<Action>, j: nat): nat {
    if actions == [] then 0
    else
      var before, a := actions[..|actions| - 1], actions[|actions| - 1];
      TimesConfirmed(s, before, j) + (if Confirms(Run(s, before), a) && a.movement == j then 1 else 0)
  }

  /** What the confirmations that went through over a run were worth to a company. */
  ghost function PaidOver(s: System, actions: seq<Action>, c: CompanyId): nat {
    if actions == [] then 0
    else
      var before, a := actions[..|actions| - 1], actions[|actions| - 1];
      PaidOver(s, before, c) + PaidBy(Run(s, before), a, c)
  }

  ghost function PaidBy(s: System, a: Action, c: CompanyId): nat {
    if Confirms(s, a) && s.book.movements[a.movement].company == c then s.book.movements[a.movement].amount else 0
  }

  ghost predicate ConfirmedPayment(movements: seq<Movement>, j: nat) {
    j < |movements| && movements[j].kind.PaymentRecorded? && movements[j].state.Confirmed?
  }

  lemma StepConfirms(s: System, a: Action, j: nat)
    requires Inv(s)
    ensures ConfirmedPayment(Step(s, a).book.movements, j) <==>
      ConfirmedPayment(s.book.movements, j) || (Confirms(s, a) && a.movement == j)
    ensures Confirms(s, a) ==> !ConfirmedPayment(s.book.movements, a.movement)
  {
    var n := |s.book.movements|;
    StepContinues(s, a);
    if j < n {
      assert MovementContinues(s.book.movements[j], Step(s, a).book.movements[j]);
    } else if a.VoidOrder? {
      match FindInvoice(s.book.invoices, a.o) {
        case Some(i) =>
          ReversalsShape(s.book.movements, i, n);
          forall r <- Reversals(s.book.movements, i, n) ensures !r.kind.PaymentRecorded? {
            assert MovementOk(s.book.movements, s.book.invoices, s.book.movements[r.reversalOf.value]);
          }
        case None =>
      }
    }
  }

  /** Issuing and settling append accruals, which are no payments. */
  lemma AccrualPaysNothing(s: System, a: Action, c: CompanyId)
    requires (a.IssueFor? || a.SettleOrder?) && Respond(s.book, a).Committed?
    ensures ConfirmedBalance(Step(s, a).book.movements, c, PaymentRecorded)
        == ConfirmedBalance(s.book.movements, c, PaymentRecorded)
  {
    match a {
      case IssueFor(_, d, _, _, amount) =>
        AccrualChanges(s.book.movements, d, CommissionCharged, CommissionFor(s.book.commissionTerm, amount),
                       |s.book.invoices|);
      case SettleOrder(o) =>
        var i := FindInvoice(s.book.invoices, o).value;
        var inv := s.book.invoices[i];
        AccrualChanges(s.book.movements, inv.company, CashbackCredited,
                       CashbackFor(s.book.cashbackProgramme, inv.company, inv.amount), i);
    }
  }

  /** The company's confirmed payments move by exactly what a confirmation is worth to it. */
  lemma StepPays(s: System, a: Action, c: CompanyId)
    requires Inv(s)
    ensures ConfirmedBalance(Step(s, a).book.movements, c, PaymentRecorded)
         == ConfirmedBalance(s.book.movements, c, PaymentRecorded) + PaidBy(s, a, c)
  {
    if Respond(s.book, a).Committed? {
      var was := s.book.movements;
      match a {
        case IssueFor(_, _, _, _, _) => AccrualPaysNothing(s, a, c);
        case SettleOrder(_) => AccrualPaysNothing(s, a, c);
        case VoidOrder(o) => VoidPaysNothing(s, o, c);
        case Pay(d, amount, reference, _) =>
          PushChanges(was, Movement(d, PaymentRecorded, amount, Recorded, None, None, reference));
        case Confirm(j) =>
          assert MovementOk(was, s.book.invoices, was[j]);
          ConfirmChanges(was, j);
        case PayOut(d, amount, reference) =>
          PushChanges(was, Movement(d, CashbackPaidOut, amount, Confirmed, None, None, Some(reference)));
        case _ =>
      }
    }
  }

  lemma VoidPaysNothing(s: System, o: OrderId, c: CompanyId)
    requires Inv(s)
    ensures ConfirmedBalance(VoidInvoice(s.book, o).movements, c, PaymentRecorded)
        == ConfirmedBalance(s.book.movements, c, PaymentRecorded)
  {
    match FindInvoice(s.book.invoices, o) {
      case None =>
      case Some(i) =>
        if s.book.invoices[i].state.Issued? {
          IssuedIsUnreversed(s, i);
          ReversalsChange(s.book.movements, i, s.book.invoices[i].company);
          forall m <- s.book.movements
            ensures m.source.Some? ==> m.kind.CommissionCharged? || m.kind.CashbackCredited?
          {
            assert MovementOk(s.book.movements, s.book.invoices, m);
          }
          VoidLeavesPayouts(s.book.movements, i);
        }
    }
  }

  /** Over every run each payment is confirmed at most once, and exactly once if it reads confirmed;
      and a company's confirmed payments are worth exactly what those confirmations were. */
  lemma {:induction false} PaymentCountsOnce(s: System, actions: seq<Action>, j: nat, c: CompanyId)
    requires Initial(s)
    ensures var movements := Run(s, actions).book.movements;
      && TimesConfirmed(s, actions, j) == (if ConfirmedPayment(movements, j) then 1 else 0)
      && ConfirmedBalance(movements, c, PaymentRecorded) == PaidOver(s, actions, c)
  {
    if actions != [] {
      var before, a := actions[..|actions| - 1], actions[|actions| - 1];
      PaymentCountsOnce(s, before, j, c);
      RunKeeps(s, before);
      StepConfirms(Run(s, before), a, j);
      StepPays(Run(s, before), a, c);
    }
  }
}
