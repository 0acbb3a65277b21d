/** What every run of the ledger keeps: the balances recomputed from movements always agree with an
    auditor who only watches invoices, cashback owed never goes negative, and no invoice is credited
    twice. */
module LedgerProofs {
  import opened Options
  import opened Sums
  import opened Ledger

  // ---------- the invariant ----------

  /** Commission still owed for a line: voiding forgives it, settling does not. */
  function CommissionDue(c: CompanyId): Line -> int {
    (l: Line) => if l.invoice.company == c && !l.invoice.state.Void? then l.commission else 0
  }

  /** Cashback earned on a line: only settling earns it. */
  function CashbackDue(c: CompanyId): Line -> int {
    (l: Line) => if l.invoice.company == c && l.invoice.state.Settled? then l.cashback else 0
  }

  /** A movement's signed amount, if it was sourced from the given invoice. */
  function FromInvoice(i: nat, k: Kind): Movement -> int {
    (m: Movement) =>
      if m.source == Some(i) && m.kind == k then
        if m.reversalOf.Some? then -(m.amount as int) else m.amount
      else 0
  }

  ghost predicate MovementOk(movements: seq<Movement>, invoices: seq<Invoice>, m: Movement) {
    && (m.kind.CommissionCharged? || m.kind.CashbackCredited? <==> m.source.Some?)
    && (m.source.Some? ==>
          && m.source.value < |invoices| && m.state.Confirmed?
          && m.company == invoices[m.source.value].company
          && (m.kind.CashbackCredited? ==> invoices[m.source.value].state.Settled?))
    && (m.reversalOf.Some? ==>
          && m.source.Some? && m.source.value < |invoices| && invoices[m.source.value].state.Void?
          && m.reversalOf.value < |movements| && movements[m.reversalOf.value].source == m.source)
  }

  ghost predicate Sourced(movements: seq<Movement>, invoices: seq<Invoice>) {
    forall m <- movements :: MovementOk(movements, invoices, m)
  }

  ghost predicate AuditMatches(s: System) {
    && |s.audit| == |s.book.invoices|
    && forall i :: 0 <= i < |s.audit| ==> s.audit[i].invoice == s.book.invoices[i]
  }

  /** Net commission entered for an invoice is the figure fixed at issue, or nothing once void;
      cashback entered for it is the figure fixed at settlement. */
  ghost predicate LineAgrees(s: System, i: nat)
    requires i < |s.audit|
  {
    && Sum(s.book.movements, FromInvoice(i, CommissionCharged))
       == (if s.audit[i].invoice.state.Void? then 0 else s.audit[i].commission)
    && Sum(s.book.movements, FromInvoice(i, CashbackCredited))
       == (if s.audit[i].invoice.state.Settled? then s.audit[i].cashback else 0)
  }

  ghost predicate CompanyAgrees(s: System, c: CompanyId) {
    && ConfirmedBalance(s.book.movements, c, CommissionCharged) == Sum(s.audit, CommissionDue(c))
    && ConfirmedBalance(s.book.movements, c, CashbackCredited) == Sum(s.audit, CashbackDue(c))
  }

  ghost predicate Inv(s: System) {
    && AuditMatches(s)
    && Sourced(s.book.movements, s.book.invoices)
    && (forall i :: 0 <= i < |s.audit| ==> LineAgrees(s, i))
    && (forall c: CompanyId :: CompanyAgrees(s, c))
    && (forall c: CompanyId :: CashbackOwed(s.book.movements, c) >= 0)
  }

  // ---------- appending movements ----------

  lemma PushChanges(movements: seq<Movement>, m: Movement)
    ensures forall c: CompanyId, k: Kind ::
      ConfirmedBalance(movements + [m], c, k) == ConfirmedBalance(movements, c, k) + Signed(c, k)(m)
    ensures forall i: nat, k: Kind ::
      Sum(movements + [m], FromInvoice(i, k)) == Sum(movements, FromInvoice(i, k)) + FromInvoice(i, k)(m)
  {
    forall c: CompanyId, k: Kind { SumPush(movements, m, Signed(c, k)); }
    forall i: nat, k: Kind { SumPush(movements, m, FromInvoice(i, k)); }
  }

  lemma AccrualChanges(movements: seq<Movement>, c: CompanyId, k: Kind, amount: nat, i: nat)
    ensures var after := movements + Accrual(c, k, amount, i);
      && (forall d: CompanyId, h: Kind ::
            ConfirmedBalance(after, d, h)
                == ConfirmedBalance(movements, d, h) + (if d == c && h == k then amount else 0))
      && (forall j: nat, h: Kind ::
            Sum(after, FromInvoice(j, h))
                == Sum(movements, FromInvoice(j, h)) + (if j == i && h == k then amount else 0))
  {
    if amount > 0 {
      PushChanges(movements, Movement(c, k, amount, Confirmed, Some(i), None, None));
    } else {
      assert movements + Accrual(c, k, amount, i) == movements;
    }
  }

  /** Nothing recorded for a live invoice has been reversed yet. */
  ghost predicate Unreversed(movements: seq<Movement>, i: nat) {
    && (forall m <- movements :: m.source == Some(i) ==> m.state.Confirmed? && m.reversalOf.None?)
    && (forall j :: 0 <= j < |movements| && movements[j].source == Some(i) ==> !IsReversed(movements, j))
  }

  /** Each compensating entry cancels exactly one original, so together they cancel the invoice. */
  lemma {:induction false} ReversalsCancel(movements: seq<Movement>, i: nat, n: nat, k: Kind)
    requires n <= |movements| && Unreversed(movements, i)
    ensures Sum(Reversals(movements, i, n), FromInvoice(i, k)) == -Sum(movements[..n], FromInvoice(i, k))
  {
    if n > 0 {
      ReversalsCancel(movements, i, n - 1, k);
      var m, before := movements[n - 1], Reversals(movements, i, n - 1);
      assert movements[..n] == movements[..n - 1] + [m];
      SumPush(movements[..n - 1], m, FromInvoice(i, k));
      if m.source == Some(i) {
        assert !IsReversed(movements, n - 1);
        assert NeedsReversal(movements, i, n - 1);
        assert Reversals(movements, i, n) == before + [Compensation(m, n - 1)];
        SumPush(before, Compensation(m, n - 1), FromInvoice(i, k));
      } else {
        assert before + [] == before;
      }
    }
  }

  lemma {:induction false} ReversalsShape(movements: seq<Movement>, i: nat, n: nat)
    requires n <= |movements|
    ensures forall r <- Reversals(movements, i, n) ::
      && r.source == Some(i) && r.state.Confirmed? && r.reversalOf.Some? && r.reversalOf.value < n
      && movements[r.reversalOf.value].source == Some(i) && movements[r.reversalOf.value].state.Confirmed?
      && movements[r.reversalOf.value].reversalOf.None? && !IsReversed(movements, r.reversalOf.value)
      && movements[r.reversalOf.value].company == r.company && movements[r.reversalOf.value].kind == r.kind
  {
    if n > 0 { ReversalsShape(movements, i, n - 1); }
  }

  lemma {:induction false} ReversalsCover(movements: seq<Movement>, i: nat, n: nat, j: nat)
    requires j < n <= |movements| && NeedsReversal(movements, i, j)
    ensures exists k :: 0 <= k < |Reversals(movements, i, n)| && Reversals(movements, i, n)[k].reversalOf == Some(j)
  {
    var init := Reversals(movements, i, n - 1);
    if j == n - 1 {
      assert Reversals(movements, i, n)[|init|].reversalOf == Some(j);
    } else {
      ReversalsCover(movements, i, n - 1, j);
      var k :| 0 <= k < |init| && init[k].reversalOf == Some(j);
      assert Reversals(movements, i, n)[k] == init[k];
    }
  }

  lemma {:induction false} NothingToReverse(movements: seq<Movement>, i: nat, n: nat)
    requires n <= |movements| && forall j :: 0 <= j < |movements| ==> !NeedsReversal(movements, i, j)
    ensures Reversals(movements, i, n) == []
  {
    if n > 0 { NothingToReverse(movements, i, n - 1); }
  }

  /** Whatever the account holds, reversing an invoice again adds nothing: no entry is reversed twice, and no
      reversal is itself reversed. */
  lemma ReversingTwiceIsReversingOnce(movements: seq<Movement>, i: nat)
    ensures var after := movements + Reversals(movements, i, |movements|);
            Reversals(after, i, |after|) == []
  {
    var n, rs := |movements|, Reversals(movements, i, |movements|);
    var after := movements + rs;
    ReversalsShape(movements, i, n);
    forall j | 0 <= j < |after| ensures !NeedsReversal(after, i, j) {
      if j >= n {
        assert after[j] == rs[j - n] && rs[j - n] in rs;
      } else if NeedsReversal(movements, i, j) {
        ReversalsCover(movements, i, n, j);
        var k :| 0 <= k < |rs| && rs[k].reversalOf == Some(j);
        assert after[n + k] == rs[k];
      } else if IsReversed(movements, j) {
        var k :| 0 <= k < n && movements[k].reversalOf == Some(j);
        assert after[k] == movements[k];
      }
    }
    NothingToReverse(after, i, |after|);
  }

  lemma ReversalsChange(movements: seq<Movement>, i: nat, owner: CompanyId)
    requires Unreversed(movements, i)
    requires forall m <- movements :: m.source == Some(i) ==> m.company == owner
    ensures var after := movements + Reversals(movements, i, |movements|);
      && (forall k: Kind :: Sum(after, FromInvoice(i, k)) == 0)
      && (forall j: nat, k: Kind :: j != i ==> Sum(after, FromInvoice(j, k)) == Sum(movements, FromInvoice(j, k)))
      && (forall c: CompanyId, k: Kind :: ConfirmedBalance(after, c, k)
            == ConfirmedBalance(movements, c, k) - (if c == owner then Sum(movements, FromInvoice(i, k)) else 0))
  {
    var rs := Reversals(movements, i, |movements|);
    ReversalsShape(movements, i, |movements|);
    assert movements[..|movements|] == movements;
    forall k: Kind
      ensures Sum(rs, FromInvoice(i, k)) == -Sum(movements, FromInvoice(i, k))
      ensures Sum(movements + rs, FromInvoice(i, k)) == 0
    {
      ReversalsCancel(movements, i, |movements|, k);
      SumConcat(movements, rs, FromInvoice(i, k));
    }
    forall j: nat, k: Kind | j != i
      ensures Sum(movements + rs, FromInvoice(j, k)) == Sum(movements, FromInvoice(j, k))
    {
      SumZero(rs, FromInvoice(j, k));
      SumConcat(movements, rs, FromInvoice(j, k));
    }
    forall c: CompanyId, k: Kind
      ensures ConfirmedBalance(movements + rs, c, k)
        == ConfirmedBalance(movements, c, k) - (if c == owner then Sum(movements, FromInvoice(i, k)) else 0)
    {
      SumConcat(movements, rs, Signed(c, k));
      if c == owner {
        SumAgree(rs, Signed(c, k), rs, FromInvoice(i, k));
      } else {
        SumZero(rs, Signed(c, k));
      }
    }
  }

  // ---------- each transaction keeps the invariant ----------

  lemma AuditPush(audit: seq<Line>, l: Line)
    ensures forall c: CompanyId ::
      Sum(audit + [l], CommissionDue(c)) == Sum(audit, CommissionDue(c)) + CommissionDue(c)(l)
    ensures forall c: CompanyId :: Sum(audit + [l], CashbackDue(c)) == Sum(audit, CashbackDue(c)) + CashbackDue(c)(l)
  {
    forall c: CompanyId { SumPush(audit, l, CommissionDue(c)); }
    forall c: CompanyId { SumPush(audit, l, CashbackDue(c)); }
  }

  lemma AuditUpdate(audit: seq<Line>, i: nat, l: Line)
    requires i < |audit|
    ensures forall c: CompanyId ::
      Sum(audit[i := l], CommissionDue(c))
          == Sum(audit, CommissionDue(c)) - CommissionDue(c)(audit[i]) + CommissionDue(c)(l)
    ensures forall c: CompanyId ::
      Sum(audit[i := l], CashbackDue(c)) == Sum(audit, CashbackDue(c)) - CashbackDue(c)(audit[i]) + CashbackDue(c)(l)
  {
    forall c: CompanyId { SumUpdate(audit, i, l, CommissionDue(c)); }
    forall c: CompanyId { SumUpdate(audit, i, l, CashbackDue(c)); }
  }

  /** An invoice that does not exist yet has no movements. */
  lemma NoMovementsYet(s: System, k: Kind)
    requires Inv(s)
    ensures Sum(s.book.movements, FromInvoice(|s.audit|, k)) == 0
  {
    forall m <- s.book.movements ensures FromInvoice(|s.audit|, k)(m) == 0 {
      assert MovementOk(s.book.movements, s.book.invoices, m);
    }
    SumZero(s.book.movements, FromInvoice(|s.audit|, k));
  }

  lemma SourcedGrows(movements: seq<Movement>, invoices: seq<Invoice>, movements': seq<Movement>,
                     invoices': seq<Invoice>)
    requires Sourced(movements, invoices)
    requires movements <= movements' && |invoices| <= |invoices'|
    requires forall i :: 0 <= i < |invoices| ==>
      && invoices'[i].company == invoices[i].company
      && (!invoices[i].state.Issued? ==> invoices'[i].state == invoices[i].state)
    requires forall m <- movements'[|movements|..] :: MovementOk(movements', invoices', m)
    ensures Sourced(movements', invoices')
  {
    forall m <- movements' ensures MovementOk(movements', invoices', m) {
      var j :| 0 <= j < |movements'| && movements'[j] == m;
      if j < |movements| {
        assert MovementOk(movements, invoices, movements[j]);
      } else {
        assert movements'[|movements|..][j - |movements|] == m;
      }
    }
  }

  lemma IssueKeeps(s: System, a: Action)
    requires Inv(s) && a.IssueFor? && Respond(s.book, a).Committed?
    ensures Inv(Step(s, a))
  {
    var s' := Step(s, a);
    var amount := CommissionFor(s.book.commissionTerm, a.amount);
    AccrualChanges(s.book.movements, a.c, CommissionCharged, amount, |s.book.invoices|);
    SourcedGrows(s.book.movements, s.book.invoices, s'.book.movements, s'.book.invoices);
    AuditPush(s.audit, s'.audit[|s.audit|]);
    NoMovementsYet(s, CommissionCharged);
    NoMovementsYet(s, CashbackCredited);
    forall i | 0 <= i < |s'.audit| ensures LineAgrees(s', i) {
      if i < |s.audit| { assert LineAgrees(s, i); }
    }
    forall c: CompanyId ensures CompanyAgrees(s', c) { assert CompanyAgrees(s, c); }
    forall c: CompanyId ensures CashbackOwed(s'.book.movements, c) >= 0 {
      assert CashbackOwed(s.book.movements, c) >= 0;
    }
  }

  lemma SettleKeeps(s: System, a: Action)
    requires Inv(s) && a.SettleOrder? && Respond(s.book, a).Committed?
    ensures Inv(Step(s, a))
  {
    var s' := Step(s, a);
    var i := FindInvoice(s.book.invoices, a.o).value;
    var inv := s.book.invoices[i];
    if inv.state.Issued? {
      var earned := CashbackFor(s.book.cashbackProgramme, inv.company, inv.amount);
      SettledLine(s, s', i, earned);
    }
  }

  lemma SettledLine(s: System, s': System, i: nat, earned: nat)
    requires Inv(s) && i < |s.audit| && s.book.invoices[i].state.Issued?
    requires s'.book.invoices == s.book.invoices[i := s.book.invoices[i].(state := Settled)]
    requires s'.book.movements == s.book.movements + Accrual(s.book.invoices[i].company, CashbackCredited, earned, i)
    requires s'.audit == s.audit[i := s.audit[i].(invoice := s.book.invoices[i].(state := Settled), cashback := earned)]
    ensures Inv(s')
  {
    assert LineAgrees(s, i);
    AccrualChanges(s.book.movements, s.book.invoices[i].company, CashbackCredited, earned, i);
    SourcedGrows(s.book.movements, s.book.invoices, s'.book.movements, s'.book.invoices);
    AuditUpdate(s.audit, i, s'.audit[i]);
    forall j | 0 <= j < |s'.audit| ensures LineAgrees(s', j) { assert LineAgrees(s, j); }
    forall c: CompanyId ensures CompanyAgrees(s', c) { assert CompanyAgrees(s, c); }
    forall c: CompanyId ensures CashbackOwed(s'.book.movements, c) >= 0 {
      assert CashbackOwed(s.book.movements, c) >= 0;
    }
  }

  lemma IssuedIsUnreversed(s: System, i: nat)
    requires Inv(s) && i < |s.audit| && s.book.invoices[i].state.Issued?
    ensures Unreversed(s.book.movements, i)
    ensures forall m <- s.book.movements :: m.source == Some(i) ==> m.company == s.book.invoices[i].company
  {
    forall m <- s.book.movements | m.source == Some(i)
      ensures m.state.Confirmed? && m.reversalOf.None? && m.company == s.book.invoices[i].company
    {
      assert MovementOk(s.book.movements, s.book.invoices, m);
    }
    forall j | 0 <= j < |s.book.movements| && s.book.movements[j].source == Some(i)
      ensures !IsReversed(s.book.movements, j)
    {
      forall k | 0 <= k < |s.book.movements| ensures s.book.movements[k].reversalOf != Some(j) {
        assert MovementOk(s.book.movements, s.book.invoices, s.book.movements[k]);
      }
    }
  }

  lemma VoidKeeps(s: System, a: Action)
    requires Inv(s) && a.VoidOrder?
    ensures Inv(Step(s, a))
  {
    var s' := Step(s, a);
    match FindInvoice(s.book.invoices, a.o) {
      case None =>
      case Some(i) =>
        assert LineAgrees(s, i);
        if s.book.invoices[i].state.Issued? {
          var owner := s.book.invoices[i].company;
          IssuedIsUnreversed(s, i);
          ReversalsChange(s.book.movements, i, owner);
          VoidStaysSourced(s, s', i);
          AuditUpdate(s.audit, i, s'.audit[i]);
          forall j | 0 <= j < |s'.audit| ensures LineAgrees(s', j) { assert LineAgrees(s, j); }
          forall c: CompanyId ensures CompanyAgrees(s', c) { assert CompanyAgrees(s, c); }
          VoidLeavesPayouts(s.book.movements, i);
          forall c: CompanyId ensures CashbackOwed(s'.book.movements, c) >= 0 {
            assert CashbackOwed(s.book.movements, c) >= 0;
          }
        }
    }
  }

  lemma VoidStaysSourced(s: System, s': System, i: nat)
    requires Inv(s) && i < |s.book.invoices| && s.book.invoices[i].state.Issued?
    requires s'.book.invoices == s.book.invoices[i := s.book.invoices[i].(state := Void)]
    requires s'.book.movements == s.book.movements + Reversals(s.book.movements, i, |s.book.movements|)
    ensures Sourced(s'.book.movements, s'.book.invoices)
  {
    ReversalsShape(s.book.movements, i, |s.book.movements|);
    forall r <- Reversals(s.book.movements, i, |s.book.movements|)
      ensures MovementOk(s'.book.movements, s'.book.invoices, r)
    {
      var original := s.book.movements[r.reversalOf.value];
      assert MovementOk(s.book.movements, s.book.invoices, original);
      assert s'.book.movements[r.reversalOf.value] == original;
    }
    SourcedGrows(s.book.movements, s.book.invoices, s'.book.movements, s'.book.invoices);
  }

  /** Payments and payouts carry no source, so no invoice's entries are among them. */
  lemma VoidLeavesPayouts(movements: seq<Movement>, i: nat)
    requires forall m <- movements :: m.source.Some? ==> m.kind.CommissionCharged? || m.kind.CashbackCredited?
    ensures Sum(movements, FromInvoice(i, CashbackPaidOut)) == 0 && Sum(movements, FromInvoice(i, PaymentRecorded)) == 0
  {
    SumZero(movements, FromInvoice(i, CashbackPaidOut));
    SumZero(movements, FromInvoice(i, PaymentRecorded));
  }

  /** Recording a payment or a payout adds one unsourced entry. */
  lemma UnsourcedPushKeeps(s: System, s': System, m: Movement)
    requires Inv(s) && s'.book.movements == s.book.movements + [m]
    requires s'.book.invoices == s.book.invoices && s'.audit == s.audit
    requires m.source.None? && m.reversalOf.None? && (m.kind.PaymentRecorded? || m.kind.CashbackPaidOut?)
    requires m.kind.CashbackPaidOut? ==> m.amount <= CashbackOwed(s.book.movements, m.company)
    ensures Inv(s')
  {
    PushChanges(s.book.movements, m);
    SourcedGrows(s.book.movements, s.book.invoices, s'.book.movements, s'.book.invoices);
    forall i | 0 <= i < |s'.audit| ensures LineAgrees(s', i) { assert LineAgrees(s, i); }
    forall c: CompanyId ensures CompanyAgrees(s', c) { assert CompanyAgrees(s, c); }
    forall c: CompanyId ensures CashbackOwed(s'.book.movements, c) >= 0 {
      assert CashbackOwed(s.book.movements, c) >= 0;
    }
  }

  /** Confirming a payment moves exactly its own amount into exactly its own company's balance. */
  lemma ConfirmChanges(movements: seq<Movement>, j: nat)
    requires j < |movements| && movements[j].kind.PaymentRecorded? && movements[j].state.Recorded?
    requires movements[j].reversalOf.None?
    ensures var after := movements[j := movements[j].(state := Confirmed)];
      && (forall c: CompanyId, k: Kind :: ConfirmedBalance(after, c, k)
            == ConfirmedBalance(movements, c, k)
               + (if c == movements[j].company && k.PaymentRecorded? then movements[j].amount else 0))
      && (forall i: nat, k: Kind :: Sum(after, FromInvoice(i, k)) == Sum(movements, FromInvoice(i, k)))
  {
    var m := movements[j].(state := Confirmed);
    forall c: CompanyId, k: Kind { SumUpdate(movements, j, m, Signed(c, k)); }
    forall i: nat, k: Kind { SumUpdate(movements, j, m, FromInvoice(i, k)); }
  }

  lemma ConfirmKeeps(s: System, a: Action)
    requires Inv(s) && a.Confirm? && Respond(s.book, a).Committed?
    ensures Inv(Step(s, a))
  {
    var s' := Step(s, a);
    assert MovementOk(s.book.movements, s.book.invoices, s.book.movements[a.movement]);
    ConfirmChanges(s.book.movements, a.movement);
    forall m <- s'.book.movements ensures MovementOk(s'.book.movements, s'.book.invoices, m) {
      var j :| 0 <= j < |s'.book.movements| && s'.book.movements[j] == m;
      assert MovementOk(s.book.movements, s.book.invoices, s.book.movements[j]);
    }
    forall i | 0 <= i < |s'.audit| ensures LineAgrees(s', i) { assert LineAgrees(s, i); }
    forall c: CompanyId ensures CompanyAgrees(s', c) { assert CompanyAgrees(s, c); }
    forall c: CompanyId ensures CashbackOwed(s'.book.movements, c) >= 0 {
      assert CashbackOwed(s.book.movements, c) >= 0;
    }
  }

  lemma SettingKeeps(s: System, s': System)
    requires Inv(s) && s'.audit == s.audit && s'.book.invoices == s.book.invoices
    requires s'.book.movements == s.book.movements
    ensures Inv(s')
  {
    forall i | 0 <= i < |s'.audit| ensures LineAgrees(s', i) { assert LineAgrees(s, i); }
    forall c: CompanyId ensures CompanyAgrees(s', c) { assert CompanyAgrees(s, c); }
  }

  lemma StepKeeps(s: System, a: Action)
    requires Inv(s)
    ensures Inv(Step(s, a))
  {
    if Respond(s.book, a).Committed? {
      match a {
        case IssueFor(_, _, _, _, _) => IssueKeeps(s, a);
        case SettleOrder(_) => SettleKeeps(s, a);
        case VoidOrder(_) => VoidKeeps(s, a);
        case Pay(c, amount, reference, _) =>
          UnsourcedPushKeeps(s, Step(s, a), Movement(c, PaymentRecorded, amount, Recorded, None, None, reference));
        case Confirm(_) => ConfirmKeeps(s, a);
        case PayOut(c, amount, reference) =>
          UnsourcedPushKeeps(s, Step(s, a),
                             Movement(c, CashbackPaidOut, amount, Confirmed, None, None, Some(reference)));
        case _ => SettingKeeps(s, Step(s, a));
      }
    }
  }

  lemma InitialInv(s: System)
    requires Initial(s)
    ensures Inv(s)
  {
    forall c: CompanyId ensures CompanyAgrees(s, c) {}
  }

  lemma {:induction false} RunKeeps(s: System, actions: seq<Action>)
    requires Initial(s)
    ensures Inv(Run(s, actions))
  {
    if actions == [] {
      InitialInv(s);
    } else {
      RunKeeps(s, actions[..|actions| - 1]);
      StepKeeps(Run(s, actions[..|actions| - 1]), actions[|actions| - 1]);
    }
  }

  // ---------- main results ----------

  /** Over every run, the commission balance recomputed from movements is the sum of the commissions
      fixed at issue over the company's non-void invoices, and credited cashback is the sum over its
      settled invoices of the amount under the programme in force when each was settled. */
  lemma BooksAgreeWithAudit(s: System, actions: seq<Action>, c: CompanyId)
    requires Initial(s)
    ensures var t := Run(s, actions);
      && ConfirmedBalance(t.book.movements, c, CommissionCharged) == Sum(t.audit, CommissionDue(c))
      && ConfirmedBalance(t.book.movements, c, CashbackCredited) == Sum(t.audit, CashbackDue(c))
  {
    RunKeeps(s, actions);
    assert CompanyAgrees(Run(s, actions), c);
  }

  /** Cashback owed is never negative in any run. */
  lemma CashbackOwedNeverNegative(s: System, actions: seq<Action>, c: CompanyId)
    requires Initial(s)
    ensures CashbackOwed(Run(s, actions).book.movements, c) >= 0
  {
    RunKeeps(s, actions);
  }

  /** No credited cashback is ever reversed: a reversal's source is void, a cashback's is settled. */
  lemma CashbackIsNeverReversed(s: System, actions: seq<Action>, m: Movement)
    requires Initial(s) && m in Run(s, actions).book.movements && m.kind.CashbackCredited?
    ensures m.reversalOf.None?
  {
    RunKeeps(s, actions);
    assert MovementOk(Run(s, actions).book.movements, Run(s, actions).book.invoices, m);
  }

  /** A credit invoice is issued exactly when it fits: outstanding credit plus this amount within the
      limit, the limit itself included; and once issued the total is that sum. */
  lemma CreditIssueFitsTheLimit(b: Book, o: OrderId, c: CompanyId, client: ClientId, amount: nat)
    requires client in b.creditLimits && FindInvoice(b.invoices, o).None?
    requires NetCommissionOwed(b.movements, c) <= Ceiling(b, c)
    ensures var outstanding := Sum(b.invoices, CreditWeight(client));
            var reply := Issue(b, o, c, client, Credit, amount);
      && (reply.Committed? <==> outstanding + amount <= b.creditLimits[client])
      && (reply.Refused? ==> reply.why == CreditLimitExceeded)
      && (reply.Committed? ==> Sum(reply.book.invoices, CreditWeight(client)) == outstanding + amount)
  {
    SumPush(b.invoices, Invoice(o, c, client, Credit, amount, Issued), CreditWeight(client));
  }

  // ---------- payout references ----------

  ghost predicate IsPayout(m: Movement, c: CompanyId, reference: Option<string>) {
    m.kind.CashbackPaidOut? && m.company == c && m.reference == reference
  }

  ghost predicate PayoutsUnique(movements: seq<Movement>) {
    forall i, j :: 0 <= i < j < |movements| && movements[j].kind.CashbackPaidOut? ==>
      !IsPayout(movements[i], movements[j].company, movements[j].reference)
  }

  lemma NonPayoutsKeepUnique(movements: seq<Movement>, added: seq<Movement>)
    requires PayoutsUnique(movements) && forall m <- added :: !m.kind.CashbackPaidOut?
    ensures PayoutsUnique(movements + added)
  {
    var all := movements + added;
    forall j | |movements| <= j < |all| ensures !all[j].kind.CashbackPaidOut? {
      assert all[j] == added[j - |movements|];
    }
  }

  lemma ReversalsAreNoPayouts(s: System, i: nat)
    requires Inv(s)
    ensures forall r <- Reversals(s.book.movements, i, |s.book.movements|) :: !r.kind.CashbackPaidOut?
  {
    ReversalsShape(s.book.movements, i, |s.book.movements|);
    forall r <- Reversals(s.book.movements, i, |s.book.movements|) ensures !r.kind.CashbackPaidOut? {
      assert MovementOk(s.book.movements, s.book.invoices, s.book.movements[r.reversalOf.value]);
    }
  }

  lemma StepKeepsPayoutsUnique(s: System, a: Action)
    requires Inv(s) && PayoutsUnique(s.book.movements) && Respond(s.book, a).Committed?
    ensures PayoutsUnique(Step(s, a).book.movements)
  {
    var was, now := s.book.movements, Step(s, a).book.movements;
    if a.VoidOrder? {
      match FindInvoice(s.book.invoices, a.o) {
        case Some(i) => ReversalsAreNoPayouts(s, i); NonPayoutsKeepUnique(was, Reversals(was, i, |was|));
        case None =>
      }
    } else if a.PayOut? {
      forall i, j | 0 <= i < j < |now| && now[j].kind.CashbackPaidOut?
        ensures !IsPayout(now[i], now[j].company, now[j].reference)
      {
        if j == |was| { assert was[i] in was; }
      }
    } else if !a.Confirm? {
      assert now == was + now[|was|..];
      NonPayoutsKeepUnique(was, now[|was|..]);
    }
  }

  /** Over every run no two payouts to one company carry the same reference. */
  lemma {:induction false} PayoutReferencesNeverRepeat(s: System, actions: seq<Action>)
    requires Initial(s)
    ensures PayoutsUnique(Run(s, actions).book.movements)
  {
    if actions != [] {
      var before, a := Run(s, actions[..|actions| - 1]), actions[|actions| - 1];
      PayoutReferencesNeverRepeat(s, actions[..|actions| - 1]);
      RunKeeps(s, actions[..|actions| - 1]);
      if Respond(before.book, a).Committed? { StepKeepsPayoutsUnique(before, a); }
    }
  }

  // ---------- cashback is credited once ----------

  function CashbackEntry(i: nat): Movement -> int {
    (m: Movement) => if m.source == Some(i) && m.kind.CashbackCredited? then 1 else 0
  }

  ghost predicate CreditedOnce(s: System) {
    forall i :: 0 <= i < |s.book.invoices| ==> Sum(s.book.movements, CashbackEntry(i)) <= 1
  }

  lemma NoEntryBeforeSettlement(s: System, i: nat)
    requires Inv(s) && (i < |s.book.invoices| ==> !s.book.invoices[i].state.Settled?)
    ensures Sum(s.book.movements, CashbackEntry(i)) == 0
  {
    forall m <- s.book.movements ensures CashbackEntry(i)(m) == 0 {
      assert MovementOk(s.book.movements, s.book.invoices, m);
    }
    SumZero(s.book.movements, CashbackEntry(i));
  }

  /** Appending entries that credit nothing to `i` leaves its count. */
  lemma CountUnchanged(movements: seq<Movement>, added: seq<Movement>, i: nat)
    requires forall m <- added :: CashbackEntry(i)(m) == 0
    ensures Sum(movements + added, CashbackEntry(i)) == Sum(movements, CashbackEntry(i))
  {
    SumConcat(movements, added, CashbackEntry(i));
    SumZero(added, CashbackEntry(i));
  }

  lemma StepCreditsOnce(s: System, a: Action)
    requires Inv(s) && CreditedOnce(s)
    ensures CreditedOnce(Step(s, a))
  {
    StepKeeps(s, a);
    var t := Step(s, a);
    forall i | 0 <= i < |t.book.invoices| ensures Sum(t.book.movements, CashbackEntry(i)) <= 1 {
      if i >= |s.book.invoices| {
        NoEntryBeforeSettlement(t, i);
      } else if a.Confirm? {
        ConfirmCreditsNothing(s, a, i);
      } else if a.SettleOrder? && FindInvoice(s.book.invoices, a.o) == Some(i) {
        SettleCreditsOnce(s, a, i);
      } else {
        StepAddsNothing(s, a, i);
      }
    }
  }

  lemma ConfirmCreditsNothing(s: System, a: Action, i: nat)
    requires a.Confirm?
    ensures Sum(Step(s, a).book.movements, CashbackEntry(i)) == Sum(s.book.movements, CashbackEntry(i))
  {
    var was, now := s.book.movements, Step(s, a).book.movements;
    if Respond(s.book, a).Committed? { SumUpdate(was, a.movement, now[a.movement], CashbackEntry(i)); }
  }

  lemma SettleCreditsOnce(s: System, a: Action, i: nat)
    requires Inv(s) && CreditedOnce(s) && a.SettleOrder? && FindInvoice(s.book.invoices, a.o) == Some(i)
    ensures Sum(Step(s, a).book.movements, CashbackEntry(i)) <= 1
  {
    var was, inv := s.book.movements, s.book.invoices[i];
    var earned := CashbackFor(s.book.cashbackProgramme, inv.company, inv.amount);
    if inv.state.Issued? && earned > 0 {
      NoEntryBeforeSettlement(s, i);
      SumPush(was, Movement(inv.company, CashbackCredited, earned, Confirmed, Some(i), None, None), CashbackEntry(i));
    } else {
      assert was + [] == was;
    }
  }

  lemma StepAddsNothing(s: System, a: Action, i: nat)
    requires Inv(s) && !a.Confirm? && i < |s.book.invoices|
    requires a.SettleOrder? ==> FindInvoice(s.book.invoices, a.o) != Some(i)
    ensures Sum(Step(s, a).book.movements, CashbackEntry(i)) == Sum(s.book.movements, CashbackEntry(i))
  {
    var t := Step(s, a);
    var n := |s.book.movements|;
    assert t.book.movements == s.book.movements + t.book.movements[n..];
    if a.VoidOrder? {
      match FindInvoice(s.book.invoices, a.o) {
        case Some(k) =>
          ReversalsShape(s.book.movements, k, n);
          forall m <- Reversals(s.book.movements, k, n) | s.book.invoices[k].state.Issued?
            ensures CashbackEntry(i)(m) == 0
          {
            assert MovementOk(s.book.movements, s.book.invoices, s.book.movements[m.reversalOf.value]);
          }
        case None =>
      }
    }
    CountUnchanged(s.book.movements, t.book.movements[n..], i);
  }

  /** However often it is settled, an invoice is credited at most one cashback entry. */
  lemma {:induction false} CashbackCreditedAtMostOnce(s: System, actions: seq<Action>)
    requires Initial(s)
    ensures CreditedOnce(Run(s, actions))
  {
    if actions != [] {
      CashbackCreditedAtMostOnce(s, actions[..|actions| - 1]);
      RunKeeps(s, actions[..|actions| - 1]);
      StepCreditsOnce(Run(s, actions[..|actions| - 1]), actions[|actions| - 1]);
    }
  }
}
