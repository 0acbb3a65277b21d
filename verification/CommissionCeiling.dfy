/** The commission ceiling (src/modules/billing/billing.service.ts, `assertUnderCeiling`): what it
    refuses, and how far a company's net commission owed can still pass it. */
module CommissionCeiling {
  import opened Options
  import opened Sums
  import opened Ledger
  import opened LedgerProofs
  import opened LedgerHistory

  // ---------- what is refused ----------

  /** The figures a company is shown never disagree with what blocks it: an issue is refused for the
      ceiling exactly when the exceeded flag is up, the method is not DIRECT and the credit check
      before it passed; and a warning always comes first. */
  lemma CeilingFlagPredictsRefusal(b: Book, o: OrderId, c: CompanyId, client: ClientId, pm: PaymentMethod, amount: nat)
    ensures Issue(b, o, c, client, pm, amount) == Refused(CommissionCeilingExceeded) <==>
      && BalancesFor(b, c).exceeded && !pm.Direct?
      && (pm.Credit? ==> client in b.creditLimits && amount <= AvailableCredit(b, client))
    ensures BalancesFor(b, c).exceeded && Ceiling(b, c) > 0 ==> BalancesFor(b, c).warning
  {
    var owed, ceiling := NetCommissionOwed(b.movements, c), Ceiling(b, c);
    if owed > ceiling {
      assert owed as real > ceiling as real;
      assert ceiling as real * 0.9 <= ceiling as real;
    }
  }

  // ---------- commission by payment method ----------

  function GatedDue(c: CompanyId): Line -> int {
    (l: Line) =>
      if l.invoice.company == c && !l.invoice.paymentMethod.Direct? && !l.invoice.state.Void? then l.commission else 0
  }

  function DirectDue(c: CompanyId): Line -> int {
    (l: Line) =>
      if l.invoice.company == c && l.invoice.paymentMethod.Direct? && !l.invoice.state.Void? then l.commission else 0
  }

  lemma {:induction false} DueSplits(audit: seq<Line>, c: CompanyId)
    ensures Sum(audit, CommissionDue(c)) == Sum(audit, GatedDue(c)) + Sum(audit, DirectDue(c))
    ensures Sum(audit, DirectDue(c)) >= 0
  {
    if audit != [] { DueSplits(audit[..|audit| - 1], c); }
  }

  /** Net commission owed, read from the auditor's record instead of the movements. */
  lemma NetIsAudited(s: System, c: CompanyId)
    requires Inv(s)
    ensures NetCommissionOwed(s.book.movements, c)
         == Sum(s.audit, GatedDue(c))
             + Sum(s.audit, DirectDue(c)) - ConfirmedBalance(s.book.movements, c, PaymentRecorded)
    ensures Sum(s.audit, DirectDue(c)) >= 0
  {
    assert CompanyAgrees(s, c);
    DueSplits(s.audit, c);
  }

  ghost predicate IssuesGated(s: System, a: Action, c: CompanyId) {
    a.IssueFor? && a.c == c && !a.pm.Direct? && Respond(s.book, a).Committed?
  }

  /** Only a gated issue raises what is due on the company's gated invoices, by its own commission. */
  lemma StepGatedDue(s: System, a: Action, c: CompanyId)
    requires AuditMatches(s)
    ensures Sum(Step(s, a).audit, GatedDue(c))
         <= Sum(s.audit, GatedDue(c))
             + (if IssuesGated(s, a, c) then CommissionFor(s.book.commissionTerm, a.amount) else 0)
  {
    if Respond(s.book, a).Committed? && a.IssueFor? {
      SumPush(s.audit, Step(s, a).audit[|s.audit|], GatedDue(c));
    } else if Respond(s.book, a).Committed? && (a.SettleOrder? || a.VoidOrder?) {
      SumDominated(Step(s, a).audit, s.audit, GatedDue(c));
    }
  }

  // ---------- how far the ceiling is overshot ----------

  /** No gated invoice of the company was charged more than this. */
  ghost predicate GatedCommissionsAtMost(audit: seq<Line>, c: CompanyId, most: nat) {
    forall l <- audit :: l.invoice.company == c && !l.invoice.paymentMethod.Direct? ==> l.commission <= most
  }

  /** The company's ceiling was never above this during the run. */
  ghost predicate CeilingAtMost(s: System, actions: seq<Action>, c: CompanyId, top: nat) {
    forall n :: 0 <= n <= |actions| ==> Ceiling(Run(s, actions[..n]).book, c) <= top
  }

  /** The auditor's lines only ever change their state and cashback. */
  lemma StepKeepsCommissions(s: System, a: Action, c: CompanyId, most: nat)
    requires GatedCommissionsAtMost(Step(s, a).audit, c, most)
    ensures GatedCommissionsAtMost(s.audit, c, most)
  {
    var t := Step(s, a);
    forall i | 0 <= i < |s.audit|
      ensures s.audit[i].invoice.company == c && !s.audit[i].invoice.paymentMethod.Direct?
          ==> s.audit[i].commission <= most
    {
      assert i < |t.audit| && t.audit[i] in t.audit;
      assert t.audit[i].commission == s.audit[i].commission
          && t.audit[i].invoice == s.audit[i].invoice.(state := t.audit[i].invoice.state);
    }
  }

  /** A gated issue goes through only at or under the ceiling, and its commission counts among the gated ones. */
  lemma GatedIssue(s: System, a: Action, c: CompanyId, most: nat)
    requires IssuesGated(s, a, c) && GatedCommissionsAtMost(Step(s, a).audit, c, most)
    ensures NetCommissionOwed(s.book.movements, c) <= Ceiling(s.book, c)
    ensures CommissionFor(s.book.commissionTerm, a.amount) <= most
  {
    assert Step(s, a).audit[|s.audit|] in Step(s, a).audit;
  }

  /** What is due on gated invoices, less what was paid, never passes the ceiling by more than one
      gated commission: a gated issue goes through only at or under the ceiling, and nothing else
      raises it. */
  lemma StepOvershoot(s: System, a: Action, c: CompanyId, top: nat, most: nat)
    requires Inv(s) && Ceiling(s.book, c) <= top && GatedCommissionsAtMost(Step(s, a).audit, c, most)
    requires NetCommissionOwed(s.book.movements, c) <= top + most + Sum(s.audit, DirectDue(c))
    ensures NetCommissionOwed(Step(s, a).book.movements, c) <= top + most + Sum(Step(s, a).audit, DirectDue(c))
  {
    StepKeeps(s, a);
    NetIsAudited(s, c);
    NetIsAudited(Step(s, a), c);
    StepPays(s, a, c);
    StepGatedDue(s, a, c);
    if IssuesGated(s, a, c) { GatedIssue(s, a, c, most); }
  }

  /** Over every run, whatever the mix of payment methods, settlements, voids and payments, net
      commission owed never exceeds the highest ceiling in force by more than the largest gated
      commission plus the commissions of the company's own DIRECT invoices that are not void. */
  lemma {:induction false} OvershootIsOneCommissionAndDirect(s: System, actions: seq<Action>, c: CompanyId, top: nat,
                                                             most: nat)
    requires Initial(s) && CeilingAtMost(s, actions, c, top)
    requires GatedCommissionsAtMost(Run(s, actions).audit, c, most)
    ensures NetCommissionOwed(Run(s, actions).book.movements, c) <= top + most
        + Sum(Run(s, actions).audit, DirectDue(c))
  {
    if actions != [] {
      var before, a := actions[..|actions| - 1], actions[|actions| - 1];
      StepKeepsCommissions(Run(s, before), a, c, most);
      forall n | 0 <= n <= |before| ensures Ceiling(Run(s, before[..n]).book, c) <= top {
        assert before[..n] == actions[..n];
      }
      assert before[..|before|] == before;
      OvershootIsOneCommissionAndDirect(s, before, c, top, most);
      RunKeeps(s, before);
      StepOvershoot(Run(s, before), a, c, top, most);
    }
  }

  // ---------- the two ends of the bound ----------

  ghost predicate NoDirectIssue(actions: seq<Action>, c: CompanyId) {
    forall a <- actions :: a.IssueFor? && a.c == c ==> !a.pm.Direct?
  }

  ghost predicate AllGated(audit: seq<Line>, c: CompanyId) {
    forall l <- audit :: l.invoice.company == c ==> !l.invoice.paymentMethod.Direct?
  }

  lemma StepAddsNoDirectLine(s: System, a: Action, c: CompanyId)
    requires AllGated(s.audit, c) && (a.IssueFor? && a.c == c ==> !a.pm.Direct?)
    ensures AllGated(Step(s, a).audit, c)
  {
    var was, now := s.audit, Step(s, a).audit;
    forall i | 0 <= i < |now| ensures now[i].invoice.company == c ==> !now[i].invoice.paymentMethod.Direct? {
      if i < |was| { assert was[i] in was && now[i].invoice == was[i].invoice.(state := now[i].invoice.state); }
    }
  }

  lemma {:induction false} NoDirectLines(s: System, actions: seq<Action>, c: CompanyId)
    requires Initial(s) && NoDirectIssue(actions, c)
    ensures AllGated(Run(s, actions).audit, c)
    ensures Sum(Run(s, actions).audit, DirectDue(c)) == 0
  {
    if actions != [] {
      var before, a := actions[..|actions| - 1], actions[|actions| - 1];
      NoDirectLines(s, before, c);
      assert a in actions;
      StepAddsNoDirectLine(Run(s, before), a, c);
    }
    SumZero(Run(s, actions).audit, DirectDue(c));
  }

  lemma {:induction false} CeilingStandsStill(s: System, actions: seq<Action>, c: CompanyId)
    requires forall a <- actions :: a.SetCeiling? ==> a.c != c
    ensures Ceiling(Run(s, actions).book, c) == Ceiling(s.book, c)
  {
    if actions != [] {
      var before, a := actions[..|actions| - 1], actions[|actions| - 1];
      CeilingStandsStill(s, before, c);
      assert a in actions;
      StepLeavesCeiling(Run(s, before), a, c);
    }
  }

  lemma StepLeavesCeiling(s: System, a: Action, c: CompanyId)
    requires a.SetCeiling? ==> a.c != c
    ensures Ceiling(Step(s, a).book, c) == Ceiling(s.book, c)
  {
  }

  /** A company with no DIRECT issue of its own, under a ceiling left alone, never owes more than the
      ceiling plus the largest single commission charged to it. */
  lemma CeilingOvershootIsOneCommission(s: System, actions: seq<Action>, c: CompanyId, most: nat)
    requires Initial(s) && NoDirectIssue(actions, c) && forall a <- actions :: a.SetCeiling? ==> a.c != c
    requires GatedCommissionsAtMost(Run(s, actions).audit, c, most)
    ensures NetCommissionOwed(Run(s, actions).book.movements, c) <= Ceiling(s.book, c) + most
  {
    forall n | 0 <= n <= |actions| ensures Ceiling(Run(s, actions[..n]).book, c) == Ceiling(s.book, c) {
      CeilingStandsStill(s, actions[..n], c);
    }
    NoDirectLines(s, actions, c);
    OvershootIsOneCommissionAndDirect(s, actions, c, Ceiling(s.book, c), most);
  }

  /** The bound is attained, whatever the two commissions: a company owing nothing under a ceiling of 0
      has a DEFERRED order let through, then a DIRECT one although the ceiling is passed. */
  lemma DirectInvoicesEscapeTheCeiling(s: System, most: nat, direct: nat)
    requires Initial(s) && Ceiling(s.book, 7) == 0 && s.book.commissionTerm == Some(Rate(PerUnit, 1.0))
    ensures var t := Run(s, [IssueFor(1, 7, 9, Deferred, most), IssueFor(2, 7, 9, Direct, direct)]);
      && GatedCommissionsAtMost(t.audit, 7, most) && Sum(t.audit, DirectDue(7)) == direct
      && NetCommissionOwed(t.book.movements, 7) == Ceiling(t.book, 7) + most + Sum(t.audit, DirectDue(7))
  {
    TwoIssues(s, most, direct);
    var l1, l2 := LineOf(1, Deferred, most), LineOf(2, Direct, direct);
    SumPush([] + [l1], l2, DirectDue(7));
    SumPush([], l1, DirectDue(7));
  }

  function LineOf(o: OrderId, pm: PaymentMethod, amount: nat): Line {
    Line(Invoice(o, 7, 9, pm, amount, Issued), amount, 0)
  }

  /** Company 7, under a ceiling of 0 and charged whole amounts, has these lines and owes this much. */
  ghost predicate Owing(s: System, lines: seq<Line>, owed: int) {
    && Inv(s) && s.book.commissionTerm == Some(Rate(PerUnit, 1.0)) && Ceiling(s.book, 7) == 0
    && s.audit == lines && NetCommissionOwed(s.book.movements, 7) == owed
  }

  /** An order of company 7 that the ceiling lets through. */
  lemma IssuePasses(s: System, lines: seq<Line>, owed: int, o: OrderId, pm: PaymentMethod, amount: nat)
    requires Owing(s, lines, owed) && forall l <- lines :: l.invoice.orderId != o
    requires pm.Direct? || (pm.Deferred? && owed <= 0)
    ensures Owing(Step(s, IssueFor(o, 7, 9, pm, amount)), lines + [LineOf(o, pm, amount)], owed + amount)
  {
    forall i | 0 <= i < |s.book.invoices| ensures s.book.invoices[i].orderId != o { assert s.audit[i] in s.audit; }
    UnitCommission(amount);
    StepKeeps(s, IssueFor(o, 7, 9, pm, amount));
    AccrualChanges(s.book.movements, 7, CommissionCharged, amount, |s.book.invoices|);
  }

  lemma NothingOwed(s: System)
    requires Initial(s) && Ceiling(s.book, 7) == 0 && s.book.commissionTerm == Some(Rate(PerUnit, 1.0))
    ensures Owing(s, [], 0)
  {
    InitialInv(s);
  }

  lemma TwoIssues(s: System, first: nat, second: nat)
    requires Initial(s) && Ceiling(s.book, 7) == 0 && s.book.commissionTerm == Some(Rate(PerUnit, 1.0))
    ensures Owing(Run(s, [IssueFor(1, 7, 9, Deferred, first), IssueFor(2, 7, 9, Direct, second)]),
                  [] + [LineOf(1, Deferred, first)] + [LineOf(2, Direct, second)], first + second)
  {
    var a, b := IssueFor(1, 7, 9, Deferred, first), IssueFor(2, 7, 9, Direct, second);
    NothingOwed(s);
    IssuePasses(s, [], 0, 1, Deferred, first);
    IssuePasses(Step(s, a), [] + [LineOf(1, Deferred, first)], first, 2, Direct, second);
    RunOfTwo(s, a, b);
  }

  lemma RunOfTwo(s: System, a: Action, b: Action)
    ensures Run(s, [a, b]) == Step(Step(s, a), b)
  {
    assert [a, b][..1] == [a] && [a][..0] == [];
    assert Run(s, [a]) == Step(s, a);
  }

  lemma UnitCommission(amount: nat)
    ensures CommissionFor(Some(Rate(PerUnit, 1.0)), amount) == amount
  {
  }
}
