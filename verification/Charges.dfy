/** What an invoice is charged and what it earns (src/modules/billing/billing.service.ts, `computeAmount`,
    `accrueCommission` and `accrueCashback`), said without the code's own arithmetic. */
module Charges {
  import opened Options
  import opened Rounding
  import opened Ledger
  import LedgerProofs

  /** The figure is the invoice's share under the rate, to the nearest halala, halves upward: a percentage
      of the amount, or the rate itself for each unit of it. */
  predicate IsShare(r: Rate, amount: nat, figure: int) {
    match r.basis
    case Percentage => 100.0 * figure as real - 50.0 <= amount as real * r.rate < 100.0 * figure as real + 50.0
    case PerUnit => figure as real - 0.5 <= amount as real * r.rate < figure as real + 0.5
  }

  /** Nothing is charged or earned when the share comes to nothing, or less. */
  predicate IsCharge(r: Rate, amount: nat, figure: nat) {
    IsShare(r, amount, figure) || (figure == 0 && amount as real * r.rate < 0.0)
  }

  predicate CommissionOf(term: Option<Rate>, amount: nat, figure: nat) {
    match term case None => figure == 0 case Some(r) => IsCharge(r, amount, figure)
  }

  /** Only a company an active programme is for earns cashback. */
  predicate Earns(p: Option<Programme>, c: CompanyId) {
    p.Some? && p.value.isActive && (p.value.targetsAllCompanies || c in p.value.targets)
  }

  predicate CashbackOf(p: Option<Programme>, c: CompanyId, amount: nat, figure: nat) {
    if Earns(p, c) then IsCharge(p.value.rate, amount, figure) else figure == 0
  }

  // ---------- the code's figures ----------

  lemma AmountIsShare(r: Rate, amount: nat)
    ensures IsShare(r, amount, ComputeAmount(r, amount))
  {
    match r.basis {
      case Percentage =>
        var exact, figure := amount as real * r.rate / 100.0, ComputeAmount(r, amount);
        assert exact - 0.5 < figure as real <= exact + 0.5;
        assert exact * 100.0 == amount as real * r.rate;
      case PerUnit =>
    }
  }

  lemma ShareIsCharge(r: Rate, amount: nat)
    ensures IsCharge(r, amount, if ComputeAmount(r, amount) > 0 then ComputeAmount(r, amount) else 0)
  {
    AmountIsShare(r, amount);
  }

  lemma CommissionIsCharged(term: Option<Rate>, amount: nat)
    ensures CommissionOf(term, amount, CommissionFor(term, amount))
  {
    if term.Some? { ShareIsCharge(term.value, amount); }
  }

  lemma CashbackIsEarned(p: Option<Programme>, c: CompanyId, amount: nat)
    ensures CashbackOf(p, c, amount, CashbackFor(p, c, amount))
  {
    if p.Some? { ShareIsCharge(p.value.rate, amount); }
  }

  // ---------- over runs ----------

  /** Request `n` issued the line's invoice, under the commission term in force then. */
  ghost predicate IssuedAt(s: System, actions: seq<Action>, n: nat, l: Line) {
    && n < |actions| && actions[n].IssueFor?
    && var a, before := actions[n], Run(s, actions[..n]).book;
       && Respond(before, a).Committed?
       && l.invoice == Invoice(a.o, a.c, a.client, a.pm, a.amount, l.invoice.state)
       && CommissionOf(before.commissionTerm, a.amount, l.commission)
  }

  /** Request `n` settled it, under the cashback programme in force then. */
  ghost predicate SettledAt(s: System, actions: seq<Action>, n: nat, l: Line) {
    && n < |actions| && actions[n] == SettleOrder(l.invoice.orderId)
    && CashbackOf(Run(s, actions[..n]).book.cashbackProgramme, l.invoice.company, l.invoice.amount, l.cashback)
  }

  ghost predicate WasIssued(s: System, actions: seq<Action>, l: Line) { exists n: nat :: IssuedAt(s, actions, n, l) }
  ghost predicate WasSettled(s: System, actions: seq<Action>, l: Line) { exists n: nat :: SettledAt(s, actions, n, l) }

  ghost predicate Explained(s: System, actions: seq<Action>, l: Line) {
    WasIssued(s, actions, l) && (if l.invoice.state == Settled then WasSettled(s, actions, l) else l.cashback == 0)
  }

  /** A line stays explained as the run goes on, in whatever state its invoice is. */
  lemma IssueStays(s: System, actions: seq<Action>, a: Action, l: Line, later: Line)
    requires WasIssued(s, actions, l)
    requires later.commission == l.commission && later.invoice == l.invoice.(state := later.invoice.state)
    ensures WasIssued(s, actions + [a], later)
  {
    var n: nat :| IssuedAt(s, actions, n, l);
    assert (actions + [a])[..n] == actions[..n];
    assert IssuedAt(s, actions + [a], n, later);
  }

  lemma SettlementStays(s: System, actions: seq<Action>, a: Action, l: Line)
    requires WasSettled(s, actions, l)
    ensures WasSettled(s, actions + [a], l)
  {
    var n: nat :| SettledAt(s, actions, n, l);
    assert (actions + [a])[..n] == actions[..n];
    assert SettledAt(s, actions + [a], n, l);
  }

  lemma NewLine(s: System, actions: seq<Action>, a: Action)
    requires a.IssueFor? && Respond(Run(s, actions).book, a).Committed?
    ensures var t := Run(s, actions);
            Explained(s, actions + [a], AuditOf(t, a)[|t.audit|])
  {
    var t := Run(s, actions);
    assert (actions + [a])[..|actions|] == actions;
    CommissionIsCharged(t.book.commissionTerm, a.amount);
    assert IssuedAt(s, actions + [a], |actions|, AuditOf(t, a)[|t.audit|]);
  }

  lemma MovedLine(s: System, actions: seq<Action>, a: Action, i: nat)
    requires LedgerProofs.AuditMatches(Run(s, actions)) && i < |Run(s, actions).audit|
    requires Explained(s, actions, Run(s, actions).audit[i]) && Respond(Run(s, actions).book, a).Committed?
    ensures Explained(s, actions + [a], AuditOf(Run(s, actions), a)[i])
  {
    var t := Run(s, actions);
    var was, now := t.audit[i], AuditOf(t, a)[i];
    assert (actions + [a])[..|actions|] == actions;
    IssueStays(s, actions, a, was, now);
    if was == now {
      if was.invoice.state == Settled { SettlementStays(s, actions, a, was); }
    } else if a.SettleOrder? {
      CashbackIsEarned(t.book.cashbackProgramme, was.invoice.company, was.invoice.amount);
      assert SettledAt(s, actions + [a], |actions|, now);
    }
  }

  lemma KeptLine(s: System, actions: seq<Action>, a: Action, l: Line)
    requires Explained(s, actions, l)
    ensures Explained(s, actions + [a], l)
  {
    IssueStays(s, actions, a, l, l);
    if l.invoice.state == Settled { SettlementStays(s, actions, a, l); }
  }

  /** Over every run, each line of the auditor's record was issued by a request of the run and carries the
      commission due under the term in force then; a settled one was settled by a request of the run and
      carries the cashback due under the programme in force then; and no other carries any. */
  lemma {:induction false} LinesAreExplained(s: System, actions: seq<Action>)
    requires Initial(s)
    ensures forall l <- Run(s, actions).audit :: Explained(s, actions, l)
  {
    if actions != [] {
      var init, a := actions[..|actions| - 1], actions[|actions| - 1];
      var t, u := Run(s, init), Run(s, actions);
      LinesAreExplained(s, init);
      LedgerProofs.RunKeeps(s, init);
      assert init + [a] == actions;
      forall i | 0 <= i < |u.audit| ensures Explained(s, actions, u.audit[i]) {
        if i < |t.audit| { assert t.audit[i] in t.audit; }
        if Respond(t.book, a).Refused? {
          KeptLine(s, init, a, t.audit[i]);
        } else if i < |t.audit| {
          MovedLine(s, init, a, i);
        } else {
          NewLine(s, init, a);
        }
      }
    }
  }
}
