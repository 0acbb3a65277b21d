/** What a company sees and does on its platform account: settings, payments, payouts and the balances shown
    (src/modules/billing/billing.service.ts, src/modules/platform-account/platform-account.service.ts). */
module Account {
  import opened Options
  import opened Sums
  import opened Ledger
  import opened LedgerProofs
  import opened LedgerHistory

  // ---------- settings ----------

  function LastTerm(actions: seq<Action>, start: Option<Rate>): Option<Rate> {
    if actions == [] then start
    else
      var a := actions[|actions| - 1];
      if a.SetTerm? then Some(a.term) else LastTerm(actions[..|actions| - 1], start)
  }

  function LastProgramme(actions: seq<Action>, start: Option<Programme>): Option<Programme> {
    if actions == [] then start
    else
      var a := actions[|actions| - 1];
      if a.SetProgramme? then Some(a.programme) else LastProgramme(actions[..|actions| - 1], start)
  }

  function LastCeiling(actions: seq<Action>, c: CompanyId, start: nat): nat {
    if actions == [] then start
    else
      var a := actions[|actions| - 1];
      if a.SetCeiling? && a.c == c then a.ceiling else LastCeiling(actions[..|actions| - 1], c, start)
  }

  function LastLimit(actions: seq<Action>, client: ClientId, start: Option<nat>): Option<nat> {
    if actions == [] then start
    else
      var a := actions[|actions| - 1];
      if a.SetCreditLimit? && a.client == client then Some(a.limit)
      else LastLimit(actions[..|actions| - 1], client, start)
  }

  function LimitOf(b: Book, client: ClientId): Option<nat> {
    if client in b.creditLimits then Some(b.creditLimits[client]) else None
  }

  lemma StepSettings(s: System, a: Action, c: CompanyId, client: ClientId)
    ensures var was, now := s.book, Step(s, a).book;
      && now.commissionTerm == (if a.SetTerm? then Some(a.term) else was.commissionTerm)
      && now.cashbackProgramme == (if a.SetProgramme? then Some(a.programme) else was.cashbackProgramme)
      && Ceiling(now, c) == (if a.SetCeiling? && a.c == c then a.ceiling else Ceiling(was, c))
      && LimitOf(now, client)
           == (if a.SetCreditLimit? && a.client == client then Some(a.limit) else LimitOf(was, client))
  {
  }

  /** Over every run the term, the programme, each company's ceiling and each client's limit in force are the
      ones set last. */
  lemma {:induction false} SettingsAreTheLastSet(s: System, actions: seq<Action>, c: CompanyId, client: ClientId)
    ensures var b := Run(s, actions).book;
      && b.commissionTerm == LastTerm(actions, s.book.commissionTerm)
      && b.cashbackProgramme == LastProgramme(actions, s.book.cashbackProgramme)
      && Ceiling(b, c) == LastCeiling(actions, c, Ceiling(s.book, c))
      && LimitOf(b, client) == LastLimit(actions, client, LimitOf(s.book, client))
  {
    if actions != [] {
      var init := actions[..|actions| - 1];
      SettingsAreTheLastSet(s, init, c, client);
      StepSettings(Run(s, init), actions[|actions| - 1], c, client);
    }
  }

  /** A company the operator has set no ceiling for has the platform's own. */
  lemma CeilingDefaults(b: Book, c: CompanyId)
    ensures c !in b.ceilings ==> Ceiling(b, c) == b.defaultCeiling
    ensures c in b.ceilings ==> Ceiling(b, c) == b.ceilings[c]
  {
  }

  // ---------- the balances shown ----------

  /** Over every run the figures shown to a company are what the auditor holds: commissions of its non-void
      invoices less its confirmed payments, and cashback of its settled ones; the warning is up from nine
      tenths of a ceiling that is not 0, and the exceeded flag only beyond the ceiling. */
  lemma BalancesAreAudited(s: System, actions: seq<Action>, c: CompanyId)
    requires Initial(s)
    ensures var t := Run(s, actions);
            var shown := BalancesFor(t.book, c);
      && shown.commissionAccrued == Sum(t.audit, CommissionDue(c)) - PaidOver(s, actions, c)
      && shown.cashbackAccrued == Sum(t.audit, CashbackDue(c))
      && shown.ceiling == LastCeiling(actions, c, Ceiling(s.book, c))
      && (shown.warning <==> shown.ceiling > 0 && 10 * shown.commissionAccrued >= 9 * shown.ceiling)
      && (shown.exceeded <==> shown.commissionAccrued > shown.ceiling)
  {
    BooksAgreeWithAudit(s, actions, c);
    PaymentCountsOnce(s, actions, 0, c);
    SettingsAreTheLastSet(s, actions, c, 0);
    WarningThreshold(BalancesFor(Run(s, actions).book, c).commissionAccrued, Ceiling(Run(s, actions).book, c));
  }

  lemma WarningThreshold(owed: int, ceiling: nat)
    ensures owed as real >= ceiling as real * 0.9 <==> 10 * owed >= 9 * ceiling
  {
    assert (10 * owed) as real == 10.0 * owed as real && (9 * ceiling) as real == 9.0 * ceiling as real;
  }

  // ---------- paying and being paid ----------

  /** A payment is recorded exactly when it carries a reference or a document. Recording it moves no balance;
      confirming it lowers what that company owes by its amount, and moves nothing else. */
  lemma PaymentLowersOwed(b: Book, c: CompanyId, amount: nat, reference: Option<string>, hasDocument: bool)
    ensures var recorded := RecordPayment(b, c, amount, reference, hasDocument);
      && (recorded.Refused? <==> !hasDocument && (reference == None || reference == Some("")))
      && (recorded.Refused? ==> recorded.why == PaymentEvidenceRequired)
      && (recorded.Committed? ==>
            var confirmed := ConfirmPayment(recorded.book, |b.movements|);
            && confirmed.Committed?
            && recorded.book == b.(movements := recorded.book.movements)
            && confirmed.book == b.(movements := confirmed.book.movements)
            && (forall d: CompanyId ::
                  && NetCommissionOwed(recorded.book.movements, d) == NetCommissionOwed(b.movements, d)
                  && NetCommissionOwed(confirmed.book.movements, d)
                     == NetCommissionOwed(b.movements, d) - (if d == c then amount else 0)
                  && CashbackOwed(confirmed.book.movements, d) == CashbackOwed(b.movements, d)))
  {
    var m := Movement(c, PaymentRecorded, amount, Recorded, None, None, reference);
    PushChanges(b.movements, m);
    ConfirmChanges(b.movements + [m], |b.movements|);
  }

  /** A payout goes through exactly when it is covered and its reference is new for the company. It lowers
      what that company is owed by its amount, and moves nothing else. */
  lemma PayoutLowersOwed(b: Book, c: CompanyId, amount: nat, reference: string)
    ensures var reply := RecordCashbackPayout(b, c, amount, reference);
      && (reply.Committed? <==>
            && amount <= CashbackOwed(b.movements, c)
            && forall m <- b.movements :: !IsPayout(m, c, Some(reference)))
      && (reply.Refused? ==>
            reply.why
              == if amount > CashbackOwed(b.movements, c) then PayoutExceedsBalance else PayoutDuplicateReference)
      && (reply.Committed? ==>
            && reply.book == b.(movements := reply.book.movements)
            && (forall d: CompanyId ::
                  && CashbackOwed(reply.book.movements, d)
                       == CashbackOwed(b.movements, d) - (if d == c then amount else 0)
                  && NetCommissionOwed(reply.book.movements, d) == NetCommissionOwed(b.movements, d)))
  {
    PushChanges(b.movements, Movement(c, CashbackPaidOut, amount, Confirmed, None, None, Some(reference)));
    forall m <- b.movements
      ensures IsPayout(m, c, Some(reference)) ==> PayoutReferenceTaken(b.movements, c, reference)
    {}
  }
}
