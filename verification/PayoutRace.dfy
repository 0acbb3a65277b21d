/** Concurrent cashback payouts (src/modules/platform-account/platform-account.service.ts,
    `recordCashbackPayout`). A payout re-reads what is owed inside its transaction, on the snapshot
    taken when it began, and then only inserts: two of them write no document in common, so neither
    aborts the other. The one thing compared at commit is the unique payout reference. */
module PayoutRace {
  import opened Options
  import opened Sums
  import opened Ledger

  type TxId = nat
  datatype Payout = Payout(c: CompanyId, amount: nat, reference: string)
  datatype Tx = Tx(payout: Payout, snapshot: seq<Movement>)
  datatype State = State(movements: seq<Movement>, open: map<TxId, Tx>)

  datatype Event =
    | Accrue(c: CompanyId, amount: nat, invoice: nat)
    | Begin(id: TxId, payout: Payout)
    | Commit(id: TxId)
    | Abort(id: TxId)

  function Entry(p: Payout): Movement {
    Movement(p.c, CashbackPaidOut, p.amount, Confirmed, None, None, Some(p.reference))
  }

  /** The check inside the transaction reads the snapshot; the unique index is the database's own. */
  ghost predicate CommitOk(tx: Tx, now: seq<Movement>) {
    tx.payout.amount <= CashbackOwed(tx.snapshot, tx.payout.c)
        && !PayoutReferenceTaken(now, tx.payout.c, tx.payout.reference)
  }

  ghost function Next(s: State, e: Event): State {
    match e
    case Accrue(c, amount, invoice) => s.(movements := s.movements + Accrual(c, CashbackCredited, amount, invoice))
    case Begin(id, payout) => if id in s.open then s else s.(open := s.open[id := Tx(payout, s.movements)])
    case Commit(id) =>
      if id !in s.open then s
      else if CommitOk(s.open[id], s.movements) then State(s.movements + [Entry(s.open[id].payout)], s.open - {id})
      else s.(open := s.open - {id})
    case Abort(id) => s.(open := s.open - {id})
  }

  ghost function Run(s: State, events: seq<Event>): State {
    if events == [] then s else Next(Run(s, events[..|events| - 1]), events[|events| - 1])
  }

  const START := State([], map[])

  ghost function PaidOut(movements: seq<Movement>, c: CompanyId): int {
    ConfirmedBalance(movements, c, CashbackPaidOut)
  }

  // ---------- how far owed can fall below zero ----------

  /** Only unreversed credits and payouts are ever entered. */
  ghost predicate OnlyGrows(movements: seq<Movement>) { forall m <- movements :: m.reversalOf.None? }

  ghost predicate Inv(s: State) {
    OnlyGrows(s.movements) && forall id <- s.open :: s.open[id].snapshot <= s.movements
  }

  lemma {:induction false} RunKeeps(events: seq<Event>)
    ensures Inv(Run(START, events))
  {
    if events != [] { RunKeeps(events[..|events| - 1]); }
  }

  /** A balance of entries that are never reversed only grows. */
  lemma BalanceGrows(snapshot: seq<Movement>, now: seq<Movement>, c: CompanyId, k: Kind)
    requires snapshot <= now && OnlyGrows(now)
    ensures ConfirmedBalance(snapshot, c, k) <= ConfirmedBalance(now, c, k)
  {
    var added := now[|snapshot|..];
    assert now == snapshot + added;
    SumConcat(snapshot, added, Signed(c, k));
    forall m <- added ensures Signed(c, k)(m) >= 0 { assert m in now; }
    SumNonNegative(added, Signed(c, k));
  }

  /** What other payouts to the same company committed since this one began. */
  ghost function Overtaken(tx: Tx, now: seq<Movement>): int {
    PaidOut(now, tx.payout.c) - PaidOut(tx.snapshot, tx.payout.c)
  }

  /** In every interleaving a payout that commits leaves the company owed no less than minus what other
      payouts to it committed while it ran; so it overdraws only if one did. */
  lemma PayoutOverdrawsOnlyByOvertaking(events: seq<Event>, id: TxId)
    requires var s := Run(START, events); id in s.open && CommitOk(s.open[id], s.movements)
    ensures var s := Run(START, events);
            var tx, after := s.open[id], Next(s, Commit(id)).movements;
      && Overtaken(tx, s.movements) >= 0
      && CashbackOwed(after, tx.payout.c) >= -Overtaken(tx, s.movements)
      && CashbackOwed(after, tx.payout.c) == CashbackOwed(s.movements, tx.payout.c) - tx.payout.amount
  {
    var s := Run(START, events);
    var tx := s.open[id];
    RunKeeps(events);
    BalanceGrows(tx.snapshot, s.movements, tx.payout.c, CashbackCredited);
    BalanceGrows(tx.snapshot, s.movements, tx.payout.c, CashbackPaidOut);
    SumPush(s.movements, Entry(tx.payout), Signed(tx.payout.c, CashbackCredited));
    SumPush(s.movements, Entry(tx.payout), Signed(tx.payout.c, CashbackPaidOut));
  }

  // ---------- a payout alone, and its reference ----------

  /** A lone payout, begun and committed with nothing between, is the ledger's own. */
  lemma LonePayoutIsLedgers(b: Book, p: Payout)
    ensures var tx, reply := Tx(p, b.movements), RecordCashbackPayout(b, p.c, p.amount, p.reference);
      && (CommitOk(tx, b.movements) <==> reply.Committed?)
      && (reply.Committed? ==> reply.book.movements == b.movements + [Entry(p)])
  {
  }

  /** A transaction ends at its commit, whether it goes through or aborts; one that aborts enters nothing. */
  lemma TransactionsEndOnce(s: State, id: TxId)
    ensures id !in Next(s, Commit(id)).open && Next(s, Abort(id)) == s.(open := s.open - {id})
    ensures id in s.open && !CommitOk(s.open[id], s.movements) ==> Next(s, Commit(id)) == Next(s, Abort(id))
  {
  }

  ghost predicate ReferencesUnique(movements: seq<Movement>) {
    forall i, j ::
      0 <= i < j < |movements| && movements[i].kind.CashbackPaidOut? && movements[j].kind.CashbackPaidOut? ==>
      movements[i].company != movements[j].company || movements[i].reference != movements[j].reference
  }

  ghost predicate AllReferenced(movements: seq<Movement>) {
    forall m <- movements :: m.kind.CashbackPaidOut? ==> m.reference.Some?
  }

  /** In every interleaving no two payouts to a company carry the same reference: the index, not the
      snapshot, refuses the second. */
  lemma {:induction false} ReferencesNeverRepeat(events: seq<Event>)
    ensures ReferencesUnique(Run(START, events).movements) && AllReferenced(Run(START, events).movements)
  {
    if events != [] {
      var s, e := Run(START, events[..|events| - 1]), events[|events| - 1];
      ReferencesNeverRepeat(events[..|events| - 1]);
      var now := Next(s, e).movements;
      forall i, j | 0 <= i < j < |now| && now[i].kind.CashbackPaidOut? && now[j].kind.CashbackPaidOut?
        ensures now[i].company != now[j].company || now[i].reference != now[j].reference
      {
        if j == |s.movements| { assert s.movements[i] in s.movements; }
      }
    }
  }

  // ---------- runs without overtaking ----------

  /** Whenever a payout to this company commits, nothing was paid out to it while it ran. */
  ghost predicate NeverOvertaken(events: seq<Event>, c: CompanyId) {
    forall n :: 0 <= n < |events| && events[n].Commit? ==>
      var s := Run(START, events[..n]);
      events[n].id in s.open && s.open[events[n].id].payout.c == c ==> Overtaken(s.open[events[n].id], s.movements) == 0
  }

  lemma OthersDoNotLower(s: State, e: Event, c: CompanyId)
    requires e.Commit? && e.id in s.open ==> s.open[e.id].payout.c != c || !CommitOk(s.open[e.id], s.movements)
    ensures CashbackOwed(Next(s, e).movements, c) >= CashbackOwed(s.movements, c)
  {
    var added := Next(s, e).movements[|s.movements|..];
    assert Next(s, e).movements == s.movements + added;
    SumConcat(s.movements, added, Signed(c, CashbackCredited));
    SumConcat(s.movements, added, Signed(c, CashbackPaidOut));
    SumNonNegative(added, Signed(c, CashbackCredited));
    SumZero(added, Signed(c, CashbackPaidOut));
  }

  /** In any interleaving in which no payout to a company is overtaken by another to the same company,
      cashback owed to it is never negative. */
  lemma {:induction false} OwedStaysCovered(events: seq<Event>, c: CompanyId)
    requires NeverOvertaken(events, c)
    ensures CashbackOwed(Run(START, events).movements, c) >= 0
  {
    if events != [] {
      var init, e := events[..|events| - 1], events[|events| - 1];
      forall n | 0 <= n < |init| ensures init[..n] == events[..n] && init[n] == events[n] {}
      OwedStaysCovered(init, c);
      var s := Run(START, init);
      if e.Commit? && e.id in s.open && s.open[e.id].payout.c == c && CommitOk(s.open[e.id], s.movements) {
        PayoutOverdrawsOnlyByOvertaking(init, e.id);
      } else {
        OthersDoNotLower(s, e, c);
      }
    }
  }

  // ---------- a run that overdraws ----------

  lemma RunPush(events: seq<Event>, e: Event)
    ensures Run(START, events + [e]) == Next(Run(START, events), e)
  {
    assert (events + [e])[..|events|] == events;
  }

  function First(): Payout { Payout(7, 60, "A") }
  function Second(): Payout { Payout(7, 60, "B") }
  function Credited(): seq<Movement> { [Movement(7, CashbackCredited, 100, Confirmed, Some(0), None, None)] }

  const BOTH_BEGUN: seq<Event> := [] + [Accrue(7, 100, 0)] + [Begin(1, First())] + [Begin(2, Second())]

  lemma ReachesBothBegun()
    ensures Run(START, BOTH_BEGUN)
        == State(Credited(), map[1 := Tx(First(), Credited()), 2 := Tx(Second(), Credited())])
  {
    var accrue, one, two := Accrue(7, 100, 0), Begin(1, First()), Begin(2, Second());
    RunPush([], accrue);
    RunPush([] + [accrue], one);
    RunPush([] + [accrue] + [one], two);
    assert Run(START, [] + [accrue]) == State(Credited(), map[]);
  }

  lemma CreditedIsOwed()
    ensures CashbackOwed(Credited(), 7) == 100
  {
    var m := Credited()[0];
    SumPush([], m, Signed(7, CashbackCredited));
    SumPush([], m, Signed(7, CashbackPaidOut));
    assert [] + [m] == Credited();
  }

  /** 100 is owed; two payouts of 60 each read 100 and both commit, and the company is owed minus 20. */
  lemma ConcurrentPayoutsOverdraw()
    ensures CashbackOwed(Run(START, BOTH_BEGUN + [Commit(1)] + [Commit(2)]).movements, 7) == -20
  {
    ReachesBothBegun();
    CreditedIsOwed();
    RunPush(BOTH_BEGUN, Commit(1));
    RunPush(BOTH_BEGUN + [Commit(1)], Commit(2));
    PayoutOverdrawsOnlyByOvertaking(BOTH_BEGUN, 1);
    var s := Run(START, BOTH_BEGUN + [Commit(1)]);
    assert s.movements == Credited() + [Entry(First())] && s.open == map[2 := Tx(Second(), Credited())];
    assert "A"[0] != "B"[0];
    PayoutOverdrawsOnlyByOvertaking(BOTH_BEGUN + [Commit(1)], 2);
  }
}
