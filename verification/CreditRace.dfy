/** Concurrent credit approvals (src/modules/invoices/invoices.service.ts, `getAvailableCredit` and
    `issueInvoice`). Transactions read the snapshot taken when they began; at commit they abort if
    another transaction has since committed a write to a document they wrote. That conflict rule is
    the database behaviour the source relies on, and every document carries a version to express it. */
module CreditRace {
  import opened Sums
  import opened Ledger

  datatype Client = Client(limit: nat, version: nat)
  datatype Db = Db(clients: map<ClientId, Client>, invoices: seq<Invoice>, versions: seq<nat>)

  datatype Work =
    | Approve(o: OrderId, c: CompanyId, client: ClientId, pm: PaymentMethod, amount: nat)
    | SettleWork(o: OrderId)
    | VoidWork(o: OrderId)
    | LimitWork(client: ClientId, limit: nat)

  type TxId = nat
  datatype Tx = Tx(work: Work, snapshot: Db)
  datatype State = State(db: Db, open: map<TxId, Tx>)
  datatype Event = Begin(id: TxId, work: Work) | Commit(id: TxId) | Abort(id: TxId)

  ghost function Outstanding(db: Db, client: ClientId): int { Sum(db.invoices, CreditWeight(client)) }

  predicate SameClientVersion(snapshot: Db, now: Db, client: ClientId) {
    client in snapshot.clients && client in now.clients
        && snapshot.clients[client].version == now.clients[client].version
  }

  predicate SameInvoiceVersion(snapshot: Db, now: Db, i: nat) {
    i < |snapshot.versions| && i < |now.versions| && snapshot.versions[i] == now.versions[i]
  }

  /** The checks an approval makes on its own snapshot. */
  ghost predicate Admits(w: Work, snapshot: Db)
    requires w.Approve?
  {
    w.pm.Credit? ==>
      && w.client in snapshot.clients
      && w.amount <= snapshot.clients[w.client].limit - Outstanding(snapshot, w.client)
  }

  /** Whether the commit goes through. `touchesClient` says whether a credit approval writes the
      client document back to itself; the source always does. */
  ghost predicate CommitOk(tx: Tx, now: Db, touchesClient: bool) {
    match tx.work
    case Approve(o, _, client, pm, _) =>
      && Admits(tx.work, tx.snapshot)
      && (pm.Credit? && touchesClient ==> SameClientVersion(tx.snapshot, now, client))
      && FindInvoice(now.invoices, o).None?
    case SettleWork(o) => ResolveOk(tx.snapshot, now, o)
    case VoidWork(o) => ResolveOk(tx.snapshot, now, o)
    case LimitWork(client, _) => SameClientVersion(tx.snapshot, now, client)
  }

  predicate ResolveOk(snapshot: Db, now: Db, o: OrderId) {
    var found := FindInvoice(snapshot.invoices, o);
    && found.Some? && snapshot.invoices[found.value].state.Issued?
    && SameInvoiceVersion(snapshot, now, found.value) && found.value < |now.invoices|
  }

  function Touch(db: Db, client: ClientId): Db {
    if client in db.clients
    then db.(clients := db.clients[client := db.clients[client].(version := db.clients[client].version + 1)])
    else db
  }

  function Resolve(db: Db, i: nat, to: InvoiceState): Db
    requires i < |db.invoices| && i < |db.versions|
  {
    db.(invoices := db.invoices[i := db.invoices[i].(state := to)], versions := db.versions[i := db.versions[i] + 1])
  }

  ghost function Effect(tx: Tx, now: Db, touchesClient: bool): Db
    requires CommitOk(tx, now, touchesClient)
  {
    match tx.work
    case Approve(o, c, client, pm, amount) =>
      var db := if pm.Credit? && touchesClient then Touch(now, client) else now;
      db.(invoices := db.invoices + [Invoice(o, c, client, pm, amount, Issued)], versions := db.versions + [0])
    case SettleWork(o) => Resolve(now, FindInvoice(tx.snapshot.invoices, o).value, Settled)
    case VoidWork(o) => Resolve(now, FindInvoice(tx.snapshot.invoices, o).value, Void)
    case LimitWork(client, limit) =>
      now.(clients := now.clients[client := Client(limit, now.clients[client].version + 1)])
  }

  ghost function Next(s: State, e: Event, touchesClient: bool): State {
    match e
    case Begin(id, w) => if id in s.open then s else s.(open := s.open[id := Tx(w, s.db)])
    case Commit(id) =>
      if id !in s.open then s
      else if CommitOk(s.open[id], s.db, touchesClient) then
        State(Effect(s.open[id], s.db, touchesClient), s.open - {id})
      else s.(open := s.open - {id})
    case Abort(id) => s.(open := s.open - {id})
  }

  ghost function Run(s: State, events: seq<Event>, touchesClient: bool): State {
    if events == [] then s else Next(Run(s, events[..|events| - 1], touchesClient), events[|events| - 1], touchesClient)
  }

  ghost predicate Initial(s: State) { s.open == map[] && |s.db.invoices| == |s.db.versions| }

  // ---------- how the database may have moved since a snapshot ----------

  ghost predicate InvoiceMoved(was: Invoice, now: Invoice) {
    && now == was.(state := now.state)
    && (was.state.Issued? || now.state == was.state)
  }

  /** An unchanged client version vouches for the limit and for the absence of newer credit invoices. */
  ghost predicate ClientVouched(snapshot: Db, now: Db, client: ClientId) {
    && client in now.clients
    && client in snapshot.clients
    && snapshot.clients[client].version <= now.clients[client].version
    && (snapshot.clients[client].version == now.clients[client].version ==>
          && snapshot.clients[client].limit == now.clients[client].limit
          && forall j :: |snapshot.invoices| <= j < |now.invoices| ==>
               !(now.invoices[j].client == client && now.invoices[j].paymentMethod.Credit?))
  }

  ghost predicate Evolved(snapshot: Db, now: Db) {
    && |snapshot.invoices| == |snapshot.versions| <= |now.invoices| == |now.versions|
    && (forall i :: 0 <= i < |snapshot.invoices| ==>
          && InvoiceMoved(snapshot.invoices[i], now.invoices[i])
          && snapshot.versions[i] <= now.versions[i]
          && (snapshot.versions[i] == now.versions[i] ==> snapshot.invoices[i] == now.invoices[i]))
    && (forall client <- snapshot.clients :: ClientVouched(snapshot, now, client))
  }

  ghost predicate Inv(s: State) {
    && |s.db.invoices| == |s.db.versions|
    && forall id <- s.open :: Evolved(s.open[id].snapshot, s.db)
  }

  /** A committed effect keeps every other open snapshot in step with the database. */
  lemma EffectEvolves(other: Db, tx: Tx, now: Db)
    requires Evolved(other, now) && Evolved(tx.snapshot, now) && CommitOk(tx, now, true)
    ensures Evolved(other, Effect(tx, now, true))
  {
    var after := Effect(tx, now, true);
    forall client <- other.clients ensures ClientVouched(other, after, client) {
      assert ClientVouched(other, now, client);
      match tx.work {
        case Approve(_, _, owner, pm, _) =>
          if pm.Credit? && owner == client {
            assert after.clients[client].version == now.clients[client].version + 1;
          }
        case _ =>
      }
    }
  }

  lemma NextKeeps(s: State, e: Event)
    requires Inv(s)
    ensures Inv(Next(s, e, true))
  {
    if e.Commit? && e.id in s.open && CommitOk(s.open[e.id], s.db, true) {
      forall id <- s.open ensures Evolved(s.open[id].snapshot, Effect(s.open[e.id], s.db, true)) {
        EffectEvolves(s.open[id].snapshot, s.open[e.id], s.db);
      }
    }
  }

  lemma {:induction false} RunKeeps(s: State, events: seq<Event>)
    requires Initial(s)
    ensures Inv(Run(s, events, true))
  {
    if events != [] {
      RunKeeps(s, events[..|events| - 1]);
      NextKeeps(Run(s, events[..|events| - 1], true), events[|events| - 1]);
    }
  }

  /** While the client's version stands, settlements and voids can only have lowered what is outstanding. */
  lemma OutstandingOnlyFell(snapshot: Db, now: Db, client: ClientId)
    requires Evolved(snapshot, now) && SameClientVersion(snapshot, now, client)
    ensures Outstanding(now, client) <= Outstanding(snapshot, client)
  {
    var n := |snapshot.invoices|;
    var f := CreditWeight(client);
    assert ClientVouched(snapshot, now, client);
    assert now.invoices == now.invoices[..n] + now.invoices[n..];
    SumConcat(now.invoices[..n], now.invoices[n..], f);
    forall x <- now.invoices[n..] ensures f(x) == 0 {
      var j :| 0 <= j < |now.invoices[n..]| && now.invoices[n..][j] == x;
      assert now.invoices[n + j] == x;
    }
    SumZero(now.invoices[n..], f);
    forall i | 0 <= i < n ensures f(now.invoices[..n][i]) <= f(snapshot.invoices[i]) {
      assert InvoiceMoved(snapshot.invoices[i], now.invoices[i]);
    }
    SumDominated(now.invoices[..n], snapshot.invoices, f);
  }

  /** In every interleaving of approvals, settlements, voids and limit changes, a credit approval
      that commits leaves the client's outstanding credit within the limit then in force. */
  lemma CreditIsNeverOvercommitted(s: State, events: seq<Event>, id: TxId)
    requires Initial(s)
    requires var t := Run(s, events, true);
             id in t.open && t.open[id].work.Approve? && t.open[id].work.pm.Credit? && CommitOk(t.open[id], t.db, true)
    ensures var t := Run(s, events, true);
            var client := t.open[id].work.client;
            var after := Next(t, Commit(id), true).db;
            client in after.clients && Outstanding(after, client) <= after.clients[client].limit
  {
    var t := Run(s, events, true);
    RunKeeps(s, events);
    var tx := t.open[id];
    var w := tx.work;
    OutstandingOnlyFell(tx.snapshot, t.db, w.client);
    assert ClientVouched(tx.snapshot, t.db, w.client);
    SumPush(t.db.invoices, Invoice(w.o, w.c, w.client, w.pm, w.amount, Issued), CreditWeight(w.client));
  }

  /** The documents of a book, before anyone has written them. */
  function Fresh(b: Book): Db {
    Db(map client <- b.creditLimits :: Client(b.creditLimits[client], 0), b.invoices, seq(|b.invoices|, _ => 0))
  }

  /** A lone approval, begun and committed with nothing between, is the ledger's own issue, up to the
      ceiling check, which is not part of the race. */
  lemma LoneApprovalIsIssue(b: Book, w: Work)
    requires w.Approve?
    ensures var tx, reply := Tx(w, Fresh(b)), Issue(b, w.o, w.c, w.client, w.pm, w.amount);
      && (reply.Committed? <==>
            CommitOk(tx, Fresh(b), true) && (w.pm.Direct? || NetCommissionOwed(b.movements, w.c) <= Ceiling(b, w.c)))
      && (reply.Committed? ==> Effect(tx, Fresh(b), true).invoices == reply.book.invoices)
  {
  }

  /** A lone settlement or void commits exactly on an ISSUED invoice, and is the ledger's own; a lone change of
      limit sets that client's limit and no other. */
  lemma LoneResolutionIsLedgers(b: Book, o: OrderId, client: ClientId, limit: nat, other: ClientId)
    ensures var settle, cancel := Tx(SettleWork(o), Fresh(b)), Tx(VoidWork(o), Fresh(b));
            var found := FindInvoice(b.invoices, o);
      && (CommitOk(settle, Fresh(b), true) <==> found.Some? && b.invoices[found.value].state == Issued)
      && (CommitOk(cancel, Fresh(b), true) <==> CommitOk(settle, Fresh(b), true))
      && (CommitOk(settle, Fresh(b), true) ==>
            && Effect(settle, Fresh(b), true).invoices == Settle(b, o).book.invoices
            && Effect(cancel, Fresh(b), true).invoices == VoidInvoice(b, o).invoices)
    ensures client in b.creditLimits ==>
      var after := Effect(Tx(LimitWork(client, limit), Fresh(b)), Fresh(b), true);
      && after.invoices == b.invoices && after.clients.Keys == b.creditLimits.Keys
      && (other in b.creditLimits ==>
            after.clients[other].limit == if other == client then limit else b.creditLimits[other])
  {
  }

  /** A transaction ends at its commit, whether it goes through or aborts, and cannot commit again; one that
      aborts leaves the documents alone, and no transaction ends another. */
  lemma TransactionsEndOnce(s: State, id: TxId, other: TxId)
    ensures id !in Next(s, Commit(id), true).open && id !in Next(s, Abort(id), true).open
    ensures Next(s, Abort(id), true).db == s.db
    ensures id in s.open && !CommitOk(s.open[id], s.db, true) ==> Next(s, Commit(id), true).db == s.db
    ensures other != id && other in s.open ==>
      && other in Next(s, Commit(id), true).open && Next(s, Commit(id), true).open[other] == s.open[other]
      && other in Next(s, Abort(id), true).open && Next(s, Abort(id), true).open[other] == s.open[other]
  {
  }

  lemma RunOfFour(s: State, a: Event, b: Event, c: Event, d: Event, touches: bool)
    ensures Run(s, [a, b, c, d], touches) == Next(Next(Next(Next(s, a, touches), b, touches), c, touches), d, touches)
  {
    assert [a, b, c, d][..3] == [a, b, c] && [a, b, c][..2] == [a, b] && [a, b][..1] == [a] && [a][..0] == [];
    assert Run(s, [a], touches) == Next(s, a, touches);
    assert Run(s, [a, b], touches) == Next(Next(s, a, touches), b, touches);
    assert Run(s, [a, b, c], touches) == Next(Next(Next(s, a, touches), b, touches), c, touches);
  }

  /** Without the write-back nothing but the order id is compared at commit. */
  lemma UncheckedCommit(s: State, id: TxId)
    requires id in s.open && s.open[id].work.Approve? && Admits(s.open[id].work, s.open[id].snapshot)
    requires FindInvoice(s.db.invoices, s.open[id].work.o).None?
    ensures var w, after := s.open[id].work, Next(s, Commit(id), false);
            && after.db
                == s.db.(invoices := s.db.invoices + [Invoice(w.o, w.c, w.client, w.pm, w.amount, Issued)],
                         versions := s.db.versions + [0])
            && after.open == s.open - {id}
  {
  }

  /** The write-back is what makes it true: without it two approvals of 60 against a limit of 100
      both read 100 available and both commit. */
  lemma WithoutTheWriteBackCreditOvercommits(s: State)
    requires Initial(s) && s.db.invoices == [] && s.db.clients == map[5 := Client(100, 0)]
    ensures var one, two := Approve(1, 7, 5, Credit, 60), Approve(2, 7, 5, Credit, 60);
            var after := Run(s, [Begin(1, one), Begin(2, two), Commit(1), Commit(2)], false).db;
            5 in after.clients && Outstanding(after, 5) == 120 > after.clients[5].limit
  {
    var one, two := Approve(1, 7, 5, Credit, 60), Approve(2, 7, 5, Credit, 60);
    RunOfFour(s, Begin(1, one), Begin(2, two), Commit(1), Commit(2), false);
    var s2 := Next(Next(s, Begin(1, one), false), Begin(2, two), false);
    assert s2.db == s.db && s2.open == map[1 := Tx(one, s.db), 2 := Tx(two, s.db)];
    UncheckedCommit(s2, 1);
    var s3 := Next(s2, Commit(1), false);
    assert 2 in s3.open && s3.open[2] == Tx(two, s.db);
    UncheckedCommit(s3, 2);
    var i1, i2 := Invoice(1, 7, 5, Credit, 60, Issued), Invoice(2, 7, 5, Credit, 60, Issued);
    SumPush([], i1, CreditWeight(5));
    SumPush([i1], i2, CreditWeight(5));
    assert [] + [i1] == [i1];
  }
}
