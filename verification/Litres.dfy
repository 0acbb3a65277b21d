/** Litre balances (src/modules/litre-balances/litre-balances.service.ts), in millilitres, for one
    owner and grade. The stored balance, the movement list and the set of reconciled orders are
    written together and must agree. */
module Litres {
  import opened Options
  import opened Rounding
  import opened Sums
  import opened Whitespace

  type OrderId = nat
  datatype Kind = ShortfallCredit | ExcessDebit | OrderDrawdown | DrawdownReturned | Correction
  datatype Movement = Movement(kind: Kind, litres: int, order: Option<OrderId>)
  datatype Balance = Balance(litres: int, movements: seq<Movement>, reconciled: set<OrderId>)

  const EMPTY := Balance(0, [], {})

  /** The kinds the service looks movements up by. */
  datatype Group = Reconciliations | Drawdowns | Returns

  predicate Belongs(k: Kind, g: Group) {
    match g
    case Reconciliations => k.ShortfallCredit? || k.ExcessDebit?
    case Drawdowns => k.OrderDrawdown?
    case Returns => k.DrawdownReturned?
  }

  /** A missing document reads as an empty one. */
  function View(b: Option<Balance>): Balance { if b.Some? then b.value else EMPTY }

  function Push(b: Balance, k: Kind, litres: int, o: Option<OrderId>): Balance {
    b.(litres := b.litres + litres, movements := b.movements + [Movement(k, litres, o)])
  }

  /** The first movement of the given group for an order. */
  function FindMovement(movements: seq<Movement>, g: Group, o: OrderId): (r: Option<nat>)
    ensures r.Some?
        ==> r.value < |movements| && Belongs(movements[r.value].kind, g) && movements[r.value].order == Some(o)
    ensures r.None? ==> forall m <- movements :: !(Belongs(m.kind, g) && m.order == Some(o))
  {
    if movements == [] then None
    else if Belongs(movements[0].kind, g) && movements[0].order == Some(o) then Some(0)
    else match FindMovement(movements[1..], g, o) case Some(i) => Some(i + 1) case None => None
  }

  // ---------- the operations ----------

  datatype Reconciliation =
    | Reconciled(balance: Option<Balance>, shortfall: int, litres: int, wentNegative: bool)
    | AlreadyRecorded

  function RecordReconciliation(b: Option<Balance>, o: OrderId, ordered: real, supplied: real): Reconciliation {
    var shortfall := Round(ordered - supplied);
    if shortfall == 0 then Reconciled(b, 0, View(b).litres, false)
    else if o in View(b).reconciled then AlreadyRecorded
    else
      var pushed := Push(View(b), if shortfall > 0 then ShortfallCredit else ExcessDebit, shortfall, Some(o));
      Reconciled(Some(pushed.(reconciled := pushed.reconciled + {o})), shortfall, pushed.litres, pushed.litres < 0)
  }

  function WithoutMovement(b: Balance, i: nat, o: OrderId): Balance
    requires i < |b.movements|
  {
    Balance(b.litres - b.movements[i].litres, b.movements[..i] + b.movements[i + 1..], b.reconciled - {o})
  }

  function RestateReconciliation(b: Option<Balance>, o: OrderId, ordered: real, supplied: real): Reconciliation {
    match FindMovement(View(b).movements, Reconciliations, o)
    case Some(i) => RecordReconciliation(Some(WithoutMovement(View(b), i, o)), o, ordered, supplied)
    case None => RecordReconciliation(b, o, ordered, supplied)
  }

  function Min(a: real, b: real): real { if a <= b then a else b }

  /** What a drawdown takes from an available balance. */
  function Drawn(available: int, requested: real): int {
    var litres := Round(Min(available as real, requested));
    if available <= 0 || litres <= 0 then 0 else litres
  }

  datatype Draw = Draw(litresDrawn: int, balanceRemaining: int)

  function DrawnResult(available: int, requested: real): Draw {
    if available <= 0 then Draw(0, 0) else Draw(Drawn(available, requested), available - Drawn(available, requested))
  }

  function Drawdown(b: Option<Balance>, o: OrderId, requested: real): Option<Balance> {
    var litres := Drawn(View(b).litres, requested);
    if litres == 0 then b else Some(Push(View(b), OrderDrawdown, -litres, Some(o)))
  }

  function ProjectDrawdown(available: int, requested: real): Draw {
    var wanted := Min(available as real, requested);
    var litres := Round(if wanted < 0.0 then 0.0 else wanted);
    Draw(litres, Round((available - litres) as real))
  }

  function ReturnDrawdown(b: Option<Balance>, o: OrderId): Option<Balance> {
    if b.None? then b
    else if FindMovement(b.value.movements, Returns, o).Some? then b
    else match FindMovement(b.value.movements, Drawdowns, o)
         case None => b
         case Some(i) => Some(Push(b.value, DrawdownReturned, -b.value.movements[i].litres, Some(o)))
  }

  datatype CorrectionReply = Corrected(balance: Balance) | ReasonRequired | BalanceNotFound

  predicate IsBlank(s: string) { Trim(s) == "" }

  function RecordCorrection(b: Option<Balance>, litres: real, reason: string): CorrectionReply {
    if IsBlank(reason) then ReasonRequired
    else if b.None? then BalanceNotFound
    else Corrected(Push(b.value, Correction, Round(litres), None))
  }

  /** A correction that goes through moves the balance by its rounded figure, sign included, in one
      movement that names no order. */
  lemma CorrectionMovesBalance(b: Option<Balance>, litres: real, reason: string)
    requires RecordCorrection(b, litres, reason).Corrected?
    ensures b.Some?
    ensures var after := RecordCorrection(b, litres, reason).balance;
            var moved := after.litres - b.value.litres;
      && litres - 0.5 < moved as real <= litres + 0.5
      && after == b.value.(litres := after.litres, movements := b.value.movements + [Movement(Correction, moved, None)])
  {
  }

  /** A correction is refused for its reason exactly when the reason holds nothing but white space. */
  lemma ReasonRequiredExactlyWhen(b: Option<Balance>, litres: real, reason: string)
    ensures RecordCorrection(b, litres, reason).ReasonRequired? <==> forall c <- reason :: IsSpace(c)
  {
    TrimEmptiesExactlyWhen(reason);
  }

  // ---------- quoting against ordering ----------

  /** A draw is what was asked for, rounded, when that is available, and all that is available when
      more was asked for; it is never more than is available, nor drawn from a debt. */
  lemma DrawnIsBounded(available: int, requested: real)
    ensures 0 <= Drawn(available, requested)
    ensures available >= 0 ==> Drawn(available, requested) <= available
    ensures available <= 0 ==> Drawn(available, requested) == 0
    ensures 0.0 <= requested <= available as real ==> Drawn(available, requested) == Round(requested)
    ensures available >= 0 && requested >= available as real ==> Drawn(available, requested) == available
  {
    RoundRespectsIntegerBound(Min(available as real, requested), available);
    RoundRespectsIntegerBound(Min(available as real, requested), 0);
    RoundOfInteger(available);
  }

  /** The quote projects exactly the draw a real order would make from the same balance. */
  lemma QuoteEqualsDraw(available: int, requested: real)
    ensures ProjectDrawdown(available, requested).litresDrawn == Drawn(available, requested)
  {
    RoundRespectsIntegerBound(Min(available as real, requested), 0);
    RoundOfInteger(0);
  }

  /** The remaining balance it quotes agrees with the order's exactly when the balance is not
      negative: a drawdown reports a debt as zero, a quote reports the debt. */
  lemma QuoteRemainderAgreesExactlyWhen(available: int, requested: real)
    ensures ProjectDrawdown(available, requested) == DrawnResult(available, requested) <==> available >= 0
  {
    QuoteEqualsDraw(available, requested);
    RoundOfInteger(available - Drawn(available, requested));
  }

  // ---------- runs ----------

  datatype Action =
    | RecordQ(o: OrderId, ordered: real, supplied: real)
    | RestateQ(o: OrderId, ordered: real, supplied: real)
    | Place(o: OrderId, requested: real)
    | Cancel(o: OrderId)
    | Correct(litres: real, reason: string)

  /** The document, with what an outside observer would remember: the net quantity last reconciled
      for each order, what each placed order drew, and which of them were cancelled. */
  datatype System = System(balance: Option<Balance>, net: map<OrderId, int>, drew: map<OrderId, nat>,
                           cancelled: set<OrderId>)

  function NetOf(s: System, o: OrderId): int { if o in s.net then s.net[o] else 0 }
  function DrewOf(s: System, o: OrderId): int { if o in s.drew then s.drew[o] else 0 }

  function Step(s: System, a: Action): System {
    match a
    case RecordQ(o, ordered, supplied) =>
      (match RecordReconciliation(s.balance, o, ordered, supplied)
       case AlreadyRecorded => s
       case Reconciled(b, shortfall, _, _) =>
         if shortfall == 0 then s else s.(balance := b, net := s.net[o := shortfall]))
    case RestateQ(o, ordered, supplied) =>
      (match RestateReconciliation(s.balance, o, ordered, supplied)
       case AlreadyRecorded => s
       case Reconciled(b, shortfall, _, _) => s.(balance := b, net := s.net[o := shortfall]))
    case Place(o, requested) =>
      // Order identifiers are fresh: an order is placed once.
      if o in s.drew then s
      else s.(balance := Drawdown(s.balance, o, requested),
              drew := s.drew[o := Drawn(View(s.balance).litres, requested)])
    case Cancel(o) =>
      s.(balance := ReturnDrawdown(s.balance, o), cancelled := if o in s.drew then s.cancelled + {o} else s.cancelled)
    case Correct(litres, reason) =>
      (match RecordCorrection(s.balance, litres, reason)
       case Corrected(b) => s.(balance := Some(b))
       case _ => s)
  }

  function Run(s: System, actions: seq<Action>): System {
    if actions == [] then s else Step(Run(s, actions[..|actions| - 1]), actions[|actions| - 1])
  }

  const START := System(None, map[], map[], {})

  /** A balance goes into debt when a supplier delivers more than was ordered; from then on a quote and
      an order report different remainders. */
  lemma DebtIsReachable(excess: int, requested: real)
    requires excess > 0
    ensures var balance := View(Run(START, [RecordQ(1, 0.0, excess as real)]).balance).litres;
            balance == -excess && ProjectDrawdown(balance, requested) != DrawnResult(balance, requested)
  {
    var a := RecordQ(1, 0.0, excess as real);
    assert [a][..0] == [] && Run(START, [a]) == Step(START, a);
    RoundOfInteger(-excess);
    assert 0.0 - excess as real == (-excess) as real;
    QuoteRemainderAgreesExactlyWhen(-excess, requested);
  }

  // ---------- the invariant ----------

  function Litre(): Movement -> int { (m: Movement) => m.litres }

  function Of(g: Group, o: OrderId): Movement -> int {
    (m: Movement) => if Belongs(m.kind, g) && m.order == Some(o) then m.litres else 0
  }

  function Count(g: Group, o: OrderId): Movement -> int {
    (m: Movement) => if Belongs(m.kind, g) && m.order == Some(o) then 1 else 0
  }

  ghost predicate MovementOk(s: System, m: Movement) {
    match m.kind
    case ShortfallCredit => m.order.Some? && m.litres > 0 && m.litres == NetOf(s, m.order.value)
    case ExcessDebit => m.order.Some? && m.litres < 0 && m.litres == NetOf(s, m.order.value)
    case OrderDrawdown => m.order.Some? && DrewOf(s, m.order.value) > 0 && m.litres == -DrewOf(s, m.order.value)
    case DrawdownReturned =>
      m.order.Some? && DrewOf(s, m.order.value) > 0 && m.order.value in s.cancelled
          && m.litres == DrewOf(s, m.order.value)
    case Correction => m.order.None?
  }

  /** How many movements of each group an order should have. */
  ghost function Expected(s: System, g: Group, o: OrderId): int {
    match g
    case Reconciliations => if NetOf(s, o) != 0 then 1 else 0
    case Drawdowns => if DrewOf(s, o) > 0 then 1 else 0
    case Returns => if DrewOf(s, o) > 0 && o in s.cancelled then 1 else 0
  }

  ghost predicate OrderOk(s: System, o: OrderId) {
    && (forall g: Group :: Sum(View(s.balance).movements, Count(g, o)) == Expected(s, g, o))
    && (o in View(s.balance).reconciled <==> NetOf(s, o) != 0)
    && (o in s.cancelled ==> o in s.drew)
  }

  ghost predicate Inv(s: System) {
    && View(s.balance).litres == Sum(View(s.balance).movements, Litre())
    && (forall m <- View(s.balance).movements :: MovementOk(s, m))
    && forall o: OrderId :: OrderOk(s, o)
  }

  lemma PushChanges(movements: seq<Movement>, m: Movement)
    ensures Sum(movements + [m], Litre()) == Sum(movements, Litre()) + m.litres
    ensures forall g: Group, o: OrderId ::
      Sum(movements + [m], Count(g, o)) == Sum(movements, Count(g, o)) + Count(g, o)(m)
  {
    SumPush(movements, m, Litre());
    forall g: Group, o: OrderId { SumPush(movements, m, Count(g, o)); }
  }

  lemma RemoveChanges(movements: seq<Movement>, i: nat)
    requires i < |movements|
    ensures Sum(movements[..i] + movements[i + 1..], Litre()) == Sum(movements, Litre()) - movements[i].litres
    ensures forall g: Group, o: OrderId ::
      Sum(movements[..i] + movements[i + 1..], Count(g, o)) == Sum(movements, Count(g, o)) - Count(g, o)(movements[i])
  {
    SumRemove(movements, i, Litre());
    forall g: Group, o: OrderId { SumRemove(movements, i, Count(g, o)); }
  }

  /** Finding a movement and counting at least one are the same thing. */
  lemma FoundIffCounted(movements: seq<Movement>, g: Group, o: OrderId)
    ensures FindMovement(movements, g, o).Some? <==> Sum(movements, Count(g, o)) >= 1
  {
    match FindMovement(movements, g, o) {
      case None => SumZero(movements, Count(g, o));
      case Some(i) => SumAtLeastTerm(movements, i, Count(g, o));
    }
  }

  /** One pushed movement, accounted for in what the observer expects, keeps everything in step. */
  lemma PushKeeps(s: System, t: System, m: Movement)
    requires Inv(s) && t.balance.Some? && MovementOk(t, m)
    requires t.balance.value.movements == View(s.balance).movements + [m]
    requires t.balance.value.litres == View(s.balance).litres + m.litres
    requires forall n <- View(s.balance).movements :: MovementOk(s, n) ==> MovementOk(t, n)
    requires forall g: Group, o: OrderId :: Expected(t, g, o) == Expected(s, g, o) + Count(g, o)(m)
    requires forall o: OrderId :: o in t.balance.value.reconciled <==> NetOf(t, o) != 0
    requires forall o: OrderId :: o in t.cancelled ==> o in t.drew
    ensures Inv(t)
  {
    PushChanges(View(s.balance).movements, m);
    forall o: OrderId ensures OrderOk(t, o) { assert OrderOk(s, o); }
  }

  lemma NoneOf(s: System, g: Group, o: OrderId)
    requires Inv(s) && Expected(s, g, o) == 0
    ensures forall m <- View(s.balance).movements :: !(Belongs(m.kind, g) && m.order == Some(o))
  {
    assert OrderOk(s, o);
    FoundIffCounted(View(s.balance).movements, g, o);
  }

  /** Pushing the one reconciliation movement of an order that has none. */
  lemma RecordStep(s: System, o: OrderId, shortfall: int, t: System)
    requires Inv(s) && NetOf(s, o) == 0 && shortfall != 0
    requires var b := Push(View(s.balance), if shortfall > 0 then ShortfallCredit else ExcessDebit, shortfall, Some(o));
             t == s.(balance := Some(b.(reconciled := b.reconciled + {o})), net := s.net[o := shortfall])
    ensures Inv(t)
  {
    NoneOf(s, Reconciliations, o);
    forall p: OrderId
      ensures (p in t.balance.value.reconciled <==> NetOf(t, p) != 0) && (p in t.cancelled ==> p in t.drew)
    {
      assert OrderOk(s, p);
    }
    PushKeeps(s, t, Movement(if shortfall > 0 then ShortfallCredit else ExcessDebit, shortfall, Some(o)));
  }

  lemma RemainingWereThere(movements: seq<Movement>, i: nat)
    requires i < |movements|
    ensures forall m <- movements[..i] + movements[i + 1..] :: m in movements
  {
  }

  /** `t` is `s` with the reconciliation movement of `o`, found at `i`, taken out. */
  ghost predicate Forgotten(s: System, o: OrderId, i: nat, t: System) {
    && Inv(s) && FindMovement(View(s.balance).movements, Reconciliations, o) == Some(i)
    && t == s.(balance := Some(WithoutMovement(View(s.balance), i, o)), net := s.net[o := 0])
  }

  lemma ForgetCounts(s: System, o: OrderId, i: nat, t: System, p: OrderId)
    requires Forgotten(s, o, i, t)
    ensures OrderOk(t, p)
  {
    RemoveChanges(View(s.balance).movements, i);
    assert MovementOk(s, View(s.balance).movements[i]);
    assert OrderOk(s, p);
  }

  lemma ForgetMovements(s: System, o: OrderId, i: nat, t: System)
    requires Forgotten(s, o, i, t)
    ensures forall m <- View(t.balance).movements :: MovementOk(t, m)
  {
    var movements, left := View(s.balance).movements, View(t.balance).movements;
    RemoveChanges(movements, i);
    RemainingWereThere(movements, i);
    assert OrderOk(s, o);
    NoneLeft(movements, left, o);
    forall m <- left ensures MovementOk(t, m) { assert MovementOk(s, m); }
  }

  /** Taking an order's reconciliation movement out. */
  lemma ForgetStep(s: System, o: OrderId, i: nat, t: System)
    requires Forgotten(s, o, i, t)
    ensures Inv(t)
  {
    RemoveChanges(View(s.balance).movements, i);
    ForgetMovements(s, o, i, t);
    forall p: OrderId ensures OrderOk(t, p) { ForgetCounts(s, o, i, t, p); }
  }

  lemma NoneLeft(movements: seq<Movement>, left: seq<Movement>, o: OrderId)
    requires Sum(movements, Count(Reconciliations, o)) <= 1
    requires Sum(left, Count(Reconciliations, o)) == Sum(movements, Count(Reconciliations, o)) - 1
    ensures forall m <- left :: !(Belongs(m.kind, Reconciliations) && m.order == Some(o))
  {
    FoundIffCounted(left, Reconciliations, o);
  }

  lemma RecordKeeps(s: System, a: Action)
    requires Inv(s) && a.RecordQ?
    ensures Inv(Step(s, a))
  {
    var shortfall := Round(a.ordered - a.supplied);
    assert OrderOk(s, a.o);
    if shortfall != 0 && a.o !in View(s.balance).reconciled { RecordStep(s, a.o, shortfall, Step(s, a)); }
  }

  /** Restating is forgetting and recording afresh; it is never refused. */
  lemma RestateKeeps(s: System, a: Action)
    requires Inv(s) && a.RestateQ?
    ensures Inv(Step(s, a))
    ensures NetOf(Step(s, a), a.o) == Round(a.ordered - a.supplied)
  {
    var shortfall := Round(a.ordered - a.supplied);
    assert OrderOk(s, a.o);
    FoundIffCounted(View(s.balance).movements, Reconciliations, a.o);
    var s1 := s;
    match FindMovement(View(s.balance).movements, Reconciliations, a.o) {
      case Some(i) =>
        s1 := s.(balance := Some(WithoutMovement(View(s.balance), i, a.o)), net := s.net[a.o := 0]);
        ForgetStep(s, a.o, i, s1);
      case None =>
        s1 := s.(net := s.net[a.o := 0]);
        forall o: OrderId ensures NetOf(s1, o) == NetOf(s, o) && (o in s1.cancelled ==> o in s1.drew) {
          assert OrderOk(s, o);
        }
        SameDocumentKeeps(s, s1);
    }
    assert OrderOk(s1, a.o);
    if shortfall == 0 {
      assert Step(s, a) == s1;
    } else {
      assert s1.net[a.o := shortfall] == s.net[a.o := shortfall];
      RecordStep(s1, a.o, shortfall, Step(s, a));
    }
  }

  /** The observer's figures moved but the document did not. */
  lemma SameDocumentKeeps(s: System, t: System)
    requires Inv(s) && t.balance == s.balance
    requires forall m <- View(s.balance).movements :: MovementOk(s, m) ==> MovementOk(t, m)
    requires forall o: OrderId :: NetOf(t, o) == NetOf(s, o) && (o in t.cancelled ==> o in t.drew)
    requires forall g: Group, o: OrderId :: Expected(t, g, o) == Expected(s, g, o)
    ensures Inv(t)
  {
    forall o: OrderId ensures OrderOk(t, o) { assert OrderOk(s, o); }
  }

  lemma PlaceKeeps(s: System, a: Action)
    requires Inv(s) && a.Place? && a.o !in s.drew
    ensures Inv(Step(s, a))
  {
    var t := Step(s, a);
    var litres := Drawn(View(s.balance).litres, a.requested);
    NoneOf(s, Drawdowns, a.o);
    NoneOf(s, Returns, a.o);
    assert OrderOk(s, a.o);
    forall o: OrderId
      ensures (o in View(t.balance).reconciled <==> NetOf(t, o) != 0) && (o in t.cancelled ==> o in t.drew)
    {
      assert OrderOk(s, o);
    }
    if litres == 0 {
      SameDocumentKeeps(s, t);
    } else {
      PushKeeps(s, t, Movement(OrderDrawdown, -litres, Some(a.o)));
    }
  }

  lemma CancelKeeps(s: System, a: Action)
    requires Inv(s) && a.Cancel?
    ensures Inv(Step(s, a))
  {
    var movements := View(s.balance).movements;
    FoundIffCounted(movements, Drawdowns, a.o);
    FoundIffCounted(movements, Returns, a.o);
    assert OrderOk(s, a.o);
    var i := FindMovement(movements, Drawdowns, a.o);
    if s.balance.Some? && FindMovement(movements, Returns, a.o).None? && i.Some? {
      ReturnKeeps(s, a, i.value);
    } else {
      forall o: OrderId ensures o in Step(s, a).cancelled ==> o in s.drew { assert OrderOk(s, o); }
      SameDocumentKeeps(s, Step(s, a));
    }
  }

  /** The one movement that gives a drawdown back. */
  lemma ReturnKeeps(s: System, a: Action, i: nat)
    requires Inv(s) && a.Cancel? && s.balance.Some? && Expected(s, Drawdowns, a.o) == 1
    requires Expected(s, Returns, a.o) == 0
    requires FindMovement(s.balance.value.movements, Returns, a.o).None?
    requires FindMovement(s.balance.value.movements, Drawdowns, a.o) == Some(i)
    ensures Inv(Step(s, a))
  {
    var t, m := Step(s, a), s.balance.value.movements[i];
    assert MovementOk(s, m);
    forall o: OrderId
      ensures (o in t.balance.value.reconciled <==> NetOf(t, o) != 0) && (o in t.cancelled ==> o in t.drew)
    {
      assert OrderOk(s, o);
    }
    PushKeeps(s, t, Movement(DrawdownReturned, -m.litres, Some(a.o)));
  }

  lemma CorrectKeeps(s: System, a: Action)
    requires Inv(s) && a.Correct? && RecordCorrection(s.balance, a.litres, a.reason).Corrected?
    ensures Inv(Step(s, a))
  {
    var t := Step(s, a);
    forall o: OrderId
      ensures (o in View(t.balance).reconciled <==> NetOf(t, o) != 0) && (o in t.cancelled ==> o in t.drew)
    {
      assert OrderOk(s, o);
    }
    PushKeeps(s, t, Movement(Correction, Round(a.litres), None));
  }

  lemma StepKeeps(s: System, a: Action)
    requires Inv(s)
    ensures Inv(Step(s, a))
  {
    match a {
      case RecordQ(_, _, _) => RecordKeeps(s, a);
      case RestateQ(_, _, _) => RestateKeeps(s, a);
      case Place(o, _) => if o !in s.drew { PlaceKeeps(s, a); }
      case Cancel(_) => CancelKeeps(s, a);
      case Correct(l, r) => if RecordCorrection(s.balance, l, r).Corrected? { CorrectKeeps(s, a); }
    }
  }

  lemma {:induction false} RunKeeps(actions: seq<Action>)
    ensures Inv(Run(START, actions))
  {
    if actions != [] {
      RunKeeps(actions[..|actions| - 1]);
      StepKeeps(Run(START, actions[..|actions| - 1]), actions[|actions| - 1]);
    }
  }

  // ---------- main results ----------

  /** In every reachable state the stored balance is the sum of the movements, and the reconciled
      set is exactly the orders with one shortfall or excess movement. */
  lemma BalanceAgreesWithMovements(actions: seq<Action>, o: OrderId)
    ensures var b := View(Run(START, actions).balance);
      && b.litres == Sum(b.movements, Litre())
      && (o in b.reconciled <==> Sum(b.movements, Count(Reconciliations, o)) == 1)
      && (o !in b.reconciled <==> Sum(b.movements, Count(Reconciliations, o)) == 0)
  {
    RunKeeps(actions);
    assert OrderOk(Run(START, actions), o);
  }

  /** Movements of one kind that all carry the same quantity sum to that quantity times their number. */
  lemma {:induction false} SumOfEqualMovements(movements: seq<Movement>, g: Group, o: OrderId, v: int)
    requires forall m <- movements :: Belongs(m.kind, g) && m.order == Some(o) ==> m.litres == v
    ensures Sum(movements, Of(g, o)) == Sum(movements, Count(g, o)) * v
  {
    if movements != [] { SumOfEqualMovements(movements[..|movements| - 1], g, o, v); }
  }

  /** The quantity an order should stand reconciled at, read off the requests alone: a restatement
      replaces it, and a recording counts only while nothing is recorded. */
  function LastReconciled(actions: seq<Action>, o: OrderId): int {
    if actions == [] then 0
    else
      var before, a := LastReconciled(actions[..|actions| - 1], o), actions[|actions| - 1];
      match a
      case RestateQ(p, ordered, supplied) => if p == o then Round(ordered - supplied) else before
      case RecordQ(p, ordered, supplied) => if p == o && before == 0 then Round(ordered - supplied) else before
      case _ => before
  }

  lemma StepNet(s: System, a: Action, o: OrderId)
    requires Inv(s)
    ensures NetOf(Step(s, a), o) ==
      match a
      case RestateQ(p, ordered, supplied) => if p == o then Round(ordered - supplied) else NetOf(s, o)
      case RecordQ(p, ordered, supplied) =>
        if p == o && NetOf(s, o) == 0 then Round(ordered - supplied) else NetOf(s, o)
      case _ => NetOf(s, o)
  {
    assert OrderOk(s, o);
    if a.RestateQ? && a.o == o { RestateKeeps(s, a); }
  }

  lemma {:induction false} NetFollowsRequests(actions: seq<Action>, o: OrderId)
    ensures NetOf(Run(START, actions), o) == LastReconciled(actions, o)
  {
    if actions != [] {
      var before, a := actions[..|actions| - 1], actions[|actions| - 1];
      NetFollowsRequests(before, o);
      RunKeeps(before);
      StepNet(Run(START, before), a, o);
    }
  }

  /** However often a supplier quantity is recorded and restated, and whatever else happens between,
      the order contributes to the balance exactly what its last quantity says. */
  lemma RestatingLeavesOnlyTheLastQuantity(actions: seq<Action>, o: OrderId)
    ensures Sum(View(Run(START, actions).balance).movements, Of(Reconciliations, o)) == LastReconciled(actions, o)
  {
    var s := Run(START, actions);
    RunKeeps(actions);
    NetFollowsRequests(actions, o);
    assert OrderOk(s, o);
    forall m <- View(s.balance).movements | Belongs(m.kind, Reconciliations) && m.order == Some(o)
      ensures m.litres == NetOf(s, o)
    {
      assert MovementOk(s, m);
    }
    SumOfEqualMovements(View(s.balance).movements, Reconciliations, o, NetOf(s, o));
  }

  /** An order's creation draws what it reports and its cancellation, however often repeated, gives
      exactly that back once. */
  lemma CancellationReturnsTheDrawOnce(actions: seq<Action>, o: OrderId)
    ensures var s := Run(START, actions);
      && Sum(View(s.balance).movements, Of(Drawdowns, o)) == -DrewOf(s, o)
      && Sum(View(s.balance).movements, Of(Returns, o)) == (if o in s.cancelled then DrewOf(s, o) else 0)
  {
    var s := Run(START, actions);
    RunKeeps(actions);
    assert OrderOk(s, o);
    forall m <- View(s.balance).movements
      ensures m.kind == OrderDrawdown && m.order == Some(o) ==> m.litres == -DrewOf(s, o)
      ensures m.kind == DrawdownReturned && m.order == Some(o) ==> m.litres == DrewOf(s, o)
    {
      assert MovementOk(s, m);
    }
    SumOfEqualMovements(View(s.balance).movements, Drawdowns, o, -DrewOf(s, o));
    SumOfEqualMovements(View(s.balance).movements, Returns, o, DrewOf(s, o));
  }

  lemma RestatedTwice(s: System, first: Action, second: Action)
    requires Inv(s) && first.RestateQ? && second.RestateQ? && first.o == second.o
    ensures var both, only := View(Step(Step(s, first), second).balance), View(Step(s, second).balance);
            both.litres == only.litres && both.reconciled == only.reconciled
  {
    var s1 := Step(s, first);
    RestateKeeps(s, first);
    RestateMovesByDifference(s, first);
    RestateMovesByDifference(s, second);
    RestateMovesByDifference(s1, second);
    RestateKeeps(s, second);
    RestateKeeps(s1, second);
    forall p: OrderId
      ensures p in View(Step(s1, second).balance).reconciled <==> p in View(Step(s, second).balance).reconciled
    {
      assert OrderOk(Step(s1, second), p) && OrderOk(Step(s, second), p);
    }
  }

  /** Two restatements in a row leave the balance and the reconciled set the second alone would leave. */
  lemma SecondRestatementWins(actions: seq<Action>, first: Action, second: Action)
    requires first.RestateQ? && second.RestateQ? && first.o == second.o
    ensures var both, only := View(Run(START, actions + [first, second]).balance),
        View(Run(START, actions + [second]).balance);
            both.litres == only.litres && both.reconciled == only.reconciled
  {
    RunKeeps(actions);
    RestatedTwice(Run(START, actions), first, second);
    assert (actions + [first, second])[..|actions| + 1] == actions + [first];
    assert (actions + [first])[..|actions|] == actions && (actions + [second])[..|actions|] == actions;
  }

  /** A restatement moves the stored balance by the new quantity less the old one. */
  lemma RestateMovesByDifference(s: System, a: Action)
    requires Inv(s) && a.RestateQ?
    ensures View(Step(s, a).balance).litres == View(s.balance).litres - NetOf(s, a.o) + Round(a.ordered - a.supplied)
    ensures forall p: OrderId :: p != a.o ==> NetOf(Step(s, a), p) == NetOf(s, p)
  {
    assert OrderOk(s, a.o);
    FoundIffCounted(View(s.balance).movements, Reconciliations, a.o);
    match FindMovement(View(s.balance).movements, Reconciliations, a.o) {
      case Some(i) => assert MovementOk(s, View(s.balance).movements[i]);
      case None =>
    }
  }
}
