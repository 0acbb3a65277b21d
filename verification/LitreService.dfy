/** The litre-balance service as an object over one stored document. */
module LitreService {
  import opened Options
  import opened Rounding
  import L = Litres
  import LitreRace

  /** The movements other writers push while one attempt is between its read and its write. */
  type Interference = seq<int>

  function Total(pushed: Interference): int {
    if pushed == [] then 0 else Total(pushed[..|pushed| - 1]) + pushed[|pushed| - 1]
  }

  function Pushed(b: L.Balance, pushed: Interference): (r: L.Balance)
    ensures r.litres == b.litres + Total(pushed) && |r.movements| == |b.movements| + |pushed|
  {
    if pushed == [] then b else L.Push(Pushed(b, pushed[..|pushed| - 1]), L.Correction, pushed[|pushed| - 1], None)
  }

  /** The document an attempt writes to. One that finds nothing to draw stops at its read. */
  function AtWrite(b: Option<L.Balance>, requested: real, other: Interference): Option<L.Balance> {
    if b.None? || L.Drawn(b.value.litres, requested) == 0 then b else Some(Pushed(b.value, other))
  }

  /** The write is defeated when there was something to draw and the balance no longer has the value
      read; pushes that cancel out go unnoticed. */
  predicate Defeated(b: Option<L.Balance>, requested: real, other: Interference) {
    L.Drawn(L.View(b).litres, requested) > 0 && Total(other) != 0
  }

  class LitreBalances {
    var found: bool
    var balanceLitres: int
    var movements: seq<L.Movement>
    var reconciledOrderIds: set<L.OrderId>

    ghost predicate Valid()
      reads this
    {
      !found ==> balanceLitres == 0 && movements == [] && reconciledOrderIds == {}
    }

    ghost function Stored(): Option<L.Balance>
      reads this
    {
      if found then Some(L.Balance(balanceLitres, movements, reconciledOrderIds)) else None
    }

    constructor ()
      ensures Valid() && Stored() == None
    {
      found, balanceLitres, movements, reconciledOrderIds := false, 0, [], {};
    }

    /** The atomic increment-and-push every operation ends in. */
    method PushMovement(k: L.Kind, litres: int, o: Option<L.OrderId>)
      requires found
      modifies this`balanceLitres, this`movements
      ensures Stored() == Some(L.Push(old(Stored()).value, k, litres, o))
    {
      balanceLitres := balanceLitres + litres;
      movements := movements + [L.Movement(k, litres, o)];
    }

    method RecordReconciliation(o: L.OrderId, ordered: real, supplied: real) returns (r: L.Reconciliation)
      requires Valid()
      modifies this
      ensures Valid() && r == L.RecordReconciliation(old(Stored()), o, ordered, supplied)
      ensures Stored() == if r.Reconciled? then r.balance else old(Stored())
    {
      var shortfall := Round(ordered - supplied);
      if shortfall == 0 {
        var b := if found then Some(L.Balance(balanceLitres, movements, reconciledOrderIds)) else None;
        return L.Reconciled(b, 0, balanceLitres, false);
      }
      if o in reconciledOrderIds { return L.AlreadyRecorded; }
      found := true;
      PushMovement(if shortfall > 0 then L.ShortfallCredit else L.ExcessDebit, shortfall, Some(o));
      reconciledOrderIds := reconciledOrderIds + {o};
      r := L.Reconciled(Some(L.Balance(balanceLitres, movements, reconciledOrderIds)), shortfall, balanceLitres,
                        balanceLitres < 0);
    }

    /** Two writes of one transaction: forget the prior movement, if there is one, and record afresh. */
    method RestateReconciliation(o: L.OrderId, ordered: real, supplied: real) returns (r: L.Reconciliation)
      requires Valid()
      modifies this
      ensures Valid() && r == L.RestateReconciliation(old(Stored()), o, ordered, supplied)
      ensures Stored() == if r.Reconciled? then r.balance else old(Stored())
    {
      var prior := L.FindMovement(movements, L.Reconciliations, o);
      if prior.Some? {
        var i := prior.value;
        balanceLitres := balanceLitres - movements[i].litres;
        movements := movements[..i] + movements[i + 1..];
        reconciledOrderIds := reconciledOrderIds - {o};
      }
      r := RecordReconciliation(o, ordered, supplied);
    }

    method ReturnDrawdown(o: L.OrderId)
      requires Valid()
      modifies this
      ensures Valid() && Stored() == L.ReturnDrawdown(old(Stored()), o)
    {
      if !found || L.FindMovement(movements, L.Returns, o).Some? { return; }
      var drawdown := L.FindMovement(movements, L.Drawdowns, o);
      if drawdown.None? { return; }
      PushMovement(L.DrawdownReturned, -movements[drawdown.value].litres, Some(o));
    }

    method RecordCorrection(litres: real, reason: string) returns (r: L.CorrectionReply)
      requires Valid()
      modifies this
      ensures Valid() && r == L.RecordCorrection(old(Stored()), litres, reason)
      ensures Stored() == if r.Corrected? then Some(r.balance) else old(Stored())
    {
      if L.IsBlank(reason) { return L.ReasonRequired; }
      if !found { return L.BalanceNotFound; }
      PushMovement(L.Correction, Round(litres), None);
      r := L.Corrected(L.Balance(balanceLitres, movements, reconciledOrderIds));
    }

    /** One attempt: read, and write only if the balance still has the value read. `other` is what
        concurrent writers push in between. */
    method AttemptDrawdown(o: L.OrderId, requested: real, other: Interference) returns (r: Option<L.Draw>)
      requires Valid()
      modifies this
      ensures Valid() && (r.None? <==> Defeated(old(Stored()), requested, other))
      ensures var now := AtWrite(old(Stored()), requested, other);
              if r.None? then Stored() == now
              else Stored() == L.Drawdown(now, o, requested) && r.value == L.DrawnResult(L.View(now).litres, requested)
    {
      var available := balanceLitres;
      if available <= 0 { return Some(L.Draw(0, 0)); }
      var litresDrawn := Round(L.Min(available as real, requested));
      if litresDrawn <= 0 { return Some(L.Draw(0, available)); }
      ghost var before := Stored().value;
      for k := 0 to |other|
        invariant found && Stored() == Some(Pushed(before, other[..k]))
      {
        assert other[..k + 1][..k] == other[..k];
        PushMovement(L.Correction, other[k], None);
      }
      assert other[..|other|] == other;
      if balanceLitres != available { return None; }
      PushMovement(L.OrderDrawdown, -litresDrawn, Some(o));
      return Some(L.Draw(litresDrawn, balanceLitres));
    }

    /** The bounded retry loop. It ends at the first attempt that is not defeated, drawing from the
        balance as it then stands; if all five are defeated it draws nothing. */
    method Drawdown(o: L.OrderId, requested: real, others: seq<Interference>) returns (r: Option<L.Draw>)
      requires Valid() && |others| == LitreRace.MAX_DRAWDOWN_ATTEMPTS
      modifies this
      ensures Valid()
      ensures exists n :: 0 <= n <= |others| && DrewAfter(old(Stored()), o, requested, others, n, r, Stored())
    {
      ghost var before := Stored();
      for attempt := 0 to LitreRace.MAX_DRAWDOWN_ATTEMPTS
        invariant Valid() && Stored() == Disturbed(before, requested, others[..attempt])
        invariant Undecided(before, requested, others, attempt)
      {
        r := AttemptDrawdown(o, requested, others[attempt]);
        if r.Some? {
          assert DrewAfter(before, o, requested, others, attempt, r, Stored());
          return;
        }
        assert others[..attempt + 1][..attempt] == others[..attempt];
      }
      r := None;
      assert DrewAfter(before, o, requested, others, |others|, r, Stored());
    }
  }

  /** The document after a number of defeated attempts. */
  function Disturbed(b: Option<L.Balance>, requested: real, others: seq<Interference>): Option<L.Balance> {
    if others == [] then b
    else AtWrite(Disturbed(b, requested, others[..|others| - 1]), requested, others[|others| - 1])
  }

  /** Each of the first `n` attempts was defeated. */
  predicate Undecided(b: Option<L.Balance>, requested: real, others: seq<Interference>, n: nat)
    requires n <= |others|
  {
    forall k :: 0 <= k < n ==> Defeated(Disturbed(b, requested, others[..k]), requested, others[k])
  }

  /** The loop ended at attempt `n`: all earlier ones were defeated, and this one was not. */
  predicate DrewAfter(b: Option<L.Balance>, o: L.OrderId, requested: real, others: seq<Interference>, n: nat,
                      r: Option<L.Draw>, after: Option<L.Balance>)
    requires n <= |others|
  {
    && Undecided(b, requested, others, n)
    && var current := Disturbed(b, requested, others[..n]);
       if n == |others| then r == None && after == current
       else
         var now := AtWrite(current, requested, others[n]);
         && !Defeated(current, requested, others[n])
         && after == L.Drawdown(now, o, requested)
         && r == Some(L.DrawnResult(L.View(now).litres, requested))
  }
}
