/** Concurrent drawdowns (src/modules/litre-balances/litre-balances.service.ts, `drawdown`). Each
    order creation reads the balance, then writes only if the balance still has the value it read,
    and retries up to five times. The comparison looks at the value alone, so a balance that moved
    away and came back passes it. */
module LitreRace {
  import opened Options
  import opened Rounding
  import L = Litres
  import Sums

  const MAX_DRAWDOWN_ATTEMPTS := 5

  type Pid = nat
  datatype Proc =
    | Ready(o: L.OrderId, requested: real, attempt: nat)
    | Seen(o: L.OrderId, requested: real, attempt: nat, available: int)
    | Finished(o: L.OrderId, drawn: int, remaining: int)
    | GaveUp(o: L.OrderId)

  datatype Event =
    | Start(pid: Pid, o: L.OrderId, requested: real)
    | Read(pid: Pid)
    | CompareAndSet(pid: Pid)
    | Other(action: L.Action)

  /** `world` is the document with what an observer remembers; `procs` are the loops in flight. */
  datatype State = State(world: L.System, procs: map<Pid, Proc>)

  ghost predicate OrderInUse(s: State, o: L.OrderId) {
    o in s.world.drew || exists p <- s.procs :: s.procs[p].o == o
  }

  /** The loop's next stop after a failed attempt. */
  function Retry(o: L.OrderId, requested: real, attempt: nat): Proc {
    if attempt + 1 < MAX_DRAWDOWN_ATTEMPTS then Ready(o, requested, attempt + 1) else GaveUp(o)
  }

  ghost function Next(s: State, e: Event): State {
    match e
    case Start(pid, o, requested) =>
      if pid in s.procs || OrderInUse(s, o) then s else s.(procs := s.procs[pid := Ready(o, requested, 0)])
    case Read(pid) => if pid in s.procs && s.procs[pid].Ready? then ReadStep(s, pid) else s
    case CompareAndSet(pid) => if pid in s.procs && s.procs[pid].Seen? then SetStep(s, pid) else s
    case Other(a) =>
      // Reconciliations, restatements, corrections and cancellations run as one write each.
      if a.Place? then s else s.(world := L.Step(s.world, a))
  }

  ghost function ReadStep(s: State, pid: Pid): State
    requires pid in s.procs && s.procs[pid].Ready?
  {
    var p := s.procs[pid];
    var available := L.View(s.world.balance).litres;
    if available <= 0 then
      State(s.world.(drew := s.world.drew[p.o := 0]),
            s.procs[pid := Finished(p.o, 0, if available > 0 then available else 0)])
    else if L.Drawn(available, p.requested) <= 0 then
      State(s.world.(drew := s.world.drew[p.o := 0]), s.procs[pid := Finished(p.o, 0, available)])
    else s.(procs := s.procs[pid := Seen(p.o, p.requested, p.attempt, available)])
  }

  /** The conditional write: filter on the balance value read earlier, decrement, push. */
  ghost function SetStep(s: State, pid: Pid): State
    requires pid in s.procs && s.procs[pid].Seen?
  {
    var p := s.procs[pid];
    if s.world.balance.Some? && s.world.balance.value.litres == p.available then
      var drawn := L.Drawn(p.available, p.requested);
      var written := L.Push(s.world.balance.value, L.OrderDrawdown, -drawn, Some(p.o));
      State(s.world.(balance := Some(written), drew := s.world.drew[p.o := drawn]),
            s.procs[pid := Finished(p.o, drawn, written.litres)])
    else s.(procs := s.procs[pid := Retry(p.o, p.requested, p.attempt)])
  }

  ghost function Run(s: State, events: seq<Event>): State {
    if events == [] then s else Next(Run(s, events[..|events| - 1]), events[|events| - 1])
  }

  const START := State(L.START, map[])

  // ---------- every interleaving is a serial run ----------

  /** The atomic action an event amounts to: a draw takes effect at the read that finds nothing to
      draw, or at the write that succeeds. */
  ghost function Effect(s: State, e: Event): seq<L.Action> {
    match e
    case Start(_, _, _) => []
    case Read(pid) =>
      if pid in s.procs && s.procs[pid].Ready? && ReadStep(s, pid).procs[pid].Finished?
      then [L.Place(s.procs[pid].o, s.procs[pid].requested)] else []
    case CompareAndSet(pid) =>
      if pid in s.procs && s.procs[pid].Seen? && SetStep(s, pid).procs[pid].Finished?
      then [L.Place(s.procs[pid].o, s.procs[pid].requested)] else []
    case Other(a) => if a.Place? then [] else [a]
  }

  ghost function Serialised(s: State, events: seq<Event>): seq<L.Action> {
    if events == [] then []
    else Serialised(s, events[..|events| - 1]) + Effect(Run(s, events[..|events| - 1]), events[|events| - 1])
  }

  ghost predicate Busy(p: Proc) { p.Ready? || p.Seen? }

  ghost predicate ProcOk(s: State, pid: Pid)
    requires pid in s.procs
  {
    var p := s.procs[pid];
    && (Busy(p) ==> p.o !in s.world.drew && p.attempt < MAX_DRAWDOWN_ATTEMPTS)
    && (p.Seen? ==> p.available > 0 && L.Drawn(p.available, p.requested) > 0)
    && (p.Finished? ==> p.o in s.world.drew && s.world.drew[p.o] == p.drawn)
    && (p.GaveUp? ==> p.o !in s.world.drew)
  }

  ghost predicate ProcsOk(s: State) {
    && (forall pid <- s.procs :: ProcOk(s, pid))
    && (forall p <- s.procs, q <- s.procs :: p != q ==> s.procs[p].o != s.procs[q].o)
  }

  ghost predicate Inv(s: State) { L.Inv(s.world) && ProcsOk(s) }

  /** A step's effect on the document is exactly that of its atomic action. */
  lemma NextIsAtomic(s: State, e: Event)
    requires Inv(s)
    ensures Effect(s, e) == [] ==> Next(s, e).world == s.world
    ensures Effect(s, e) != [] ==> Next(s, e).world == L.Step(s.world, Effect(s, e)[0])
  {
    match e {
      case Read(pid) => if pid in s.procs { assert ProcOk(s, pid); }
      case CompareAndSet(pid) => if pid in s.procs { assert ProcOk(s, pid); }
      case _ =>
    }
  }

  lemma OthersDrawNothing(w: L.System, a: L.Action)
    requires !a.Place?
    ensures L.Step(w, a).drew == w.drew
  {
  }

  /** One loop moved, to a stop consistent with the document; the others are undisturbed. */
  lemma ProcMoved(s: State, t: State, pid: Pid)
    requires ProcsOk(s) && pid in s.procs && t.procs.Keys == s.procs.Keys
    requires t.procs == s.procs[pid := t.procs[pid]] && t.procs[pid].o == s.procs[pid].o && ProcOk(t, pid)
    requires forall o: L.OrderId :: o != s.procs[pid].o ==>
      (o in t.world.drew <==> o in s.world.drew) && (o in s.world.drew ==> t.world.drew[o] == s.world.drew[o])
    ensures ProcsOk(t)
  {
    forall q <- t.procs ensures ProcOk(t, q) { assert ProcOk(s, q); }
  }

  lemma StartKeepsProcs(s: State, pid: Pid, o: L.OrderId, requested: real)
    requires ProcsOk(s)
    ensures ProcsOk(Next(s, Start(pid, o, requested)))
  {
    var t := Next(s, Start(pid, o, requested));
    forall q <- t.procs ensures ProcOk(t, q) { if q in s.procs { assert ProcOk(s, q); } }
  }

  lemma OtherKeepsProcs(s: State, a: L.Action)
    requires ProcsOk(s)
    ensures ProcsOk(Next(s, Other(a)))
  {
    var t := Next(s, Other(a));
    if !a.Place? { OthersDrawNothing(s.world, a); }
    forall q <- t.procs ensures ProcOk(t, q) { assert ProcOk(s, q); }
  }

  lemma NextKeepsProcs(s: State, e: Event)
    requires ProcsOk(s)
    ensures ProcsOk(Next(s, e))
  {
    match e {
      case Start(pid, o, requested) => StartKeepsProcs(s, pid, o, requested);
      case Read(pid) =>
        if pid in s.procs && s.procs[pid].Ready? { assert ProcOk(s, pid); ProcMoved(s, Next(s, e), pid); }
      case CompareAndSet(pid) =>
        if pid in s.procs && s.procs[pid].Seen? { assert ProcOk(s, pid); ProcMoved(s, Next(s, e), pid); }
      case Other(a) => OtherKeepsProcs(s, a);
    }
  }

  lemma NextKeeps(s: State, e: Event)
    requires Inv(s)
    ensures Inv(Next(s, e))
  {
    NextIsAtomic(s, e);
    if Effect(s, e) != [] { L.StepKeeps(s.world, Effect(s, e)[0]); }
    NextKeepsProcs(s, e);
  }

  lemma RunOfConcat(s: L.System, xs: seq<L.Action>, ys: seq<L.Action>)
    requires |ys| <= 1
    ensures L.Run(s, xs + ys) == if ys == [] then L.Run(s, xs) else L.Step(L.Run(s, xs), ys[0])
  {
    if ys == [] {
      assert xs + ys == xs;
    } else {
      assert (xs + ys)[..|xs|] == xs;
    }
  }

  /** Every interleaving of drawdown loops with everything else leaves the document a serial run of
      atomic draws and writes would leave. */
  lemma {:induction false} InterleavingsAreSerial(events: seq<Event>)
    ensures Inv(Run(START, events))
    ensures Run(START, events).world == L.Run(L.START, Serialised(START, events))
  {
    if events == [] {
      L.RunKeeps([]);
    } else {
      var before, e := events[..|events| - 1], events[|events| - 1];
      InterleavingsAreSerial(before);
      NextKeeps(Run(START, before), e);
      NextIsAtomic(Run(START, before), e);
      RunOfConcat(L.START, Serialised(START, before), Effect(Run(START, before), e));
    }
  }

  /** A write that succeeds draws the rounded minimum of what is available now and what was asked,
      whatever happened since the read, and never takes the balance below zero. */
  lemma SuccessfulWriteDrawsFromTheCurrentBalance(events: seq<Event>, pid: Pid)
    requires var s := Run(START, events); pid in s.procs && s.procs[pid].Seen? && SetStep(s, pid).procs[pid].Finished?
    ensures var s := Run(START, events);
            var available, after := L.View(s.world.balance).litres, L.View(SetStep(s, pid).world.balance).litres;
            && after == available - L.Drawn(available, s.procs[pid].requested)
            && SetStep(s, pid).procs[pid] == Finished(s.procs[pid].o, L.Drawn(available, s.procs[pid].requested), after)
            && 0 <= after < available
            && (s.procs[pid].requested <= available as real ==> available - after == Round(s.procs[pid].requested))
            && (s.procs[pid].requested >= available as real ==> after == 0)
  {
    var s := Run(START, events);
    InterleavingsAreSerial(events);
    assert ProcOk(s, pid);
    L.DrawnIsBounded(s.procs[pid].available, s.procs[pid].requested);
    RoundRespectsIntegerBound(s.procs[pid].requested, 0);
  }

  /** What a finished loop reports is what its order's movements say, in every later state; a loop
      that gave up left none. */
  lemma ReportedDrawIsRecorded(events: seq<Event>, pid: Pid)
    requires pid in Run(START, events).procs
    ensures var s := Run(START, events);
            var p, recorded := s.procs[pid],
                Sums.Sum(L.View(s.world.balance).movements, L.Of(L.Drawdowns, s.procs[pid].o));
            (p.Finished? ==> recorded == -p.drawn) && (!p.Finished? ==> recorded == 0)
  {
    var s := Run(START, events);
    InterleavingsAreSerial(events);
    assert ProcOk(s, pid);
    L.CancellationReturnsTheDrawOnce(Serialised(START, events), s.procs[pid].o);
  }

  // ---------- how a loop goes ----------

  /** A loop nothing interrupts draws as the atomic operation does, and reports what was drawn and what is
      left. */
  lemma LoneLoopIsAtomic(s: State, pid: Pid, o: L.OrderId, requested: real)
    requires Inv(s) && pid !in s.procs && !OrderInUse(s, o)
    ensures var t := Next(Next(Next(s, Start(pid, o, requested)), Read(pid)), CompareAndSet(pid));
            var reported := L.DrawnResult(L.View(s.world.balance).litres, requested);
      && t.world == L.Step(s.world, L.Place(o, requested))
      && t.procs == s.procs[pid := Finished(o, reported.litresDrawn, reported.balanceRemaining)]
  {
  }

  /** The conditional write finds the balance changed since the read. */
  ghost predicate Defeated(s: State, e: Event, pid: Pid) {
    && e == CompareAndSet(pid) && pid in s.procs && s.procs[pid].Seen?
    && !(s.world.balance.Some? && s.world.balance.value.litres == s.procs[pid].available)
  }

  ghost function Defeats(events: seq<Event>, pid: Pid): nat {
    if events == [] then 0
    else
      var init := events[..|events| - 1];
      Defeats(init, pid) + (if Defeated(Run(START, init), events[|events| - 1], pid) then 1 else 0)
  }

  /** How many defeats a loop at this stop has behind it. */
  ghost predicate DefeatsBehind(p: Proc, defeats: nat) {
    match p
    case Ready(_, _, attempt) => defeats == attempt
    case Seen(_, _, attempt, _) => defeats == attempt
    case Finished(_, _, _) => defeats < MAX_DRAWDOWN_ATTEMPTS
    case GaveUp(_) => defeats == MAX_DRAWDOWN_ATTEMPTS
  }

  lemma StepDefeats(s: State, e: Event, pid: Pid, defeats: nat)
    requires Inv(s) && if pid in s.procs then DefeatsBehind(s.procs[pid], defeats) else defeats == 0
    ensures var after := defeats + (if Defeated(s, e, pid) then 1 else 0);
            if pid in Next(s, e).procs then DefeatsBehind(Next(s, e).procs[pid], after) else after == 0
  {
    if pid in s.procs { assert ProcOk(s, pid); }
  }

  /** In every interleaving a loop tries again after each defeat, gives up after its fifth and not before, and
      finishes at the first attempt that is not defeated. */
  lemma {:induction false} LoopsGiveUpAfterFiveDefeats(events: seq<Event>, pid: Pid)
    ensures var s := Run(START, events);
            if pid in s.procs then DefeatsBehind(s.procs[pid], Defeats(events, pid)) else Defeats(events, pid) == 0
  {
    if events != [] {
      var init := events[..|events| - 1];
      LoopsGiveUpAfterFiveDefeats(init, pid);
      InterleavingsAreSerial(init);
      StepDefeats(Run(START, init), events[|events| - 1], pid, Defeats(init, pid));
    }
  }
}
