/** The scheduler lease (src/common/scheduler/scheduler-lease.service.ts): a shared key per sweep,
    set only if absent and with an expiry, and deleted only by the token that set it. Instances may
    pause, crash, or fail to release; the clock only moves forward. */
module Lease {
  import opened Options

  type Sweep = nat
  type Token = nat
  datatype Key = Key(token: Token, expiresAt: nat)

  /** One call of `runExclusively` that won the lease. */
  datatype Phase = Working | Ended | Released | Crashed
  datatype Holder = Holder(sweep: Sweep, acquiredAt: nat, phase: Phase)

  datatype State = State(now: nat, ttl: nat, keys: map<Sweep, Key>, holders: map<Token, Holder>)

  datatype Event =
    | Advance(elapsed: nat)
    | Acquire(sweep: Sweep, token: Token)
    | EndWork(token: Token)
    | Release(token: Token)
    | ReleaseFails(token: Token)
    | Crash(token: Token)

  /** The store answers with a key only until it expires. */
  function Live(s: State, sweep: Sweep): Option<Key> {
    if sweep in s.keys && s.now < s.keys[sweep].expiresAt then Some(s.keys[sweep]) else None
  }

  function SetIfAbsent(s: State, sweep: Sweep, token: Token): State {
    if Live(s, sweep).Some? then s else s.(keys := s.keys[sweep := Key(token, s.now + s.ttl)])
  }

  function CompareAndDelete(s: State, sweep: Sweep, token: Token): State {
    if Live(s, sweep).Some? && Live(s, sweep).value.token == token then s.(keys := s.keys - {sweep}) else s
  }

  predicate InPhase(s: State, token: Token, phase: Phase) { token in s.holders && s.holders[token].phase == phase }

  function MoveTo(s: State, token: Token, phase: Phase): State
    requires token in s.holders
  {
    s.(holders := s.holders[token := s.holders[token].(phase := phase)])
  }

  function Next(s: State, e: Event): State {
    match e
    case Advance(d) => s.(now := s.now + d)
    case Acquire(sweep, token) =>
      // Tokens are fresh per call; a call that does not get the key does nothing.
      if token in s.holders || Live(s, sweep).Some? then s
      else SetIfAbsent(s, sweep, token).(holders := s.holders[token := Holder(sweep, s.now, Working)])
    case EndWork(token) => if InPhase(s, token, Working) then MoveTo(s, token, Ended) else s
    case Release(token) =>
      if InPhase(s, token, Ended)
      then MoveTo(CompareAndDelete(s, s.holders[token].sweep, token), token, Released)
      else s
    case ReleaseFails(token) => if InPhase(s, token, Ended) then MoveTo(s, token, Released) else s
    case Crash(token) =>
      if InPhase(s, token, Working) || InPhase(s, token, Ended) then MoveTo(s, token, Crashed) else s
  }

  function Run(s: State, events: seq<Event>): State {
    if events == [] then s else Next(Run(s, events[..|events| - 1]), events[|events| - 1])
  }

  ghost predicate Initial(s: State) { s.keys == map[] && s.holders == map[] }

  // ---------- the invariant ----------

  /** A lease still within its time-to-live. */
  predicate Unexpired(s: State, token: Token)
    requires token in s.holders
  {
    s.now < s.holders[token].acquiredAt + s.ttl
  }

  ghost predicate HolderOk(s: State, token: Token)
    requires token in s.holders
  {
    var h := s.holders[token];
    && h.acquiredAt <= s.now
    && ((h.phase.Working? || h.phase.Ended?) && Unexpired(s, token) ==>
          h.sweep in s.keys && s.keys[h.sweep] == Key(token, h.acquiredAt + s.ttl))
  }

  ghost predicate KeyOk(s: State, sweep: Sweep)
    requires sweep in s.keys
  {
    var k := s.keys[sweep];
    k.token in s.holders && s.holders[k.token].sweep == sweep && k.expiresAt == s.holders[k.token].acquiredAt + s.ttl
  }

  ghost predicate Inv(s: State) {
    (forall token <- s.holders :: HolderOk(s, token)) && (forall sweep <- s.keys :: KeyOk(s, sweep))
  }

  lemma NextKeeps(s: State, e: Event)
    requires Inv(s)
    ensures Inv(Next(s, e))
  {
    var t := Next(s, e);
    forall token <- t.holders ensures HolderOk(t, token) { if token in s.holders { assert HolderOk(s, token); } }
    forall sweep <- t.keys ensures KeyOk(t, sweep) { if sweep in s.keys { assert KeyOk(s, sweep); } }
  }

  lemma {:induction false} RunKeeps(s: State, events: seq<Event>)
    requires Initial(s)
    ensures Inv(Run(s, events))
  {
    if events != [] {
      RunKeeps(s, events[..|events| - 1]);
      NextKeeps(Run(s, events[..|events| - 1]), events[|events| - 1]);
    }
  }

  // ---------- main results ----------

  /** A holder ends its work once, from working; releases once, after ending it, whether or not the store is
      told; and may crash until then. Only acquiring and releasing touch the store, and nobody moves another. */
  lemma HoldersMoveOn(s: State, token: Token, other: Token)
    requires token in s.holders
    ensures var was := s.holders[token].phase;
      && Next(s, EndWork(token)) == Moved(s, token, if was == Working then Ended else was)
      && Next(s, ReleaseFails(token)) == Moved(s, token, if was == Ended then Released else was)
      && Next(s, Crash(token)) == Moved(s, token, if was == Working || was == Ended then Crashed else was)
      && Next(s, Release(token)).holders == Moved(s, token, if was == Ended then Released else was).holders
      && (was != Ended ==> Next(s, Release(token)) == s)
    ensures other != token && other in s.holders ==>
      other in Next(s, Release(token)).holders && Next(s, Release(token)).holders[other] == s.holders[other]
  {
    assert s.holders[token := s.holders[token].(phase := s.holders[token].phase)] == s.holders;
  }

  /** The same state, with this holder in this phase. */
  function Moved(s: State, token: Token, phase: Phase): State
    requires token in s.holders
  {
    State(s.now, s.ttl, s.keys, s.holders[token := Holder(s.holders[token].sweep, s.holders[token].acquiredAt, phase)])
  }

  /** Releasing never removes a live lease held by another token, of this sweep or any other. */
  lemma ReleaseSparesOthers(s: State, token: Token, sweep: Sweep)
    requires Live(s, sweep).Some? && Live(s, sweep).value.token != token
    ensures Live(Next(s, Release(token)), sweep) == Live(s, sweep)
  {
  }

  /** Releasing in time frees the sweep at once. */
  lemma TimelyReleaseFreesTheSweep(s: State, events: seq<Event>, token: Token)
    requires Initial(s)
    requires var t := Run(s, events); InPhase(t, token, Ended) && Unexpired(t, token)
    ensures var t := Run(s, events); Live(Next(t, Release(token)), t.holders[token].sweep).None?
  {
    RunKeeps(s, events);
    assert HolderOk(Run(s, events), token);
  }

  /** Whatever became of its holder, a lease stops blocking once its time-to-live has passed: any
      fresh token that finds no other live lease gets the sweep. */
  lemma DeadHolderBlocksNobody(s: State, events: seq<Event>, token: Token)
    requires Initial(s) && token in Run(s, events).holders && !Unexpired(Run(s, events), token)
    ensures var t := Run(s, events); var sweep := t.holders[token].sweep;
            && (Live(t, sweep).Some? ==> Live(t, sweep).value.token != token)
            && (forall other: Token :: other !in t.holders && Live(t, sweep).None? ==>
                  InPhase(Next(t, Acquire(sweep, other)), other, Working))
  {
    var t := Run(s, events);
    RunKeeps(s, events);
    var sweep := t.holders[token].sweep;
    if sweep in t.keys { assert KeyOk(t, sweep); }
  }

  /** At any moment at most one run of a sweep is working inside its own lease. So if every run of
      work ends before its lease expires, no two runs of the same sweep ever overlap. */
  lemma NoOverlapWithinLeases(s: State, events: seq<Event>, a: Token, b: Token)
    requires Initial(s)
    requires var t := Run(s, events); Overlap(t, a, b) && Unexpired(t, a) && Unexpired(t, b)
    ensures a == b
  {
    RunKeeps(s, events);
    assert HolderOk(Run(s, events), a) && HolderOk(Run(s, events), b);
  }

  /** Both tokens are working on the same sweep. */
  ghost predicate Overlap(s: State, a: Token, b: Token) {
    InPhase(s, a, Working) && InPhase(s, b, Working) && s.holders[a].sweep == s.holders[b].sweep
  }

  ghost predicate WorkIsTimely(s: State) {
    forall token <- s.holders :: s.holders[token].phase.Working? ==> Unexpired(s, token)
  }

  /** Over a whole run in which work always ends inside its lease, no two runs of a sweep overlap. */
  lemma TimelyRunsNeverOverlap(s: State, events: seq<Event>)
    requires Initial(s) && forall n :: 0 <= n <= |events| ==> WorkIsTimely(Run(s, events[..n]))
    ensures forall n, a: Token, b: Token :: 0 <= n <= |events| && Overlap(Run(s, events[..n]), a, b) ==> a == b
  {
    forall n, a: Token, b: Token | 0 <= n <= |events| && Overlap(Run(s, events[..n]), a, b) ensures a == b {
      assert WorkIsTimely(Run(s, events[..n]));
      NoOverlapWithinLeases(s, events[..n], a, b);
    }
  }

  lemma RunOfThree(s: State, x: Event, y: Event, z: Event)
    ensures Run(s, [x, y, z]) == Next(Next(Next(s, x), y), z)
  {
    assert [x, y, z][..2] == [x, y] && [x, y][..1] == [x] && [x][..0] == [];
    assert Run(s, [x]) == Next(s, x);
    assert Run(s, [x, y]) == Next(Next(s, x), y);
  }

  /** The condition is needed: a holder that pauses past its time-to-live overlaps its successor. */
  lemma PausedHolderOverlaps(s: State)
    requires Initial(s)
    ensures var t := Run(s, [Acquire(0, 1), Advance(s.ttl), Acquire(0, 2)]);
            Overlap(t, 1, 2)
  {
    RunOfThree(s, Acquire(0, 1), Advance(s.ttl), Acquire(0, 2));
  }

  // ---------- the shared store ----------

  class LeaseStore {
    var now: nat
    var keys: map<Sweep, Key>
    const ttl: nat

    ghost function Stored(): State
      reads this
    {
      State(now, ttl, keys, map[])
    }

    /** `SET key token NX PX ttl`. */
    method TryAcquire(sweep: Sweep, token: Token) returns (acquired: bool)
      modifies this`keys
      ensures acquired == old(Live(Stored(), sweep).None?)
      ensures Stored() == SetIfAbsent(old(Stored()), sweep, token)
      ensures acquired ==> Live(Stored(), sweep) == (if ttl > 0 then Some(Key(token, now + ttl)) else None)
    {
      acquired := sweep !in keys || keys[sweep].expiresAt <= now;
      if acquired { keys := keys[sweep := Key(token, now + ttl)]; }
    }

    /** The compare-and-delete script. */
    method Release(sweep: Sweep, token: Token) returns (deleted: bool)
      modifies this`keys
      ensures Stored() == CompareAndDelete(old(Stored()), sweep, token)
      ensures deleted == old(Live(Stored(), sweep).Some? && Live(Stored(), sweep).value.token == token)
    {
      deleted := sweep in keys && now < keys[sweep].expiresAt && keys[sweep].token == token;
      if deleted { keys := keys - {sweep}; }
    }
  }
}
