/** The rate limiter's fallback (src/common/throttler/resilient-throttler.storage.ts): per-instance
    counters in a local map while the shared store is unreachable. Times are milliseconds. */
module Throttle {
  import opened Options

  datatype Entry = Entry(totalHits: nat, expiresAt: int)
  datatype Record = Record(totalHits: nat, timeToExpire: int, isBlocked: bool, timeToBlockExpire: int)
  type Counters = map<string, Entry>

  /** The limiter's configuration for the requests considered. */
  datatype Config = Config(ttl: nat, limit: nat, blockDuration: nat)

  function CeilSeconds(ms: int): int { -((-ms) / 1000) }

  /** Rounding up to whole seconds never sends a caller back early, nor a second late. */
  lemma RetryAfterIsTight(ms: int)
    ensures ms <= 1000 * CeilSeconds(ms) < ms + 1000
  {
    assert (-ms) / 1000 * 1000 + (-ms) % 1000 == -ms;
  }

  function LiveEntry(local: Counters, key: string, now: int): Option<Entry> {
    if key in local && local[key].expiresAt > now then Some(local[key]) else None
  }

  function NextEntry(live: Option<Entry>, c: Config, now: int): Entry {
    match live
    case Some(e) => Entry(e.totalHits + 1, e.expiresAt)
    case None => Entry(1, if 1 > c.limit then now + c.blockDuration else now + c.ttl)
  }

  function RecordOf(e: Entry, c: Config, now: int): Record {
    var blocked := e.totalHits > c.limit;
    Record(e.totalHits, CeilSeconds(e.expiresAt - now), blocked, if blocked then CeilSeconds(e.expiresAt - now) else 0)
  }

  function Hit(local: Counters, key: string, c: Config, now: int): (Counters, Record) {
    var e := NextEntry(LiveEntry(local, key, now), c, now);
    (local[key := e], RecordOf(e, c, now))
  }

  function Evict(local: Counters, now: int): Counters {
    map key <- local | local[key].expiresAt > now :: local[key]
  }

  // ---------- eviction is invisible ----------

  /** `Recover` is a call that reached the shared store again: it drops the local counters. */
  datatype Event = Request(key: string, at: int) | Sweep(at: int) | Recover(at: int)

  /** The clock never went back, and has not passed `now`. */
  predicate Ordered(events: seq<Event>, now: int) {
    events == [] || (events[|events| - 1].at <= now && Ordered(events[..|events| - 1], events[|events| - 1].at))
  }

  /** The counters after a run of events, and the answers given along the way. */
  function After(events: seq<Event>, c: Config): Counters {
    if events == [] then map[]
    else
      var before, e := After(events[..|events| - 1], c), events[|events| - 1];
      match e
      case Request(key, at) => Hit(before, key, c, at).0
      case Sweep(at) => Evict(before, at)
      case Recover(_) => map[]
  }

  function Answers(events: seq<Event>, c: Config): seq<Record> {
    if events == [] then []
    else
      var init, e := events[..|events| - 1], events[|events| - 1];
      match e
      case Request(key, at) => Answers(init, c) + [Hit(After(init, c), key, c, at).1]
      case _ => Answers(init, c)
  }

  function WithoutSweeps(events: seq<Event>): seq<Event> {
    if events == [] then []
    else
      var init, e := WithoutSweeps(events[..|events| - 1]), events[|events| - 1];
      if e.Sweep? then init else init + [e]
  }

  /** No key tells the two maps apart at any moment from `now` on. */
  ghost predicate Indistinguishable(a: Counters, b: Counters, now: int) {
    forall key: string, t: int :: t >= now ==> LiveEntry(a, key, t) == LiveEntry(b, key, t)
  }

  /** Sweeping out expired entries at any moments, in any outages, never changes an answer. */
  lemma {:induction false} EvictionIsInvisible(events: seq<Event>, c: Config, now: int)
    requires Ordered(events, now)
    ensures Answers(events, c) == Answers(WithoutSweeps(events), c)
    ensures Indistinguishable(After(events, c), After(WithoutSweeps(events), c), now)
  {
    if events != [] {
      var init, e := events[..|events| - 1], events[|events| - 1];
      EvictionIsInvisible(init, c, e.at);
      var plain := WithoutSweeps(init);
      assert (plain + [e])[..|plain|] == plain;
      if e.Request? { HitKeepsIndistinguishable(After(init, c), After(plain, c), e.key, c, e.at, now); }
    }
  }

  lemma HitKeepsIndistinguishable(a: Counters, b: Counters, key: string, c: Config, at: int, now: int)
    requires at <= now && Indistinguishable(a, b, at)
    ensures Hit(a, key, c, at).1 == Hit(b, key, c, at).1
    ensures Indistinguishable(Hit(a, key, c, at).0, Hit(b, key, c, at).0, now)
  {
    assert LiveEntry(a, key, at) == LiveEntry(b, key, at);
    forall k: string, t: int | t >= now
      ensures LiveEntry(Hit(a, key, c, at).0, k, t) == LiveEntry(Hit(b, key, c, at).0, k, t)
    {
      assert LiveEntry(a, k, t) == LiveEntry(b, k, t);
    }
  }

  // ---------- one key's windows ----------

  /** The hits on one key, in order, and the entry they leave. */
  function EntryAfter(hits: seq<int>, c: Config): Option<Entry> {
    if hits == [] then None
    else
      var before, now := EntryAfter(hits[..|hits| - 1], c), hits[|hits| - 1];
      Some(NextEntry(if before.Some? && before.value.expiresAt > now then before else None, c, now))
  }

  /** The times of a key's hits in the current outage. */
  function Times(events: seq<Event>, key: string): seq<int> {
    if events == [] then []
    else
      var init, e := Times(events[..|events| - 1], key), events[|events| - 1];
      match e
      case Request(k, at) => if k == key then init + [at] else init
      case Sweep(_) => init
      case Recover(_) => []
  }

  /** A key's entry depends only on the hits on that key. */
  lemma {:induction false} KeysAreIndependent(events: seq<Event>, c: Config, key: string)
    requires forall e <- events :: !e.Sweep?
    ensures var entry := EntryAfter(Times(events, key), c);
            if entry.Some? then key in After(events, c) && After(events, c)[key] == entry.value
            else key !in After(events, c)
  {
    if events != [] {
      var init, e := events[..|events| - 1], events[|events| - 1];
      KeysAreIndependent(init, c, key);
      if e.Request? && e.key == key { assert (Times(init, key) + [e.at])[..|Times(init, key)|] == Times(init, key); }
    }
  }

  predicate InOrder(hits: seq<int>) { forall i, j :: 0 <= i < j < |hits| ==> hits[i] <= hits[j] }

  /** Whether the last of these hits was let through. */
  predicate LastAdmitted(hits: seq<int>, c: Config)
    requires hits != []
  {
    EntryAfter(hits, c).value.totalHits <= c.limit
  }

  /** How many hits were let through at times in `[from, to)`. */
  function AdmittedWithin(hits: seq<int>, c: Config, from: int, to: int): nat {
    if hits == [] then 0
    else AdmittedWithin(hits[..|hits| - 1], c, from, to)
         + (if LastAdmitted(hits, c) && from <= hits[|hits| - 1] < to then 1 else 0)
  }

  /** How many hits fall in `[from, to)`. */
  function HitsWithin(hits: seq<int>, from: int, to: int): nat {
    if hits == [] then 0
    else HitsWithin(hits[..|hits| - 1], from, to) + (if from <= hits[|hits| - 1] < to then 1 else 0)
  }

  predicate AllBefore(hits: seq<int>, to: int) { forall i :: 0 <= i < |hits| ==> hits[i] < to }

  lemma BeforePrefix(init: seq<int>, now: int, to: int)
    requires AllBefore(init + [now], to)
    ensures AllBefore(init, to) && now < to
  {
    forall i | 0 <= i < |init| ensures init[i] < to { assert (init + [now])[i] == init[i]; }
    assert (init + [now])[|init|] == now;
  }

  function Start(e: Entry, c: Config): int { e.expiresAt - c.ttl }
  function Least(a: int, b: int): int { if a <= b then a else b }

  /** Splitting a span of time splits the count. */
  lemma {:induction false} CountSplits(hits: seq<int>, c: Config, from: int, mid: int, to: int)
    requires from <= mid <= to
    ensures AdmittedWithin(hits, c, from, to) == AdmittedWithin(hits, c, from, mid) + AdmittedWithin(hits, c, mid, to)
  {
    if hits != [] { CountSplits(hits[..|hits| - 1], c, from, mid, to); }
  }

  lemma {:induction false} CountGrowsWithSpan(hits: seq<int>, c: Config, from: int, to: int, from': int, to': int)
    requires from' <= from && to <= to'
    ensures AdmittedWithin(hits, c, from, to) <= AdmittedWithin(hits, c, from', to')
  {
    if hits != [] { CountGrowsWithSpan(hits[..|hits| - 1], c, from, to, from', to'); }
  }

  lemma {:induction false} NothingAfterTheLast(hits: seq<int>, c: Config, from: int, to: int)
    requires AllBefore(hits, from)
    ensures AdmittedWithin(hits, c, from, to) == 0 && HitsWithin(hits, from, to) == 0
  {
    if hits != [] { NothingAfterTheLast(hits[..|hits| - 1], c, from, to); }
  }

  /** The current window has counted every hit since it opened and admitted the first `limit` of them. */
  ghost predicate WindowCounts(hits: seq<int>, c: Config, e: Entry) {
    forall to :: AllBefore(hits, to) ==>
      && HitsWithin(hits, Start(e, c), to) == e.totalHits
      && AdmittedWithin(hits, c, Start(e, c), to) == Least(e.totalHits, c.limit)
  }

  /** The stretch of one time-to-live before the current window admitted at most `limit`. */
  ghost predicate QuietBefore(hits: seq<int>, c: Config, start: int) {
    forall from :: from >= start - c.ttl ==> AdmittedWithin(hits, c, from, start) <= c.limit
  }

  ghost predicate WindowOk(hits: seq<int>, c: Config) {
    hits != [] ==>
      var e := EntryAfter(hits, c).value;
      && 1 <= e.totalHits && Start(e, c) <= hits[|hits| - 1] < e.expiresAt
      && WindowCounts(hits, c, e) && QuietBefore(hits, c, Start(e, c))
  }

  ghost predicate Limited(c: Config) { c.limit >= 1 && c.ttl > 0 }

  lemma OneMore(init: seq<int>, c: Config, now: int, from: int, to: int)
    ensures var hits := init + [now];
      && HitsWithin(hits, from, to) == HitsWithin(init, from, to) + (if from <= now < to then 1 else 0)
      && AdmittedWithin(hits, c, from, to) == AdmittedWithin(init, c, from, to)
                                              + (if LastAdmitted(hits, c) && from <= now < to then 1 else 0)
  {
    assert (init + [now])[..|init|] == init;
  }

  /** A hit inside the current window. */
  lemma SameWindow(init: seq<int>, c: Config, now: int)
    requires init != [] && InOrder(init + [now]) && Limited(c) && WindowOk(init, c)
    requires EntryAfter(init, c).value.expiresAt > now
    ensures WindowOk(init + [now], c)
  {
    var hits := init + [now];
    var e := EntryAfter(init, c).value;
    assert hits[..|init|] == init && hits[|init| - 1] <= hits[|init|];
    var e' := EntryAfter(hits, c).value;
    assert e' == Entry(e.totalHits + 1, e.expiresAt);
    forall to | AllBefore(hits, to)
      ensures HitsWithin(hits, Start(e', c), to) == e'.totalHits
      ensures AdmittedWithin(hits, c, Start(e', c), to) == Least(e'.totalHits, c.limit)
    {
      BeforePrefix(init, now, to);
      OneMore(init, c, now, Start(e, c), to);
    }
    forall from | from >= Start(e, c) - c.ttl ensures AdmittedWithin(hits, c, from, Start(e, c)) <= c.limit {
      OneMore(init, c, now, from, Start(e, c));
    }
  }

  ghost predicate Opens(init: seq<int>, c: Config, now: int) {
    && InOrder(init + [now]) && Limited(c) && WindowOk(init, c)
    && (init != [] ==> EntryAfter(init, c).value.expiresAt <= now)
  }

  lemma EarlierHitsAreOver(init: seq<int>, c: Config, now: int)
    requires Opens(init, c, now)
    ensures AllBefore(init, now)
  {
    var hits := init + [now];
    forall i | 0 <= i < |init| ensures init[i] < now { assert hits[i] <= hits[|init| - 1] && hits[i] == init[i]; }
  }

  lemma NewWindowCounts(init: seq<int>, c: Config, now: int)
    requires Opens(init, c, now)
    ensures WindowCounts(init + [now], c, Entry(1, now + c.ttl))
  {
    var hits, e := init + [now], Entry(1, now + c.ttl);
    EarlierHitsAreOver(init, c, now);
    assert hits[..|hits| - 1] == init;
    assert EntryAfter(hits, c).value == e;
    assert LastAdmitted(hits, c);
    forall to | AllBefore(hits, to)
      ensures HitsWithin(hits, Start(e, c), to) == 1 && AdmittedWithin(hits, c, Start(e, c), to) == Least(1, c.limit)
    {
      BeforePrefix(init, now, to);
      OneMore(init, c, now, now, to);
      NothingAfterTheLast(init, c, now, to);
    }
  }

  lemma NewWindowQuiet(init: seq<int>, c: Config, now: int)
    requires Opens(init, c, now)
    ensures QuietBefore(init + [now], c, now)
  {
    EarlierHitsAreOver(init, c, now);
    forall from | from >= now - c.ttl ensures AdmittedWithin(init + [now], c, from, now) <= c.limit {
      OneMore(init, c, now, from, now);
      if init != [] {
        var e := EntryAfter(init, c).value;
        CountGrowsWithSpan(init, c, from, now, Start(e, c), now);
        assert AdmittedWithin(init, c, Start(e, c), now) == Least(e.totalHits, c.limit);
      }
    }
  }

  /** A hit that opens a new window, the first or after the last one expired. */
  lemma NewWindow(init: seq<int>, c: Config, now: int)
    requires Opens(init, c, now)
    ensures WindowOk(init + [now], c)
  {
    assert (init + [now])[..|init|] == init;
    NewWindowCounts(init, c, now);
    NewWindowQuiet(init, c, now);
  }

  lemma {:induction false} WindowsHold(hits: seq<int>, c: Config)
    requires InOrder(hits) && Limited(c)
    ensures WindowOk(hits, c)
  {
    if hits != [] {
      var init, now := hits[..|hits| - 1], hits[|hits| - 1];
      assert hits == init + [now];
      WindowsHold(init, c);
      if init != [] && EntryAfter(init, c).value.expiresAt > now {
        SameWindow(init, c, now);
      } else {
        NewWindow(init, c, now);
      }
    }
  }

  // ---------- main results ----------

  /** Of the hits since a window opened, exactly the first `limit` are let through: a hit is
      admitted just when it is among the first `limit` hits of its own window. */
  lemma FirstLimitHitsOfAWindowPass(hits: seq<int>, c: Config)
    requires hits != [] && InOrder(hits) && Limited(c)
    ensures var e, now := EntryAfter(hits, c).value, hits[|hits| - 1];
            && Start(e, c) <= now < Start(e, c) + c.ttl
            && (LastAdmitted(hits, c) <==> HitsWithin(hits, Start(e, c), now + 1) <= c.limit)
  {
    WindowsHold(hits, c);
    var now := hits[|hits| - 1];
    assert AllBefore(hits, now + 1);
    assert HitsWithin(hits, Start(EntryAfter(hits, c).value, c), now + 1) == EntryAfter(hits, c).value.totalHits;
  }

  /** Any span of one time-to-live, both ends included, lets through at most twice the limit. */
  lemma {:induction false} SpanAdmitsAtMostTwiceLimit(hits: seq<int>, c: Config, from: int)
    requires InOrder(hits) && Limited(c)
    ensures AdmittedWithin(hits, c, from, from + c.ttl + 1) <= 2 * c.limit
  {
    if hits != [] {
      var init, now, to := hits[..|hits| - 1], hits[|hits| - 1], from + c.ttl + 1;
      SpanAdmitsAtMostTwiceLimit(init, c, from);
      if from <= now < to {
        WindowsHold(hits, c);
        var e := EntryAfter(hits, c).value;
        var start := Start(e, c);
        assert AllBefore(hits, to);
        assert AdmittedWithin(hits, c, start, to) == Least(e.totalHits, c.limit);
        if from <= start {
          CountSplits(hits, c, from, start, to);
          assert AdmittedWithin(hits, c, from, start) <= c.limit;
        } else {
          CountGrowsWithSpan(hits, c, from, to, start, to);
        }
      }
    }
  }

  /** With a limit of zero nothing is let through. */
  lemma {:induction false} ZeroLimitAdmitsNothing(hits: seq<int>, c: Config, from: int, to: int)
    requires c.limit == 0
    ensures AdmittedWithin(hits, c, from, to) == 0
  {
    if hits != [] { ZeroLimitAdmitsNothing(hits[..|hits| - 1], c, from, to); }
  }

  lemma {:induction false} SweepsLeaveTimes(events: seq<Event>, key: string)
    ensures Times(WithoutSweeps(events), key) == Times(events, key)
    ensures forall e <- WithoutSweeps(events) :: !e.Sweep?
  {
    if events != [] {
      var init, e := events[..|events| - 1], events[|events| - 1];
      SweepsLeaveTimes(init, key);
      if !e.Sweep? { assert (WithoutSweeps(init) + [e])[..|WithoutSweeps(init)|] == WithoutSweeps(init); }
    }
  }

  /** What the limiter answers, among other keys' traffic and sweeps at any moments, is decided by the
      key's own hits in the current outage alone; so the window and span bounds are bounds on its
      answers. */
  lemma AnswerDependsOnOwnHits(events: seq<Event>, c: Config, key: string, now: int)
    requires Ordered(events, now)
    ensures Hit(After(events, c), key, c, now).1.isBlocked <==> !LastAdmitted(Times(events, key) + [now], c)
  {
    EvictionIsInvisible(events, c, now);
    SweepsLeaveTimes(events, key);
    KeysAreIndependent(WithoutSweeps(events), c, key);
    assert LiveEntry(After(events, c), key, now) == LiveEntry(After(WithoutSweeps(events), c), key, now);
    assert (Times(events, key) + [now])[..|Times(events, key)|] == Times(events, key);
  }

  /** What a hit is told: how many hits its key has had in the window, itself included; blocked exactly
      beyond the limit; the seconds until the window ends, rounded up; and the same again if it is blocked,
      0 if not. */
  lemma AnswerMeans(events: seq<Event>, c: Config, key: string, now: int)
    requires Ordered(events, now) && Limited(c)
    ensures var r, hits := Hit(After(events, c), key, c, now).1, Times(events, key) + [now];
            var start := Start(EntryAfter(hits, c).value, c);
      && start <= now < start + c.ttl
      && r.totalHits == HitsWithin(hits, start, now + 1)
      && (r.isBlocked <==> r.totalHits > c.limit)
      && start + c.ttl - now <= 1000 * r.timeToExpire < start + c.ttl - now + 1000
      && r.timeToBlockExpire == (if r.isBlocked then r.timeToExpire else 0)
  {
    var hits := Times(events, key) + [now];
    TimesInOrder(events, key, now);
    InOrderGrows(Times(events, key), now);
    FirstLimitHitsOfAWindowPass(hits, c);
    WindowsHold(hits, c);
    assert hits[..|hits| - 1] == Times(events, key) && hits[|hits| - 1] == now;
    assert AllBefore(hits, now + 1);
    HitIsNextEntry(events, c, key, now);
    RetryAfterIsTight(EntryAfter(hits, c).value.expiresAt - now);
  }

  lemma HitIsNextEntry(events: seq<Event>, c: Config, key: string, now: int)
    requires Ordered(events, now)
    ensures Hit(After(events, c), key, c, now).1 == RecordOf(EntryAfter(Times(events, key) + [now], c).value, c, now)
  {
    EvictionIsInvisible(events, c, now);
    SweepsLeaveTimes(events, key);
    KeysAreIndependent(WithoutSweeps(events), c, key);
    assert LiveEntry(After(events, c), key, now) == LiveEntry(After(WithoutSweeps(events), c), key, now);
    assert (Times(events, key) + [now])[..|Times(events, key)|] == Times(events, key);
  }

  /** With a limit of 0 the first hit of a key is blocked for the block duration. */
  lemma ZeroLimitBlocksAtOnce(c: Config, key: string, now: int)
    requires c.limit == 0
    ensures var r := Hit(map[], key, c, now).1;
      r.totalHits == 1 && r.isBlocked && c.blockDuration <= 1000 * r.timeToBlockExpire < c.blockDuration + 1000
  {
    RetryAfterIsTight(c.blockDuration);
  }

  // ---------- what the limiter answers ----------

  /** How many requests for a key, made at times in `[from, to)`, were answered as not blocked. */
  function Passed(events: seq<Event>, c: Config, key: string, from: int, to: int): nat {
    if events == [] then 0
    else
      var init, e, answers := events[..|events| - 1], events[|events| - 1], Answers(events, c);
      var admitted := answers != [] && !answers[|answers| - 1].isBlocked;
      Passed(init, c, key, from, to)
      + (if e.Request? && e.key == key && from <= e.at < to && admitted then 1 else 0)
  }

  lemma OrderGrows(init: seq<Event>, e: Event, now: int)
    requires Ordered(init, e.at) && e.at <= now
    ensures Ordered(init + [e], now)
  {
    assert (init + [e])[..|init|] == init;
  }

  /** A key's hits come in order, and none after `now`. */
  lemma {:induction false} TimesInOrder(events: seq<Event>, key: string, now: int)
    requires Ordered(events, now)
    ensures InOrder(Times(events, key)) && forall t <- Times(events, key) :: t <= now
  {
    if events != [] {
      var init, e := events[..|events| - 1], events[|events| - 1];
      TimesInOrder(init, key, e.at);
      InOrderGrows(Times(init, key), e.at);
    }
  }

  lemma InOrderGrows(hits: seq<int>, now: int)
    requires InOrder(hits) && forall t <- hits :: t <= now
    ensures InOrder(hits + [now])
  {
    var all := hits + [now];
    forall i, j | 0 <= i < j < |all| ensures all[i] <= all[j] {
      assert all[i] == hits[i] && hits[i] in hits;
      if j < |hits| { assert all[j] == hits[j]; }
    }
  }

  /** How many outages had a request for the key at a time in `[from, to)`. */
  function OutagesTouching(events: seq<Event>, key: string, from: int, to: int): nat {
    if events == [] then 0
    else
      var init, e := events[..|events| - 1], events[|events| - 1];
      var untouched := HitsWithin(Times(init, key), from, to) == 0;
      OutagesTouching(init, key, from, to)
      + (if e.Request? && e.key == key && from <= e.at < to && untouched then 1 else 0)
  }

  /** Whether the current outage is one of them. */
  function CurrentTouches(events: seq<Event>, key: string, from: int, to: int): nat {
    if HitsWithin(Times(events, key), from, to) > 0 then 1 else 0
  }

  lemma {:induction false} TimesGrow(init: seq<Event>, e: Event, key: string)
    ensures Times(init + [e], key)
         == if e.Recover? then []
            else if e.Request? && e.key == key then Times(init, key) + [e.at]
            else Times(init, key)
  {
    assert (init + [e])[..|init|] == init;
  }

  ghost predicate Concerns(e: Event, key: string, from: int, to: int) {
    e.Request? && e.key == key && from <= e.at < to
  }

  lemma {:induction false} PassedGrows(init: seq<Event>, e: Event, c: Config, key: string, from: int, to: int)
    ensures Passed(init + [e], c, key, from, to) == Passed(init, c, key, from, to)
      + (if Concerns(e, key, from, to) && !Hit(After(init, c), key, c, e.at).1.isBlocked then 1 else 0)
  {
    var events := init + [e];
    assert events[..|events| - 1] == init;
  }

  lemma {:induction false} TouchingGrows(init: seq<Event>, e: Event, key: string, from: int, to: int)
    ensures OutagesTouching(init + [e], key, from, to) == OutagesTouching(init, key, from, to)
      + (if Concerns(e, key, from, to) && HitsWithin(Times(init, key), from, to) == 0 then 1 else 0)
  {
    var events := init + [e];
    assert events[..|events| - 1] == init;
  }

  /** One more event: what it adds to the requests let through, to the key's own count and to the
      outages touching the span. */
  lemma OneMoreEvent(init: seq<Event>, e: Event, c: Config, key: string, from: int, to: int)
    requires Ordered(init, e.at)
    ensures var events := init + [e];
            var was, now := AdmittedWithin(Times(init, key), c, from, to),
                AdmittedWithin(Times(events, key), c, from, to);
      && (!e.Recover? ==> Passed(events, c, key, from, to) - Passed(init, c, key, from, to) == now - was)
      && (!e.Recover? ==> OutagesTouching(events, key, from, to) - OutagesTouching(init, key, from, to)
                          == CurrentTouches(events, key, from, to) - CurrentTouches(init, key, from, to))
      && (e.Recover? ==> Times(events, key) == [] && Passed(events, c, key, from, to) == Passed(init, c, key, from, to)
                         && OutagesTouching(events, key, from, to) == OutagesTouching(init, key, from, to))
  {
    TimesGrow(init, e, key);
    PassedGrows(init, e, c, key, from, to);
    TouchingGrows(init, e, key, from, to);
    if e.Request? && e.key == key {
      OneMore(Times(init, key), c, e.at, from, to);
      AnswerDependsOnOwnHits(init, c, key, e.at);
    }
  }

  lemma {:induction false} NoHitsNoneAdmitted(hits: seq<int>, c: Config, from: int, to: int)
    ensures AdmittedWithin(hits, c, from, to) <= HitsWithin(hits, from, to)
  {
    if hits != [] { NoHitsNoneAdmitted(hits[..|hits| - 1], c, from, to); }
  }

  /** The current outage lets through at most twice the limit, and nothing if it does not touch the span. */
  lemma CurrentOutageIsBounded(events: seq<Event>, now: int, c: Config, key: string, from: int)
    requires Ordered(events, now) && c.ttl > 0
    ensures AdmittedWithin(Times(events, key), c, from, from + c.ttl + 1)
         <= 2 * c.limit * CurrentTouches(events, key, from, from + c.ttl + 1)
  {
    var hits := Times(events, key);
    TimesInOrder(events, key, now);
    NoHitsNoneAdmitted(hits, c, from, from + c.ttl + 1);
    if c.limit == 0 {
      ZeroLimitAdmitsNothing(hits, c, from, from + c.ttl + 1);
    } else {
      SpanAdmitsAtMostTwiceLimit(hits, c, from);
    }
  }

  /** What was let through before the current outage, and how many earlier outages touch the span. */
  function PassedEarlier(events: seq<Event>, c: Config, key: string, from: int, to: int): int {
    Passed(events, c, key, from, to) - AdmittedWithin(Times(events, key), c, from, to)
  }

  function EarlierTouching(events: seq<Event>, key: string, from: int, to: int): int {
    OutagesTouching(events, key, from, to) - CurrentTouches(events, key, from, to)
  }

  lemma EarlierStandsStill(init: seq<Event>, e: Event, c: Config, key: string, from: int, to: int)
    requires Ordered(init, e.at) && !e.Recover?
    ensures PassedEarlier(init + [e], c, key, from, to) == PassedEarlier(init, c, key, from, to)
    ensures EarlierTouching(init + [e], key, from, to) == EarlierTouching(init, key, from, to)
  {
    OneMoreEvent(init, e, c, key, from, to);
  }

  lemma OutageEnds(init: seq<Event>, e: Event, c: Config, key: string, from: int)
    requires Ordered(init, e.at) && e.Recover? && c.ttl > 0
    ensures var to := from + c.ttl + 1;
      && PassedEarlier(init + [e], c, key, from, to)
         <= PassedEarlier(init, c, key, from, to) + 2 * c.limit * CurrentTouches(init, key, from, to)
      && EarlierTouching(init + [e], key, from, to)
          == EarlierTouching(init, key, from, to) + CurrentTouches(init, key, from, to)
  {
    OneMoreEvent(init, e, c, key, from, from + c.ttl + 1);
    CurrentOutageIsBounded(init, e.at, c, key, from);
  }

  /** Everything let through before the current outage is within the bound of the earlier ones. */
  lemma {:induction false} EarlierOutagesAreBounded(events: seq<Event>, now: int, c: Config, key: string, from: int)
    requires Ordered(events, now) && c.ttl > 0
    ensures var to := from + c.ttl + 1;
            PassedEarlier(events, c, key, from, to) <= 2 * c.limit * EarlierTouching(events, key, from, to)
  {
    if events != [] {
      var init, e, to := events[..|events| - 1], events[|events| - 1], from + c.ttl + 1;
      EarlierOutagesAreBounded(init, e.at, c, key, from);
      assert init + [e] == events;
      if e.Recover? {
        OutageEnds(init, e, c, key, from);
        SumTimes(2 * c.limit, EarlierTouching(init, key, from, to), CurrentTouches(init, key, from, to));
      } else {
        EarlierStandsStill(init, e, c, key, from, to);
      }
    }
  }

  /** Of any stream of requests for any keys, with sweeps at any moments and the shared store coming and
      going, any span of one time-to-live lets through at most twice the limit for a key in each outage
      that has a request for it in the span. */
  lemma LimiterPassesAtMostTwiceLimit(events: seq<Event>, now: int, c: Config, key: string, from: int)
    requires Ordered(events, now) && c.ttl > 0
    ensures var to := from + c.ttl + 1;
            Passed(events, c, key, from, to) <= 2 * c.limit * OutagesTouching(events, key, from, to)
  {
    var to := from + c.ttl + 1;
    EarlierOutagesAreBounded(events, now, c, key, from);
    CurrentOutageIsBounded(events, now, c, key, from);
    SumTimes(2 * c.limit, EarlierTouching(events, key, from, to), CurrentTouches(events, key, from, to));
  }

  lemma SumTimes(k: int, n: int, m: int)
    ensures k * n + k * m == k * (n + m)
  {
  }

  /** One outage from beginning to end. */
  predicate Uninterrupted(events: seq<Event>) {
    events == [] || (!events[|events| - 1].Recover? && Uninterrupted(events[..|events| - 1]))
  }

  lemma {:induction false} OneOutageTouchesOnce(events: seq<Event>, key: string, from: int, to: int)
    requires Uninterrupted(events)
    ensures OutagesTouching(events, key, from, to) == CurrentTouches(events, key, from, to)
  {
    if events != [] {
      var init, e := events[..|events| - 1], events[|events| - 1];
      OneOutageTouchesOnce(init, key, from, to);
      if e.Request? && e.key == key {
        assert (Times(init, key) + [e.at])[..|Times(init, key)|] == Times(init, key);
      }
    }
  }

  /** In one uninterrupted outage, then, any span of one time-to-live lets through at most twice the limit. */
  lemma OneOutagePassesAtMostTwiceLimit(events: seq<Event>, now: int, c: Config, key: string, from: int)
    requires Ordered(events, now) && c.ttl > 0 && Uninterrupted(events)
    ensures Passed(events, c, key, from, from + c.ttl + 1) <= 2 * c.limit
  {
    LimiterPassesAtMostTwiceLimit(events, now, c, key, from);
    OneOutageTouchesOnce(events, key, from, from + c.ttl + 1);
  }

  function FleetPassed(instances: seq<seq<Event>>, c: Config, key: string, from: int): nat {
    if instances == [] then 0
    else FleetPassed(instances[1..], c, key, from) + Passed(instances[0], c, key, from, from + c.ttl + 1)
  }

  function FleetOutages(instances: seq<seq<Event>>, c: Config, key: string, from: int): nat {
    if instances == [] then 0
    else FleetOutages(instances[1..], c, key, from) + OutagesTouching(instances[0], key, from, from + c.ttl + 1)
  }

  /** Instances counting separately let through at most twice the limit for each outage of each. */
  lemma {:induction false} FleetPassesAtMostTwiceLimitPerOutage(instances: seq<seq<Event>>, now: int, c: Config,
                                                                key: string, from: int)
    requires c.ttl > 0 && forall events <- instances :: Ordered(events, now)
    ensures FleetPassed(instances, c, key, from) <= 2 * c.limit * FleetOutages(instances, c, key, from)
  {
    if instances != [] {
      FleetPassesAtMostTwiceLimitPerOutage(instances[1..], now, c, key, from);
      LimiterPassesAtMostTwiceLimit(instances[0], now, c, key, from);
      SumTimes(2 * c.limit, FleetOutages(instances[1..], c, key, from),
               OutagesTouching(instances[0], key, from, from + c.ttl + 1));
    }
  }

  /** N instances counting separately through one outage let through at most 2·N·limit for a key in any
      such span. */
  lemma {:induction false} FleetPassesAtMostTwiceLimitEach(instances: seq<seq<Event>>, now: int, c: Config,
                                                           key: string, from: int)
    requires c.ttl > 0 && forall events <- instances :: Ordered(events, now) && Uninterrupted(events)
    ensures FleetPassed(instances, c, key, from) <= |instances| * (2 * c.limit)
  {
    if instances != [] {
      FleetPassesAtMostTwiceLimitEach(instances[1..], now, c, key, from);
      OneOutagePassesAtMostTwiceLimit(instances[0], now, c, key, from);
      OneFewer(|instances|, 2 * c.limit);
    }
  }

  lemma OneFewer(n: nat, k: nat)
    requires n > 0
    ensures (n - 1) * k + k == n * k
  {
  }

  // ---------- the bound is attained, and needs its count of outages ----------

  /** One outage up to `now`, in which `n` of the key's requests since `from` passed and this entry is left. */
  ghost predicate Outage(events: seq<Event>, c: Config, key: string, from: int, now: int, n: nat, left: Option<Entry>) {
    && Ordered(events, now) && Uninterrupted(events)
    && EntryAfter(Times(events, key), c) == left && AdmittedWithin(Times(events, key), c, from, now + 1) == n
  }

  /** One more request, let through by the entry it makes. */
  lemma OutageGrows(init: seq<Event>, c: Config, key: string, from: int, now: int, n: nat, left: Option<Entry>)
    requires Outage(init, c, key, from, now, n, left) && from <= now
    requires NextEntry(if left.Some? && left.value.expiresAt > now then left else None, c, now).totalHits <= c.limit
    ensures Outage(init + [Request(key, now)], c, key, from, now, n + 1,
                   Some(NextEntry(if left.Some? && left.value.expiresAt > now then left else None, c, now)))
  {
    var events, hits := init + [Request(key, now)], Times(init, key);
    assert events[..|events| - 1] == init && (hits + [now])[..|hits|] == hits;
    OrderGrows(init, Request(key, now), now);
    OneMore(hits, c, now, from, now + 1);
  }

  /** `n` requests at the moment a window opens. */
  lemma {:induction false} Burst(c: Config, key: string, at: int, n: nat) returns (events: seq<Event>)
    requires n <= c.limit && c.ttl > 0
    ensures Outage(events, c, key, at, at, n, if n == 0 then None else Some(Entry(n, at + c.ttl)))
  {
    if n == 0 {
      events := [];
      OutageStarts(c, key, at);
    } else {
      var left := if n == 1 then None else Some(Entry(n - 1, at + c.ttl));
      events := Burst(c, key, at, n - 1);
      OutageGrows(events, c, key, at, at, n - 1, left);
      assert NextEntry(left, c, at) == Entry(n, at + c.ttl);
      events := events + [Request(key, at)];
    }
  }

  lemma OutageStarts(c: Config, key: string, at: int)
    ensures Outage([], c, key, at, at, 0, None)
  {
  }

  /** Time passes, and nothing else happens. */
  lemma OutageLasts(events: seq<Event>, c: Config, key: string, from: int, now: int, later: int, n: nat,
                    left: Option<Entry>)
    requires Outage(events, c, key, from, now, n, left) && from <= now <= later
    ensures Outage(events, c, key, from, later, n, left)
  {
    var hits := Times(events, key);
    TimesInOrder(events, key, now);
    assert AllBefore(hits, now + 1) by {
      forall i | 0 <= i < |hits| ensures hits[i] < now + 1 { assert hits[i] in hits; }
    }
    CountSplits(hits, c, from, now + 1, later + 1);
    NothingAfterTheLast(hits, c, now + 1, later + 1);
  }

  /** A full burst as the window opens, and `n` more requests as it expires. */
  lemma {:induction false} TwoBursts(c: Config, key: string, at: int, n: nat) returns (events: seq<Event>)
    requires n <= c.limit && c.ttl > 0
    ensures Outage(events, c, key, at, at + c.ttl, c.limit + n,
                   if n > 0 then Some(Entry(n, at + c.ttl + c.ttl))
                   else if c.limit > 0 then Some(Entry(c.limit, at + c.ttl)) else None)
  {
    if n == 0 {
      events := Burst(c, key, at, c.limit);
      OutageLasts(events, c, key, at, at, at + c.ttl, c.limit,
                  if c.limit > 0 then Some(Entry(c.limit, at + c.ttl)) else None);
    } else {
      var left := if n > 1 then Entry(n - 1, at + c.ttl + c.ttl) else Entry(c.limit, at + c.ttl);
      events := TwoBursts(c, key, at, n - 1);
      OutageGrows(events, c, key, at, at + c.ttl, c.limit + n - 1, Some(left));
      events := events + [Request(key, at + c.ttl)];
    }
  }

  lemma {:induction false} NothingEarlier(events: seq<Event>, now: int, c: Config, key: string, from: int, to: int)
    requires Ordered(events, now) && Uninterrupted(events)
    ensures PassedEarlier(events, c, key, from, to) == 0
  {
    if events != [] {
      var init, e := events[..|events| - 1], events[|events| - 1];
      assert init + [e] == events;
      NothingEarlier(init, e.at, c, key, from, to);
      EarlierStandsStill(init, e, c, key, from, to);
    }
  }

  /** For every limit there is an outage that lets through exactly twice the limit in one time-to-live. */
  lemma TwiceLimitIsAttained(c: Config, key: string, from: int) returns (events: seq<Event>)
    requires c.ttl > 0
    ensures Ordered(events, from + c.ttl) && Uninterrupted(events)
        && Passed(events, c, key, from, from + c.ttl + 1) == 2 * c.limit
  {
    events := TwoBursts(c, key, from, c.limit);
    NothingEarlier(events, from + c.ttl, c, key, from, from + c.ttl + 1);
  }

  /** From any history on, a recovery and a request let one more through, in one more outage. */
  lemma FreshOutagePasses(init: seq<Event>, c: Config, key: string, at: int, from: int, to: int)
    requires c.limit > 0 && from <= at < to && Ordered(init, at)
    ensures var events := init + [Recover(at)] + [Request(key, at)];
      && Passed(events, c, key, from, to) == Passed(init, c, key, from, to) + 1
      && OutagesTouching(events, key, from, to) == OutagesTouching(init, key, from, to) + 1
  {
    var recovered := init + [Recover(at)];
    OrderGrows(init, Recover(at), at);
    OrderGrows(recovered, Request(key, at), at);
    OneMoreEvent(init, Recover(at), c, key, from, to);
    OneMoreEvent(recovered, Request(key, at), c, key, from, to);
    assert (recovered + [Request(key, at)])[..|recovered|] == recovered;
    assert Times(recovered + [Request(key, at)], key) == [] + [at];
    assert ([] + [at])[..0] == [];
    OneMore([], c, at, from, to);
  }

  /** When the shared store answers again before every request, any number of requests pass at one
      instant, each in an outage of its own: without counting outages there is no bound. */
  lemma {:induction false} FlappingHasNoBound(c: Config, key: string, at: int, n: nat, to: int)
    returns (events: seq<Event>)
    requires c.limit > 0 && at < to
    ensures Ordered(events, at)
    ensures Passed(events, c, key, at, to) == n == OutagesTouching(events, key, at, to)
  {
    events := [];
    if n > 0 {
      events := FlappingHasNoBound(c, key, at, n - 1, to);
      FreshOutagePasses(events, c, key, at, at, to);
      OrderGrows(events, Recover(at), at);
      OrderGrows(events + [Recover(at)], Request(key, at), at);
      events := events + [Recover(at)] + [Request(key, at)];
    }
  }

  // ---------- the storage object ----------

  class ResilientStorage {
    var degraded: bool
    var local: Counters

    constructor ()
      ensures !degraded && local == map[]
    {
      degraded, local := false, map[];
    }

    method IncrementLocally(key: string, c: Config, now: int) returns (r: Record)
      modifies this`local
      ensures (local, r) == Hit(old(local), key, c, now)
    {
      var live := key in local && local[key].expiresAt > now;
      var totalHits, expiresAt := 1, now + c.ttl;
      if live { totalHits, expiresAt := local[key].totalHits + 1, local[key].expiresAt; }
      var isBlocked := totalHits > c.limit;
      if isBlocked && !live { expiresAt := now + c.blockDuration; }
      local := local[key := Entry(totalHits, expiresAt)];
      var remaining := CeilSeconds(expiresAt - now);
      r := Record(totalHits, remaining, isBlocked, if isBlocked then remaining else 0);
    }

    /** `shared` is the shared store's answer, or nothing when it is unreachable. Reaching it again
        drops the local counters. */
    method Increment(key: string, c: Config, now: int, shared: Option<Record>) returns (r: Record)
      modifies this
      ensures degraded == shared.None?
      ensures shared.Some? ==> r == shared.value && local == (if old(degraded) then map[] else old(local))
      ensures shared.None? ==> (local, r) == Hit(old(local), key, c, now)
    {
      if shared.Some? {
        if degraded { degraded, local := false, map[]; }
        return shared.value;
      }
      degraded := true;
      r := IncrementLocally(key, c, now);
    }

    /** The sweep visits every entry once and deletes the expired ones. */
    method EvictExpired(now: int)
      modifies this`local
      ensures local == Evict(old(local), now)
    {
      var pending := local.Keys;
      while pending != {}
        invariant pending <= old(local.Keys)
        invariant forall key ::
          key in local <==> key in old(local) && (key in pending || old(local)[key].expiresAt > now)
        invariant forall key <- local :: local[key] == old(local)[key]
        decreases |pending|
      {
        var key :| key in pending;
        if key in local && local[key].expiresAt <= now { local := local - {key}; }
        pending := pending - {key};
      }
    }
  }
}
