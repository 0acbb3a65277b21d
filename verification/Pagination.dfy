/** Keyset pagination (src/common/pagination/cursor.util.ts and paginate.util.ts). */
module Pagination {
  import opened Options
  import opened Queries

  datatype Direction = Asc | Desc
  datatype SortKey = SortKey(field: string, direction: Direction)
  type Keys = seq<SortKey>

  /** A sort key's value in a document. */
  function Val(d: Doc, field: string): int { if field in d && d[field].One? then d[field].value else 0 }

  predicate Sortable(keys: Keys, d: Doc) { forall i :: 0 <= i < |keys| ==> keys[i].field in d && d[keys[i].field].One? }
  predicate DistinctFields(keys: Keys) { forall i, j :: 0 <= i < j < |keys| ==> keys[i].field != keys[j].field }

  // ---------- the compound order ----------

  predicate Precedes(k: SortKey, a: Doc, b: Doc) {
    match k.direction
    case Asc => Val(a, k.field) < Val(b, k.field)
    case Desc => Val(a, k.field) > Val(b, k.field)
  }

  /** `a` comes strictly before `b` in the compound sort. */
  predicate Before(keys: Keys, a: Doc, b: Doc) {
    keys != []
        && (Precedes(keys[0], a, b) || (Val(a, keys[0].field) == Val(b, keys[0].field) && Before(keys[1..], a, b)))
  }

  lemma {:induction false} BeforeIsTransitive(keys: Keys, a: Doc, b: Doc, c: Doc)
    requires Before(keys, a, b) && Before(keys, b, c)
    ensures Before(keys, a, c)
  {
    if !Precedes(keys[0], a, b) && !Precedes(keys[0], b, c) { BeforeIsTransitive(keys[1..], a, b, c); }
  }

  lemma {:induction false} BeforeIsAsymmetric(keys: Keys, a: Doc, b: Doc)
    requires Before(keys, a, b)
    ensures !Before(keys, b, a)
  {
    if !Precedes(keys[0], a, b) { BeforeIsAsymmetric(keys[1..], a, b); }
  }

  /** The last key is unique: it identifies a document. */
  function Identity(keys: Keys, d: Doc): int
    requires keys != []
  {
    Val(d, keys[|keys| - 1].field)
  }

  lemma {:induction false} BeforeIsTotal(keys: Keys, a: Doc, b: Doc)
    requires keys != [] && Identity(keys, a) != Identity(keys, b)
    ensures Before(keys, a, b) || Before(keys, b, a)
  {
    if |keys| > 1 && Val(a, keys[0].field) == Val(b, keys[0].field) { BeforeIsTotal(keys[1..], a, b); }
  }

  // ---------- the keyset filter ----------

  function Equalities(keys: Keys, boundary: Doc, n: nat): map<string, Cond>
    requires n <= |keys|
  {
    if n == 0 then map[]
    else Equalities(keys, boundary, n - 1)[keys[n - 1].field := Eq(Val(boundary, keys[n - 1].field))]
  }

  function Comparison(k: SortKey, boundary: Doc): Cond {
    if k.direction.Desc? then Lt(Val(boundary, k.field)) else Gt(Val(boundary, k.field))
  }

  function Clause(keys: Keys, boundary: Doc, i: nat): Filter
    requires i < |keys|
  {
    Filter(Equalities(keys, boundary, i)[keys[i].field := Comparison(keys[i], boundary)])
  }

  function Clauses(keys: Keys, boundary: Doc, n: nat): seq<Filter>
    requires n <= |keys|
  {
    if n == 0 then [] else Clauses(keys, boundary, n - 1) + [Clause(keys, boundary, n - 1)]
  }

  function KeysetFilter(keys: Keys, boundary: Doc): Filter { Or(Clauses(keys, boundary, |keys|)) }

  /** The nested loops that fill the clauses and the disjunction. */
  method BuildKeysetFilter(keys: Keys, boundary: Doc) returns (filter: Filter)
    ensures filter == KeysetFilter(keys, boundary)
    ensures DistinctFields(keys) ==> forall d: Doc ::
      Sortable(keys, d) ==> (Matches(filter, d) <==> Before(keys, boundary, d))
  {
    var or: seq<Filter> := [];
    for i := 0 to |keys|
      invariant or == Clauses(keys, boundary, i)
    {
      var clause: map<string, Cond> := map[];
      for j := 0 to i
        invariant clause == Equalities(keys, boundary, j)
      {
        clause := clause[keys[j].field := Eq(Val(boundary, keys[j].field))];
      }
      var v := Val(boundary, keys[i].field);
      clause := clause[keys[i].field := if keys[i].direction.Desc? then Lt(v) else Gt(v)];
      or := or + [Filter(clause)];
    }
    filter := Or(or);
    if DistinctFields(keys) {
      forall d: Doc | Sortable(keys, d) ensures Matches(filter, d) <==> Before(keys, boundary, d) {
        KeysetFilterMeansAfter(keys, boundary, d);
      }
    }
  }

  ghost predicate TiedUpTo(keys: Keys, a: Doc, b: Doc, n: nat)
    requires n <= |keys|
  {
    forall j :: 0 <= j < n ==> Val(a, keys[j].field) == Val(b, keys[j].field)
  }

  lemma {:induction false} EqualitiesShape(keys: Keys, boundary: Doc, n: nat)
    requires n <= |keys| && DistinctFields(keys)
    ensures var eqs := Equalities(keys, boundary, n);
      && (forall j :: 0 <= j < n ==> keys[j].field in eqs && eqs[keys[j].field] == Eq(Val(boundary, keys[j].field)))
      && (forall field <- eqs :: exists j :: 0 <= j < n && field == keys[j].field)
  {
    if n > 0 { EqualitiesShape(keys, boundary, n - 1); }
  }

  lemma TiesMean(keys: Keys, boundary: Doc, n: nat, d: Doc)
    requires n <= |keys| && DistinctFields(keys) && Sortable(keys, d)
    ensures Matches(Filter(Equalities(keys, boundary, n)), d) <==> TiedUpTo(keys, boundary, d, n)
  {
    var eqs := Equalities(keys, boundary, n);
    EqualitiesShape(keys, boundary, n);
    if Matches(Filter(eqs), d) {
      forall j | 0 <= j < n ensures Val(boundary, keys[j].field) == Val(d, keys[j].field) {
        assert keys[j].field in eqs && Holds(eqs[keys[j].field], keys[j].field, d);
      }
    }
    if TiedUpTo(keys, boundary, d, n) {
      forall field <- eqs ensures Holds(eqs[field], field, d) {
        var j :| 0 <= j < n && field == keys[j].field;
      }
    }
  }

  /** Adding a condition under a new key is conjunction with it. */
  lemma AddedCondition(eqs: map<string, Cond>, field: string, c: Cond, d: Doc)
    requires field !in eqs
    ensures Matches(Filter(eqs[field := c]), d) <==> Matches(Filter(eqs), d) && Holds(c, field, d)
  {
    var f := Filter(eqs[field := c]);
    if Matches(f, d) {
      assert field in f.top;
      forall k <- eqs ensures Holds(eqs[k], k, d) { assert k in f.top && f.top[k] == eqs[k]; }
    }
  }

  /** One clause says: tied on the earlier keys, past the boundary on this one. */
  lemma ClauseMeans(keys: Keys, boundary: Doc, i: nat, d: Doc)
    requires i < |keys| && DistinctFields(keys) && Sortable(keys, d)
    ensures Matches(Clause(keys, boundary, i), d) <==> TiedUpTo(keys, boundary, d, i) && Precedes(keys[i], boundary, d)
  {
    EqualitiesShape(keys, boundary, i);
    TiesMean(keys, boundary, i, d);
    AddedCondition(Equalities(keys, boundary, i), keys[i].field, Comparison(keys[i], boundary), d);
  }

  lemma {:induction false} ClausesIndex(keys: Keys, boundary: Doc, n: nat)
    requires n <= |keys|
    ensures |Clauses(keys, boundary, n)| == n
    ensures forall i :: 0 <= i < n ==> Clauses(keys, boundary, n)[i] == Clause(keys, boundary, i)
  {
    if n > 0 { ClausesIndex(keys, boundary, n - 1); }
  }

  /** The recursive order, unrolled: some key decides, and all before it are tied. */
  lemma {:induction false} BeforeUnrolled(keys: Keys, a: Doc, b: Doc)
    ensures Before(keys, a, b) <==> exists i: nat :: Decides(keys, a, b, i)
  {
    if keys != [] {
      var rest := keys[1..];
      BeforeUnrolled(rest, a, b);
      if Before(keys, a, b) {
        if Precedes(keys[0], a, b) {
          assert Decides(keys, a, b, 0);
        } else {
          var i: nat :| Decides(rest, a, b, i);
          DecidesLater(keys, a, b, i);
        }
      }
      if exists i: nat :: Decides(keys, a, b, i) {
        var i: nat :| Decides(keys, a, b, i);
        if i > 0 { DecidesLater(keys, a, b, i - 1); }
      }
    }
  }

  lemma DecidesLater(keys: Keys, a: Doc, b: Doc, i: nat)
    requires keys != []
    ensures Decides(keys, a, b, i + 1)
        <==> Val(a, keys[0].field) == Val(b, keys[0].field) && Decides(keys[1..], a, b, i)
  {
    if Decides(keys, a, b, i + 1) {
      forall j | 0 <= j < i ensures Val(a, keys[1..][j].field) == Val(b, keys[1..][j].field) {
        assert keys[1..][j] == keys[j + 1];
      }
    }
    if Val(a, keys[0].field) == Val(b, keys[0].field) && Decides(keys[1..], a, b, i) {
      forall j | 0 <= j < i + 1 ensures Val(a, keys[j].field) == Val(b, keys[j].field) {
        if j > 0 { assert keys[1..][j - 1] == keys[j]; }
      }
    }
  }

  ghost predicate Decides(keys: Keys, a: Doc, b: Doc, i: nat) {
    i < |keys| && TiedUpTo(keys, a, b, i) && Precedes(keys[i], a, b)
  }

  /** Some clause holds exactly when some key decides. */
  lemma ClausesDecide(keys: Keys, boundary: Doc, d: Doc)
    requires DistinctFields(keys) && Sortable(keys, d)
    ensures (exists f <- Clauses(keys, boundary, |keys|) :: Matches(f, d))
        <==> exists i: nat :: Decides(keys, boundary, d, i)
  {
    var cs := Clauses(keys, boundary, |keys|);
    ClausesIndex(keys, boundary, |keys|);
    forall i | 0 <= i < |keys| ensures cs[i] in cs && (Matches(cs[i], d) <==> Decides(keys, boundary, d, i)) {
      ClauseMeans(keys, boundary, i, d);
    }
    if exists f <- cs :: Matches(f, d) {
      var f :| f in cs && Matches(f, d);
      var i :| 0 <= i < |cs| && cs[i] == f;
      assert Decides(keys, boundary, d, i);
    }
  }

  /** The filter holds of a document exactly when it comes strictly after the boundary. */
  lemma KeysetFilterMeansAfter(keys: Keys, boundary: Doc, d: Doc)
    requires DistinctFields(keys) && Sortable(keys, d)
    ensures Matches(KeysetFilter(keys, boundary), d) <==> Before(keys, boundary, d)
  {
    OrMatches(Clauses(keys, boundary, |keys|), d);
    ClausesDecide(keys, boundary, d);
    BeforeUnrolled(keys, boundary, d);
  }

  // ---------- one page ----------

  /** The documents a query returns, in the requested order. */
  ghost function Select(docs: seq<Doc>, f: Filter): seq<Doc> {
    if docs == [] then []
    else if Matches(f, docs[0]) then [docs[0]] + Select(docs[1..], f) else Select(docs[1..], f)
  }

  function Insert(keys: Keys, d: Doc, sorted: seq<Doc>): seq<Doc> {
    if sorted == [] || Before(keys, d, sorted[0]) then [d] + sorted else [sorted[0]] + Insert(keys, d, sorted[1..])
  }

  function Sort(keys: Keys, docs: seq<Doc>): seq<Doc> {
    if docs == [] then [] else Insert(keys, docs[0], Sort(keys, docs[1..]))
  }

  /** The cursor carries the document's own sort values and nothing else. */
  function ExtractCursorPayload(d: Doc, keys: Keys): Doc {
    map k <- keys | k.field in d :: k.field := d[k.field]
  }

  datatype Page = Page(items: seq<Doc>, next: Option<Doc>)

  ghost function Found(keys: Keys, db: seq<Doc>, filter: Filter, cursor: Option<Doc>): seq<Doc> {
    Sort(keys, Select(db, WithCursor(filter, if cursor.Some? then Some(KeysetFilter(keys, cursor.value)) else None)))
  }

  function Take(docs: seq<Doc>, n: nat): seq<Doc> { if |docs| <= n then docs else docs[..n] }

  ghost function Paginate(keys: Keys, db: seq<Doc>, filter: Filter, cursor: Option<Doc>, pageSize: nat): Page
    requires pageSize > 0
  {
    Cut(keys, Found(keys, db, filter, cursor), pageSize)
  }

  /** One row more than a page is fetched; its presence is what says there is a next page. */
  function Cut(keys: Keys, found: seq<Doc>, pageSize: nat): Page
    requires pageSize > 0
  {
    var docs := Take(found, pageSize + 1);
    var hasMore := |docs| > pageSize;
    var items := if hasMore then docs[..pageSize] else docs;
    Page(items, if hasMore then Some(ExtractCursorPayload(items[|items| - 1], keys)) else None)
  }

  // ---------- what a page contains ----------

  ghost predicate Collection(keys: Keys, db: seq<Doc>) {
    && keys != [] && DistinctFields(keys)
    && (forall d <- db :: Sortable(keys, d))
    && DistinctIdentities(keys, db)
  }

  ghost predicate DistinctIdentities(keys: Keys, docs: seq<Doc>)
    requires keys != []
  {
    forall i, j :: 0 <= i < j < |docs| ==> Identity(keys, docs[i]) != Identity(keys, docs[j])
  }

  ghost predicate Sorted(keys: Keys, docs: seq<Doc>) {
    forall i, j :: 0 <= i < j < |docs| ==> Before(keys, docs[i], docs[j])
  }

  lemma {:induction false} SelectMembers(docs: seq<Doc>, f: Filter)
    ensures forall d :: d in Select(docs, f) <==> d in docs && Matches(f, d)
  {
    if docs != [] {
      SelectMembers(docs[1..], f);
      assert docs == [docs[0]] + docs[1..];
    }
  }

  lemma {:induction false} SelectKeepsIdentities(keys: Keys, docs: seq<Doc>, f: Filter)
    requires keys != [] && DistinctIdentities(keys, docs)
    ensures DistinctIdentities(keys, Select(docs, f))
  {
    if docs != [] {
      var rest := Select(docs[1..], f);
      SelectKeepsIdentities(keys, docs[1..], f);
      SelectMembers(docs[1..], f);
      forall j | 0 <= j < |rest| ensures Identity(keys, docs[0]) != Identity(keys, rest[j]) {
        assert rest[j] in docs[1..];
        var k :| 0 <= k < |docs[1..]| && docs[1..][k] == rest[j];
        assert docs[k + 1] == rest[j];
      }
      assert DistinctIdentities(keys, rest);
      assert Select(docs, f) == rest || Select(docs, f) == [docs[0]] + rest;
    }
  }

  lemma {:induction false} InsertMembers(keys: Keys, d: Doc, sorted: seq<Doc>)
    ensures forall x :: x in Insert(keys, d, sorted) <==> x == d || x in sorted
  {
    if sorted != [] && !Before(keys, d, sorted[0]) {
      InsertMembers(keys, d, sorted[1..]);
      assert sorted == [sorted[0]] + sorted[1..];
    }
  }

  lemma {:induction false} InsertSorts(keys: Keys, d: Doc, sorted: seq<Doc>)
    requires keys != [] && Sorted(keys, sorted) && forall x <- sorted :: Identity(keys, x) != Identity(keys, d)
    ensures Sorted(keys, Insert(keys, d, sorted))
  {
    if sorted != [] {
      var head, rest := sorted[0], sorted[1..];
      if Before(keys, d, head) {
        forall i | 0 <= i < |rest| ensures Before(keys, d, rest[i]) { BeforeIsTransitive(keys, d, head, rest[i]); }
      } else {
        InsertSorts(keys, d, rest);
        InsertMembers(keys, d, rest);
        BeforeIsTotal(keys, d, head);
        forall x <- Insert(keys, d, rest) ensures Before(keys, head, x) {
          if x != d { var i :| 0 <= i < |rest| && rest[i] == x; assert sorted[i + 1] == x; }
        }
      }
    }
  }

  lemma {:induction false} SortIsSorted(keys: Keys, docs: seq<Doc>)
    requires keys != [] && DistinctIdentities(keys, docs)
    ensures Sorted(keys, Sort(keys, docs))
    ensures forall d :: d in Sort(keys, docs) <==> d in docs
  {
    if docs != [] {
      var head, rest := docs[0], docs[1..];
      SortIsSorted(keys, rest);
      forall x <- Sort(keys, rest) ensures Identity(keys, x) != Identity(keys, head) {
        var i :| 0 <= i < |rest| && rest[i] == x;
        assert docs[i + 1] == x;
      }
      InsertSorts(keys, head, Sort(keys, rest));
      InsertMembers(keys, head, Sort(keys, rest));
      assert docs == [head] + rest;
    }
  }

  ghost predicate AfterCursor(keys: Keys, cursor: Option<Doc>, d: Doc) {
    cursor.Some? ==> Before(keys, cursor.value, d)
  }

  /** A query finds exactly the matching documents after its cursor, strictly sorted. */
  lemma FoundIsExact(keys: Keys, db: seq<Doc>, filter: Filter, cursor: Option<Doc>)
    requires Collection(keys, db)
    ensures var found := Found(keys, db, filter, cursor);
      Sorted(keys, found) && forall d :: d in found <==> d in db && Matches(filter, d) && AfterCursor(keys, cursor, d)
  {
    var keyset := if cursor.Some? then Some(KeysetFilter(keys, cursor.value)) else None;
    var q := WithCursor(filter, keyset);
    SelectMembers(db, q);
    SelectKeepsIdentities(keys, db, q);
    SortIsSorted(keys, Select(db, q));
    forall d <- db ensures Matches(q, d) <==> Matches(filter, d) && AfterCursor(keys, cursor, d) {
      if cursor.Some? {
        PairMatches(filter, keyset.value, d);
        KeysetFilterMeansAfter(keys, cursor.value, d);
      }
    }
  }

  /** Two strictly sorted lists with the same members are the same list. */
  lemma {:induction false} SortedListsAgree(keys: Keys, s: seq<Doc>, t: seq<Doc>)
    requires Sorted(keys, s) && Sorted(keys, t) && forall d :: d in s <==> d in t
    ensures s == t
  {
    NonEmptyHasMember(s);
    NonEmptyHasMember(t);
    if s != [] {
      assert s[0] in t;
      assert t[0] in s;
      var i :| 0 <= i < |t| && t[i] == s[0];
      var j :| 0 <= j < |s| && s[j] == t[0];
      if i > 0 && j > 0 { BeforeIsAsymmetric(keys, s[0], t[0]); }
      HeadIsNotInTail(keys, s);
      HeadIsNotInTail(keys, t);
      forall d ensures d in s[1..] <==> d in t[1..] {
        assert s == [s[0]] + s[1..] && t == [t[0]] + t[1..];
        assert d in s <==> d in t;
      }
      SortedListsAgree(keys, s[1..], t[1..]);
      assert s == [s[0]] + s[1..] && t == [t[0]] + t[1..];
    }
  }

  lemma NonEmptyHasMember(s: seq<Doc>)
    ensures s != [] ==> exists d :: d in s
  {
    if s != [] { assert s[0] in s; }
  }

  lemma HeadIsNotInTail(keys: Keys, s: seq<Doc>)
    requires s != [] && Sorted(keys, s)
    ensures s[0] !in s[1..]
  {
    forall i | 0 <= i < |s[1..]| ensures s[1..][i] != s[0] {
      assert Before(keys, s[0], s[i + 1]);
      BeforeIsAsymmetric(keys, s[0], s[i + 1]);
    }
  }

  // ---------- walking a fixed collection ----------

  /** Documents tied on every key compare alike with any third one. */
  lemma {:induction false} TiedCompareAlike(keys: Keys, a: Doc, b: Doc, x: Doc)
    requires TiedUpTo(keys, a, b, |keys|)
    ensures Before(keys, a, x) <==> Before(keys, b, x)
    ensures Before(keys, x, a) <==> Before(keys, x, b)
  {
    if keys != [] {
      forall j | 0 <= j < |keys[1..]| ensures Val(a, keys[1..][j].field) == Val(b, keys[1..][j].field) {
        assert keys[1..][j] == keys[j + 1];
      }
      TiedCompareAlike(keys[1..], a, b, x);
    }
  }

  /** The payload compares as the document it came from. */
  lemma PayloadComparesAlike(keys: Keys, d: Doc, x: Doc)
    requires Sortable(keys, d)
    ensures Before(keys, ExtractCursorPayload(d, keys), x) <==> Before(keys, d, x)
    ensures Before(keys, x, ExtractCursorPayload(d, keys)) <==> Before(keys, x, d)
  {
    forall j | 0 <= j < |keys| ensures Val(ExtractCursorPayload(d, keys), keys[j].field) == Val(d, keys[j].field) {
      assert keys[j] in keys;
    }
    TiedCompareAlike(keys, ExtractCursorPayload(d, keys), d, x);
  }

  /** In a strictly sorted list, what comes after position `n - 1` is the tail from `n`. */
  lemma TailIsAfter(keys: Keys, found: seq<Doc>, n: nat, d: Doc)
    requires Sorted(keys, found) && 0 < n < |found|
    ensures d in found && Before(keys, found[n - 1], d) <==> d in found[n..]
  {
    if d in found {
      var i :| 0 <= i < |found| && found[i] == d;
      if i < n {
        NotBeforeEarlier(keys, found, i, n - 1);
        forall k | 0 <= k < |found[n..]| ensures found[n..][k] != d {
          NotBeforeEarlier(keys, found, i, n + k);
          NotBeforeEarlier(keys, found, n + k, n + k);
          assert Before(keys, found[i], found[n + k]);
        }
      } else {
        assert found[n..][i - n] == d;
      }
    }
  }

  lemma NotBeforeEarlier(keys: Keys, s: seq<Doc>, i: nat, j: nat)
    requires Sorted(keys, s) && i <= j < |s|
    ensures !Before(keys, s[j], s[i])
  {
    if Before(keys, s[j], s[i]) { BeforeIsAsymmetric(keys, s[j], s[i]); }
  }

  /** What remains after the cursor of a page is the rest of what was found. */
  lemma NextCursorContinues(keys: Keys, db: seq<Doc>, filter: Filter, cursor: Option<Doc>, n: nat)
    requires Collection(keys, db) && 0 < n < |Found(keys, db, filter, cursor)|
    ensures var found := Found(keys, db, filter, cursor);
            Found(keys, db, filter, Some(ExtractCursorPayload(found[n - 1], keys))) == found[n..]
  {
    var found := Found(keys, db, filter, cursor);
    var last := found[n - 1];
    var next := Some(ExtractCursorPayload(last, keys));
    FoundIsExact(keys, db, filter, cursor);
    FoundIsExact(keys, db, filter, next);
    assert last in found;
    forall d ensures d in Found(keys, db, filter, next) <==> d in found[n..] {
      PayloadComparesAlike(keys, last, d);
      TailIsAfter(keys, found, n, d);
      if cursor.Some? && Before(keys, last, d) { BeforeIsTransitive(keys, cursor.value, last, d); }
    }
    SortedListsAgree(keys, Found(keys, db, filter, next), found[n..]);
  }

  /** A page is the head of what its query found, and its cursor, if any, leads to the rest. */
  lemma PageThenRest(keys: Keys, db: seq<Doc>, filter: Filter, cursor: Option<Doc>, pageSize: nat)
    requires Collection(keys, db) && pageSize > 0
    ensures var found, page := Found(keys, db, filter, cursor), Paginate(keys, db, filter, cursor, pageSize);
            if page.next.None? then page.items == found
            else |found| > pageSize && page.items == found[..pageSize]
                 && page.next == Some(ExtractCursorPayload(found[pageSize - 1], keys))
                 && Found(keys, db, filter, page.next) == found[pageSize..]
  {
    CutShape(keys, Found(keys, db, filter, cursor), pageSize);
    if |Found(keys, db, filter, cursor)| > pageSize { NextCursorContinues(keys, db, filter, cursor, pageSize); }
  }

  lemma CutShape(keys: Keys, found: seq<Doc>, pageSize: nat)
    requires pageSize > 0
    ensures var page := Cut(keys, found, pageSize);
            if |found| <= pageSize then page == Page(found, None)
            else page == Page(found[..pageSize], Some(ExtractCursorPayload(found[pageSize - 1], keys)))
  {
    if |found| > pageSize { assert Take(found, pageSize + 1)[..pageSize] == found[..pageSize]; }
  }

  /** Following cursors to the end of a fixed collection. It terminates because each page leaves
      strictly fewer documents after its cursor. */
  ghost function Walk(keys: Keys, db: seq<Doc>, filter: Filter, cursor: Option<Doc>, pageSize: nat): seq<Doc>
    requires Collection(keys, db) && pageSize > 0
    decreases |Found(keys, db, filter, cursor)|
  {
    var page := Paginate(keys, db, filter, cursor, pageSize);
    PageThenRest(keys, db, filter, cursor, pageSize);
    if page.next.None? then page.items else page.items + Walk(keys, db, filter, page.next, pageSize)
  }

  lemma WalkUnfolds(keys: Keys, db: seq<Doc>, filter: Filter, cursor: Option<Doc>, pageSize: nat)
    requires Collection(keys, db) && pageSize > 0
    ensures var page := Paginate(keys, db, filter, cursor, pageSize);
            Walk(keys, db, filter, cursor, pageSize)
            == if page.next.None? then page.items else page.items + Walk(keys, db, filter, page.next, pageSize)
  {
  }

  /** The pages concatenate to the fully sorted, filtered collection. */
  lemma {:induction false} PagesConcatenateToTheSortedList(keys: Keys, db: seq<Doc>, filter: Filter,
                                                           cursor: Option<Doc>, pageSize: nat)
    requires Collection(keys, db) && pageSize > 0
    ensures Walk(keys, db, filter, cursor, pageSize) == Found(keys, db, filter, cursor)
    decreases |Found(keys, db, filter, cursor)|
  {
    var found, page := Found(keys, db, filter, cursor), Paginate(keys, db, filter, cursor, pageSize);
    PageThenRest(keys, db, filter, cursor, pageSize);
    WalkUnfolds(keys, db, filter, cursor, pageSize);
    if page.next.Some? {
      PagesConcatenateToTheSortedList(keys, db, filter, page.next, pageSize);
      assert found == found[..pageSize] + found[pageSize..];
    }
  }
}
