/** Page walks while the collection changes between pages: every page reads the database as it is
    then, from the cursor the previous page returned. */
module PageWalk {
  import opened Options
  import opened Queries
  import opened Pagination

  /** One page request: the database it saw, the cursor it carried, the page it got. */
  datatype Visit = Visit(db: seq<Doc>, cursor: Option<Doc>, page: Page)

  /** Each visit but the first carries the cursor the one before returned. */
  ghost predicate Chained(visits: seq<Visit>) {
    && (visits != [] ==> visits[0].cursor.None?)
    && forall i, j :: 0 <= i < j < |visits| && j == i + 1 ==>
         visits[i].page.next.Some? && visits[j].cursor == visits[i].page.next
  }

  ghost predicate IsWalk(keys: Keys, filter: Filter, pageSize: nat, visits: seq<Visit>) {
    && keys != [] && pageSize > 0 && Chained(visits)
    && forall v <- visits :: Collection(keys, v.db) && v.page == Paginate(keys, v.db, filter, v.cursor, pageSize)
  }

  /** The walk reached a page with no next cursor. */
  ghost predicate IsComplete(visits: seq<Visit>) { visits != [] && visits[|visits| - 1].page.next.None? }

  /** A page's items are in the database, matching, after the cursor and sorted, and no such row was
      missed unless it lies after the last item of a page that has a next one. */
  ghost predicate VisitIsExact(keys: Keys, filter: Filter, v: Visit) {
    && (forall d <- v.db :: Sortable(keys, d))
    && Sorted(keys, v.page.items)
    && (forall d <- v.page.items :: d in v.db && Matches(filter, d) && AfterCursor(keys, v.cursor, d))
    && (v.page.next.Some? ==>
          v.page.items != [] && v.page.next == Some(ExtractCursorPayload(v.page.items[|v.page.items| - 1], keys)))
    && (forall d <- v.db :: Matches(filter, d) && AfterCursor(keys, v.cursor, d) && d !in v.page.items ==>
          v.page.next.Some? && Before(keys, v.page.items[|v.page.items| - 1], d))
  }

  lemma PagesAreExact(keys: Keys, filter: Filter, pageSize: nat, v: Visit)
    requires pageSize > 0 && Collection(keys, v.db) && v.page == Paginate(keys, v.db, filter, v.cursor, pageSize)
    ensures VisitIsExact(keys, filter, v)
  {
    var found := Found(keys, v.db, filter, v.cursor);
    PageThenRest(keys, v.db, filter, v.cursor, pageSize);
    FoundIsExact(keys, v.db, filter, v.cursor);
    HeadOfSorted(keys, found, v.page.items, v.page.next.Some?);
  }

  /** A head of a sorted list is sorted, and what it leaves out comes after its last element. */
  lemma HeadOfSorted(keys: Keys, found: seq<Doc>, items: seq<Doc>, cut: bool)
    requires Sorted(keys, found) && items <= found && (if cut then items != [] else items == found)
    ensures Sorted(keys, items) && forall d <- items :: d in found
    ensures forall d <- found :: d !in items ==> cut && Before(keys, items[|items| - 1], d)
  {
    assert forall k :: 0 <= k < |items| ==> items[k] == found[k] && items[k] in items;
    forall d <- found | d !in items ensures cut && Before(keys, items[|items| - 1], d) {
      var i :| 0 <= i < |found| && found[i] == d;
    }
  }

  // ---------- later pages come after earlier ones ----------

  /** What comes after a page's cursor comes after everything on the page. */
  lemma AfterPageMeansAfterItems(keys: Keys, filter: Filter, v: Visit, x: Doc, d: Doc)
    requires VisitIsExact(keys, filter, v) && v.page.next.Some? && x in v.page.items
    requires Before(keys, v.page.next.value, d)
    ensures Before(keys, x, d)
  {
    var last := v.page.items[|v.page.items| - 1];
    assert last in v.page.items;
    assert Sortable(keys, last);
    PayloadComparesAlike(keys, last, d);
    AfterLastMeansAfterAll(keys, v.page.items, x, d);
  }

  lemma AfterLastMeansAfterAll(keys: Keys, items: seq<Doc>, x: Doc, d: Doc)
    requires x in items && Sorted(keys, items) && Before(keys, items[|items| - 1], d)
    ensures Before(keys, x, d)
  {
    var i :| 0 <= i < |items| && items[i] == x;
    if i < |items| - 1 { BeforeIsTransitive(keys, x, items[|items| - 1], d); }
  }

  ghost predicate AllExact(keys: Keys, filter: Filter, visits: seq<Visit>) {
    forall i :: 0 <= i < |visits| ==> VisitIsExact(keys, filter, visits[i])
  }

  lemma WalksAreExact(keys: Keys, filter: Filter, pageSize: nat, visits: seq<Visit>)
    requires IsWalk(keys, filter, pageSize, visits)
    ensures AllExact(keys, filter, visits)
  {
    forall i | 0 <= i < |visits| ensures VisitIsExact(keys, filter, visits[i]) {
      assert visits[i] in visits;
      PagesAreExact(keys, filter, pageSize, visits[i]);
    }
  }

  /** An item of a page comes after the cursor the page before returned, and that page was not empty. */
  lemma ItemsFollowCursor(keys: Keys, filter: Filter, visits: seq<Visit>, j: nat, y: Doc)
    requires Chained(visits) && AllExact(keys, filter, visits) && 0 < j < |visits| && y in visits[j].page.items
    ensures visits[j - 1].page.next.Some? && Before(keys, visits[j - 1].page.next.value, y)
    ensures visits[j - 1].page.items != []
  {
    assert VisitIsExact(keys, filter, visits[j - 1]) && VisitIsExact(keys, filter, visits[j]);
    assert visits[j].cursor == visits[j - 1].page.next;
  }

  /** Every item of a later page comes strictly after every item of an earlier one. */
  lemma {:induction false} PagesAdvance(keys: Keys, filter: Filter, visits: seq<Visit>, i: nat, j: nat, x: Doc, y: Doc)
    requires Chained(visits) && AllExact(keys, filter, visits)
    requires i < j < |visits| && x in visits[i].page.items && y in visits[j].page.items
    ensures Before(keys, x, y)
    decreases j
  {
    ItemsFollowCursor(keys, filter, visits, j, y);
    if i == j - 1 {
      AfterPageMeansAfterItems(keys, filter, visits[j - 1], x, y);
    } else {
      var between := visits[j - 1].page.items[0];
      assert between in visits[j - 1].page.items;
      AfterPageMeansAfterItems(keys, filter, visits[j - 1], between, y);
      PagesAdvance(keys, filter, visits, i, j - 1, x, between);
      BeforeIsTransitive(keys, x, between, y);
    }
  }

  lemma IdentityDetermines(keys: Keys, db: seq<Doc>, x: Doc, y: Doc)
    requires Collection(keys, db) && x in db && y in db && Identity(keys, x) == Identity(keys, y)
    ensures x == y
  {
    var i :| 0 <= i < |db| && db[i] == x;
    var j :| 0 <= j < |db| && db[j] == y;
  }

  /** Between pages rows only move toward the head of the sort, if they move. */
  ghost predicate OnlyTowardHead(keys: Keys, visits: seq<Visit>)
    requires keys != []
  {
    forall i, j, x, y ::
      0 <= i < j < |visits| && x in visits[i].db && y in visits[j].db && Identity(keys, x) == Identity(keys, y) ==>
      !Before(keys, x, y)
  }

  /** If rows only move toward the head, no row is ever returned twice, on one page or on two. */
  lemma NoRowIsReturnedTwice(keys: Keys, filter: Filter, pageSize: nat, visits: seq<Visit>, i: nat, p: nat, j: nat,
                             q: nat)
    requires IsWalk(keys, filter, pageSize, visits) && OnlyTowardHead(keys, visits)
    requires i < |visits| && j < |visits| && p < |visits[i].page.items| && q < |visits[j].page.items|
    requires Identity(keys, visits[i].page.items[p]) == Identity(keys, visits[j].page.items[q])
    ensures i == j && p == q
  {
    var x, y := visits[i].page.items[p], visits[j].page.items[q];
    WalksAreExact(keys, filter, pageSize, visits);
    assert VisitIsExact(keys, filter, visits[i]) && VisitIsExact(keys, filter, visits[j]);
    assert x in visits[i].page.items && y in visits[j].page.items;
    if i < j {
      PagesAdvance(keys, filter, visits, i, j, x, y);
    } else if j < i {
      PagesAdvance(keys, filter, visits, j, i, y, x);
    } else {
      assert visits[i] in visits;
      IdentityDetermines(keys, visits[i].db, x, y);
      NotBeforeItself(keys, x);
    }
  }

  lemma NotBeforeItself(keys: Keys, d: Doc)
    ensures !Before(keys, d, d)
  {
    if Before(keys, d, d) { BeforeIsAsymmetric(keys, d, d); }
  }

  // ---------- no row is skipped ----------

  lemma MissedRowIsAhead(keys: Keys, filter: Filter, v: Visit, row: Doc)
    requires VisitIsExact(keys, filter, v)
    requires row in v.db && Matches(filter, row) && AfterCursor(keys, v.cursor, row) && row !in v.page.items
    ensures v.page.next.Some? && Before(keys, v.page.next.value, row)
  {
    var last := v.page.items[|v.page.items| - 1];
    assert last in v.page.items;
    PayloadComparesAlike(keys, last, row);
  }

  /** One row as each visit saw it, from visit `from` on: matching there, and always at the same
      place in the sort. Its other fields may change from page to page. */
  ghost predicate Stays(keys: Keys, filter: Filter, visits: seq<Visit>, rows: seq<Doc>, from: nat) {
    && |rows| == |visits|
    && (forall k :: from <= k < |visits| ==> rows[k] in visits[k].db && Matches(filter, rows[k]))
    && (forall j, k :: from <= j < |visits| && from <= k < |visits| ==> TiedUpTo(keys, rows[j], rows[k], |keys|))
  }

  /** A row that stays from some page on, and is not yet passed there, is returned by a later page. */
  lemma {:induction false} RowIsReached(keys: Keys, filter: Filter, visits: seq<Visit>, rows: seq<Doc>, i: nat)
    returns (j: nat)
    requires Chained(visits) && AllExact(keys, filter, visits) && IsComplete(visits) && i < |visits|
    requires Stays(keys, filter, visits, rows, i) && AfterCursor(keys, visits[i].cursor, rows[i])
    ensures i <= j < |visits| && rows[j] in visits[j].page.items
    decreases |visits| - i
  {
    j := i;
    if rows[i] !in visits[i].page.items {
      MissedRowIsAhead(keys, filter, visits[i], rows[i]);
      assert visits[i + 1].cursor == visits[i].page.next;
      TiedCompareAlike(keys, rows[i], rows[i + 1], visits[i].page.next.value);
      j := RowIsReached(keys, filter, visits, rows, i + 1);
    }
  }

  /** The row with this identity is item `p` of page `i`. */
  ghost predicate AppearsAt(keys: Keys, visits: seq<Visit>, identity: int, i: nat, p: nat)
    requires keys != []
  {
    i < |visits| && p < |visits[i].page.items| && Identity(keys, visits[i].page.items[p]) == identity
  }

  /** A row that stays put is, wherever its identity appears, the version that page saw. */
  lemma AppearanceIsTheRow(keys: Keys, filter: Filter, pageSize: nat, visits: seq<Visit>, rows: seq<Doc>, from: nat,
                           j: nat, q: nat)
    requires IsWalk(keys, filter, pageSize, visits) && AllExact(keys, filter, visits)
    requires from < |visits| && Stays(keys, filter, visits, rows, from)
    requires from <= j && AppearsAt(keys, visits, Identity(keys, rows[from]), j, q)
    ensures visits[j].page.items[q] == rows[j]
  {
    var item := visits[j].page.items[q];
    assert VisitIsExact(keys, filter, visits[j]) && item in visits[j].page.items && visits[j] in visits;
    assert TiedUpTo(keys, rows[from], rows[j], |keys|);
    IdentityDetermines(keys, visits[j].db, item, rows[j]);
  }

  /** A row that stays put is not on two pages. */
  lemma NotOnTwoPages(keys: Keys, filter: Filter, visits: seq<Visit>, rows: seq<Doc>, i: nat, j: nat)
    requires Chained(visits) && AllExact(keys, filter, visits) && Stays(keys, filter, visits, rows, 0)
    requires i < |visits| && j < |visits| && rows[i] in visits[i].page.items && rows[j] in visits[j].page.items
    ensures !(i < j)
  {
    if i < j {
      PagesAdvance(keys, filter, visits, i, j, rows[i], rows[j]);
      TiedCompareAlike(keys, rows[i], rows[j], rows[j]);
      NotBeforeItself(keys, rows[j]);
    }
  }

  /** A complete walk returns exactly once every matching row that was there from start to end and
      never moved in the sort, whatever else happened to its other fields or to other rows. */
  lemma UnmovedRowIsReturnedExactlyOnce(keys: Keys, filter: Filter, pageSize: nat, visits: seq<Visit>, rows: seq<Doc>)
    returns (i: nat, p: nat)
    requires IsWalk(keys, filter, pageSize, visits) && IsComplete(visits) && Stays(keys, filter, visits, rows, 0)
    ensures AppearsAt(keys, visits, Identity(keys, rows[0]), i, p) && visits[i].page.items[p] == rows[i]
    ensures forall j: nat, q: nat :: AppearsAt(keys, visits, Identity(keys, rows[0]), j, q) ==> j == i && q == p
  {
    WalksAreExact(keys, filter, pageSize, visits);
    i := RowIsReached(keys, filter, visits, rows, 0);
    p :| 0 <= p < |visits[i].page.items| && visits[i].page.items[p] == rows[i];
    assert TiedUpTo(keys, rows[0], rows[i], |keys|);
    assert VisitIsExact(keys, filter, visits[i]);
    NotBeforeItself(keys, rows[i]);
    forall j: nat, q: nat | AppearsAt(keys, visits, Identity(keys, rows[0]), j, q) ensures j == i && q == p {
      AppearanceIsTheRow(keys, filter, pageSize, visits, rows, 0, j, q);
      assert visits[j].page.items[q] in visits[j].page.items;
      NotOnTwoPages(keys, filter, visits, rows, i, j);
      NotOnTwoPages(keys, filter, visits, rows, j, i);
    }
  }

  /** The condition on moves is needed: a row that was returned, then moved past the cursor the walk
      had reached and stayed at its new place, is returned a second time. */
  lemma RowMovedPastTheCursorIsReturnedAgain(keys: Keys, filter: Filter, pageSize: nat, visits: seq<Visit>, i: nat,
                                             p: nat, rows: seq<Doc>)
    returns (j: nat, q: nat)
    requires IsWalk(keys, filter, pageSize, visits) && IsComplete(visits) && i < |visits| - 1
    requires Stays(keys, filter, visits, rows, i + 1) && AfterCursor(keys, visits[i + 1].cursor, rows[i + 1])
    requires AppearsAt(keys, visits, Identity(keys, rows[i + 1]), i, p)
    ensures i < j && AppearsAt(keys, visits, Identity(keys, rows[i + 1]), j, q)
  {
    WalksAreExact(keys, filter, pageSize, visits);
    j := RowIsReached(keys, filter, visits, rows, i + 1);
    q :| 0 <= q < |visits[j].page.items| && visits[j].page.items[q] == rows[j];
    assert TiedUpTo(keys, rows[i + 1], rows[j], |keys|);
  }

  // ---------- a walk that returns a moved row twice ----------

  const EVERYTHING := Filter(map[])

  /** What a query finds is the one strictly sorted list of exactly the documents after its cursor. */
  lemma FoundIs(keys: Keys, db: seq<Doc>, cursor: Option<Doc>)
    requires Collection(keys, db) && Sorted(keys, db) && forall d <- db :: AfterCursor(keys, cursor, d)
    ensures Found(keys, db, EVERYTHING, cursor) == db
  {
    FoundIsExact(keys, db, EVERYTHING, cursor);
    SortedListsAgree(keys, Found(keys, db, EVERYTHING, cursor), db);
  }

  /** First `row` leads and `other` follows; then `other` is deleted and `row` has become `moved`. */
  function FirstVisit(keys: Keys, row: Doc, other: Doc): Visit {
    Visit([row, other], None, Page([row], Some(ExtractCursorPayload(row, keys))))
  }

  function SecondVisit(keys: Keys, row: Doc, moved: Doc): Visit {
    Visit([moved], Some(ExtractCursorPayload(row, keys)), Page([moved], None))
  }

  lemma FirstVisitIsAPage(keys: Keys, row: Doc, other: Doc)
    requires keys != [] && DistinctFields(keys) && Sortable(keys, row) && Sortable(keys, other)
    requires Identity(keys, row) != Identity(keys, other) && Before(keys, row, other)
    ensures Collection(keys, [row, other])
    ensures FirstVisit(keys, row, other).page == Paginate(keys, [row, other], EVERYTHING, None, 1)
  {
    FoundIs(keys, [row, other], None);
    CutShape(keys, [row, other], 1);
    assert [row, other][..1] == [row];
  }

  lemma SecondVisitIsAPage(keys: Keys, row: Doc, moved: Doc)
    requires keys != [] && DistinctFields(keys) && Sortable(keys, row) && Sortable(keys, moved)
    requires Before(keys, row, moved)
    ensures Collection(keys, [moved]) && AfterCursor(keys, SecondVisit(keys, row, moved).cursor, moved)
    ensures SecondVisit(keys, row, moved).page
         == Paginate(keys, [moved], EVERYTHING, Some(ExtractCursorPayload(row, keys)), 1)
  {
    PayloadComparesAlike(keys, row, moved);
    FoundIs(keys, [moved], Some(ExtractCursorPayload(row, keys)));
    CutShape(keys, [moved], 1);
  }

  /** Any row that can move toward the tail can be returned twice: a complete walk of two pages on
      which it appears on both, the second time moved. */
  lemma MovedRowIsReturnedTwice(keys: Keys, row: Doc, other: Doc, moved: Doc)
    requires keys != [] && DistinctFields(keys)
    requires Sortable(keys, row) && Sortable(keys, other) && Sortable(keys, moved)
    requires Identity(keys, row) != Identity(keys, other) && Identity(keys, moved) == Identity(keys, row)
    requires Before(keys, row, other) && Before(keys, row, moved)
    ensures var visits := [FirstVisit(keys, row, other), SecondVisit(keys, row, moved)];
      && IsWalk(keys, EVERYTHING, 1, visits) && IsComplete(visits)
      && Stays(keys, EVERYTHING, visits, [row, moved], 1)
      && AppearsAt(keys, visits, Identity(keys, row), 0, 0) && AppearsAt(keys, visits, Identity(keys, row), 1, 0)
  {
    FirstVisitIsAPage(keys, row, other);
    SecondVisitIsAPage(keys, row, moved);
    assert SecondVisit(keys, row, moved).db[0] == moved;
  }

  const BY_TIME: Keys := [SortKey("at", Asc), SortKey("_id", Asc)]

  function Row(id: int, at: int): Doc { map["_id" := One(id), "at" := One(at)] }

  lemma RowsByTime(id: int, at: int, id': int, later: int)
    requires at < later
    ensures DistinctFields(BY_TIME) && Sortable(BY_TIME, Row(id, at)) && Identity(BY_TIME, Row(id, at)) == id
    ensures Before(BY_TIME, Row(id, at), Row(id', later))
  {
  }

  /** Such a walk, sorted by time: row 1 is returned at time 1, moves to time 3, and is returned again. */
  lemma RowMovedInTimeIsReturnedTwice()
    ensures var visits := [FirstVisit(BY_TIME, Row(1, 1), Row(2, 2)), SecondVisit(BY_TIME, Row(1, 1), Row(1, 3))];
      && IsWalk(BY_TIME, EVERYTHING, 1, visits) && IsComplete(visits)
      && AppearsAt(BY_TIME, visits, 1, 0, 0) && AppearsAt(BY_TIME, visits, 1, 1, 0)
  {
    RowsByTime(1, 1, 2, 2);
    RowsByTime(1, 1, 1, 3);
    RowsByTime(2, 2, 1, 3);
    RowsByTime(1, 3, 1, 4);
    MovedRowIsReturnedTwice(BY_TIME, Row(1, 1), Row(2, 2), Row(1, 3));
  }
}
