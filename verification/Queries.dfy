/** Database filters as the services build them: an object from top-level keys to conditions, with
    `$and` and `$or` as keys like any other. */
module Queries {
  import opened Options

  datatype Field = One(value: int) | Many(values: set<int>)
  type Doc = map<string, Field>

  datatype Cond =
    | Eq(v: int) | Lt(v: int) | Gt(v: int) | In(vs: set<int>) | Nin(vs: set<int>) | Range(from: int, to: int)
    | AllOf(parts: seq<Filter>) | AnyOf(parts: seq<Filter>)

  datatype Filter = Filter(top: map<string, Cond>)

  const AND := "$and"
  const OR := "$or"

  function And(fs: seq<Filter>): Filter { Filter(map[AND := AllOf(fs)]) }
  function Or(fs: seq<Filter>): Filter { Filter(map[OR := AnyOf(fs)]) }

  /** Equality and membership look inside an array field; comparisons need a scalar. */
  predicate HasValue(d: Doc, key: string, v: int) {
    key in d && match d[key] case One(x) => x == v case Many(xs) => v in xs
  }

  ghost predicate Holds(c: Cond, key: string, d: Doc)
    decreases c
  {
    match c
    case Eq(v) => HasValue(d, key, v)
    case Lt(v) => key in d && d[key].One? && d[key].value < v
    case Gt(v) => key in d && d[key].One? && d[key].value > v
    case In(vs) => exists v <- vs :: HasValue(d, key, v)
    case Nin(vs) => forall v <- vs :: !HasValue(d, key, v)
    case Range(from, to) => key in d && d[key].One? && from <= d[key].value < to
    case AllOf(fs) => forall f <- fs :: Matches(f, d)
    case AnyOf(fs) => exists f <- fs :: Matches(f, d)
  }

  ghost predicate Matches(f: Filter, d: Doc)
    decreases f
  {
    forall key <- f.top :: Holds(f.top[key], key, d)
  }

  /** Mongoose's `where`: each top-level key of the addition replaces the query's own. */
  function Where(q: Filter, added: Filter): Filter { Filter(q.top + added.top) }

  function Without(q: Filter, keys: set<string>): Filter { Filter(q.top - keys) }

  /** Exactly what composing by replacement means: the added conditions, and those of the caller's
      conditions whose key was not replaced. */
  lemma WhereKeepsOnlyUnreplacedKeys(q: Filter, added: Filter, d: Doc)
    ensures Matches(Where(q, added), d) <==> Matches(Without(q, added.top.Keys), d) && Matches(added, d)
  {
    var w := Where(q, added);
    if Matches(w, d) {
      forall key <- added.top ensures Holds(added.top[key], key, d) { assert key in w.top; }
      forall key <- Without(q, added.top.Keys).top ensures Holds(q.top[key], key, d) { assert key in w.top; }
    }
    if Matches(Without(q, added.top.Keys), d) && Matches(added, d) {
      forall key <- w.top ensures Holds(w.top[key], key, d) {
        if key !in added.top { assert key in Without(q, added.top.Keys).top; }
      }
    }
  }

  /** Whatever the caller asked for, a scoped query returns only documents in scope. */
  lemma ScopeAlwaysHolds(q: Filter, scope: Filter, d: Doc)
    requires Matches(Where(q, scope), d)
    ensures Matches(scope, d)
  {
    WhereKeepsOnlyUnreplacedKeys(q, scope, d);
  }

  /** With no shared key, scoping is conjunction. */
  lemma DisjointWhereIsConjunction(q: Filter, scope: Filter, d: Doc)
    requires q.top.Keys !! scope.top.Keys
    ensures Matches(Where(q, scope), d) <==> Matches(q, d) && Matches(scope, d)
  {
    WhereKeepsOnlyUnreplacedKeys(q, scope, d);
    assert Without(q, scope.top.Keys).top == q.top;
  }

  lemma AndMatches(fs: seq<Filter>, d: Doc)
    ensures Matches(And(fs), d) <==> forall f <- fs :: Matches(f, d)
  {
    var q := And(fs);
    assert AND in q.top;
    if Matches(q, d) { assert Holds(q.top[AND], AND, d); }
  }

  lemma OrMatches(fs: seq<Filter>, d: Doc)
    ensures Matches(Or(fs), d) <==> exists f <- fs :: Matches(f, d)
  {
    var q := Or(fs);
    assert OR in q.top;
    if Matches(q, d) { assert Holds(q.top[OR], OR, d); }
  }

  lemma PairMatches(a: Filter, b: Filter, d: Doc)
    ensures Matches(And([a, b]), d) <==> Matches(a, d) && Matches(b, d)
  {
    AndMatches([a, b], d);
    assert [a, b][0] in [a, b] && [a, b][1] in [a, b];
  }

  /** `paginate` puts the cursor beside the caller's filter, under one `$and`. */
  function WithCursor(q: Filter, keyset: Option<Filter>): Filter {
    if keyset.Some? then And([q, keyset.value]) else q
  }
}
