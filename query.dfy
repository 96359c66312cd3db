/**
 * `Location.objects.filter(...).order_by("title")`: the ids of the matching
 * rows, in ascending title order. The collation is the lexicographic order of
 * `Text.StrLt`; rows with equal titles come in id order, which makes the
 * result unique (the database leaves their order open).
 */
module Query {
  import opened Wrappers
  import opened Models
  import Text

  /** The two filters the sitemap command uses: `location_type=…` and `parent=…`. */
  datatype Filter = TypeIs(locationType: string) | ParentIs(parent: LocId)

  predicate Matches(f: Filter, l: Location)
  {
    match f
    case TypeIs(t) => l.locationType == t
    case ParentIs(p) => l.parent == Some(p)
  }

  /** `a` sorts strictly before `b`: by title, then by id. */
  predicate Precedes(store: map<LocId, Location>, a: LocId, b: LocId)
    requires a in store && b in store
  {
    Text.StrLt(store[a].title, store[b].title) || (store[a].title == store[b].title && Text.StrLt(a, b))
  }

  lemma PrecedesIrreflexive(store: map<LocId, Location>, a: LocId)
    requires a in store
    ensures !Precedes(store, a, a)
  {
    Text.StrLtIrreflexive(store[a].title);
    Text.StrLtIrreflexive(a);
  }

  lemma PrecedesTransitive(store: map<LocId, Location>, a: LocId, b: LocId, c: LocId)
    requires a in store && b in store && c in store
    requires Precedes(store, a, b) && Precedes(store, b, c)
    ensures Precedes(store, a, c)
  {
    var ta, tb, tc := store[a].title, store[b].title, store[c].title;
    if Text.StrLt(ta, tb) && Text.StrLt(tb, tc) {
      Text.StrLtTransitive(ta, tb, tc);
    } else if ta == tb && tb == tc {
      Text.StrLtTransitive(a, b, c);
    }
  }

  lemma PrecedesTotal(store: map<LocId, Location>, a: LocId, b: LocId)
    requires a in store && b in store && a != b
    ensures Precedes(store, a, b) || Precedes(store, b, a)
  {
    if store[a].title != store[b].title {
      Text.StrLtTotal(store[a].title, store[b].title);
    } else {
      Text.StrLtTotal(a, b);
    }
  }

  lemma PrecedesAsymmetric(store: map<LocId, Location>, a: LocId, b: LocId)
    requires a in store && b in store
    requires Precedes(store, a, b)
    ensures !Precedes(store, b, a)
  {
    if Precedes(store, b, a) {
      PrecedesTransitive(store, a, b, a);
      PrecedesIrreflexive(store, a);
    }
  }

  /** A sequence of stored ids in strictly ascending (title, id) order; hence without repeats. */
  predicate StrictlySorted(store: map<LocId, Location>, s: seq<LocId>)
  {
    && (forall i :: 0 <= i < |s| ==> s[i] in store)
    && (forall i, j :: 0 <= i < j < |s| ==> Precedes(store, s[i], s[j]))
  }

  lemma SortedDistinct(store: map<LocId, Location>, s: seq<LocId>)
    requires StrictlySorted(store, s)
    ensures forall i, j :: 0 <= i < j < |s| ==> s[i] != s[j]
  {
    forall i, j | 0 <= i < j < |s| ensures s[i] != s[j] {
      if s[i] == s[j] { PrecedesIrreflexive(store, s[i]); }
    }
  }

  /** Inserts a new id at its place in a strictly sorted sequence. */
  function Insert(store: map<LocId, Location>, s: seq<LocId>, x: LocId): (r: seq<LocId>)
    requires StrictlySorted(store, s) && x in store && x !in s
    ensures StrictlySorted(store, r)
    ensures |r| == |s| + 1
    ensures forall y :: y in r <==> y == x || y in s
  {
    if s == [] then [x]
    else if Precedes(store, x, s[0]) then
      assert forall j :: 0 < j < |s| ==> Precedes(store, x, s[j]) by {
        forall j | 0 < j < |s| ensures Precedes(store, x, s[j]) {
          PrecedesTransitive(store, x, s[0], s[j]);
        }
      }
      [x] + s
    else
      PrecedesTotal(store, x, s[0]);
      var rest := Insert(store, s[1..], x);
      assert forall y :: y in rest ==> Precedes(store, s[0], y);
      [s[0]] + rest
  }

  /** Two strictly sorted sequences with the same elements are the same sequence. */
  lemma {:induction false} SortedUnique(store: map<LocId, Location>, a: seq<LocId>, b: seq<LocId>)
    requires StrictlySorted(store, a) && StrictlySorted(store, b)
    requires forall y :: y in a <==> y in b
    ensures a == b
  {
    assert b != [] ==> b[0] in a;
    assert a != [] ==> a[0] in b;
    if a != [] {
      if a[0] != b[0] {
        assert a[0] in b && b[0] in a;
        var i :| 0 <= i < |a| && a[i] == b[0];
        var j :| 0 <= j < |b| && b[j] == a[0];
        assert Precedes(store, a[0], b[0]);
        assert Precedes(store, b[0], a[0]);
        PrecedesAsymmetric(store, a[0], b[0]);
      }
      SortedDistinct(store, a);
      SortedDistinct(store, b);
      forall y ensures y in a[1..] <==> y in b[1..] {
        if y in a[1..] {
          assert y != a[0];
          assert y in b;
        }
        if y in b[1..] {
          assert y != b[0];
          assert y in a;
        }
      }
      SortedUnique(store, a[1..], b[1..]);
      assert a == [a[0]] + a[1..] && b == [b[0]] + b[1..];
    }
  }

  /** A strictly sorted sequence of exactly the given ids. */
  ghost function SortIds(store: map<LocId, Location>, ids: set<LocId>): (r: seq<LocId>)
    requires ids <= store.Keys
    ensures StrictlySorted(store, r)
    ensures forall y :: y in r <==> y in ids
    decreases ids
  {
    if ids == {} then []
    else
      var x :| x in ids;
      Insert(store, SortIds(store, ids - {x}), x)
  }

  /** The ids of the rows matching `f`, in title order: the query's result. */
  ghost function OrderedIds(store: map<LocId, Location>, f: Filter): (r: seq<LocId>)
    ensures StrictlySorted(store, r)
    ensures forall y :: y in r <==> y in store && Matches(f, store[y])
  {
    SortIds(store, set y | y in store && Matches(f, store[y]))
  }

  /** A strictly sorted sequence without repeats has as many elements as its set. */
  lemma {:induction false} DistinctCardinality(s: seq<LocId>)
    requires forall i, j :: 0 <= i < j < |s| ==> s[i] != s[j]
    ensures |(set y | y in s)| == |s|
  {
    if s != [] {
      DistinctCardinality(s[1..]);
      assert s[0] !in s[1..];
      assert (set y | y in s) == (set y | y in s[1..]) + {s[0]};
    }
  }

  /** The query yields exactly one entry per matching row. */
  lemma OrderedIdsCount(store: map<LocId, Location>, f: Filter)
    ensures |OrderedIds(store, f)| == |(set y | y in store && Matches(f, store[y]))|
  {
    var r := OrderedIds(store, f);
    SortedDistinct(store, r);
    DistinctCardinality(r);
    assert (set y | y in r) == (set y | y in store && Matches(f, store[y]));
  }
}
