/**
 * The `populate_location_data` command: three fixed lists of seed locations
 * inserted in order (countries, then states, then cities), each state or city
 * first looking up its parent by id. A failed lookup or insert raises, which
 * ends the command; rows inserted before it stay (each insert commits alone).
 */
module Populate {
  import opened Wrappers
  import opened Models
  import Store

  /** One seed item; `parent` is the `"parent"` key, absent for countries. */
  datatype Seed = Seed(
    id: LocId, title: string, center: Point, countryCode: string, locationType: string,
    stateAbbr: string, city: string, parent: Option<LocId>)

  const Countries: seq<Seed> := [
    Seed("US", "United States", Point(-98.5795, 39.8283), "US", "country", "", "", None),
    Seed("CA", "Canada", Point(-106.3468, 56.1304), "CA", "country", "", "", None),
    Seed("GB", "United Kingdom", Point(-3.435973, 55.3781), "GB", "country", "", "", None)]

  const States: seq<Seed> := [
    Seed("CA-ON", "Ontario", Point(-81.2546, 51.2538), "CA", "state", "ON", "", Some("CA")),
    Seed("US-CA", "California", Point(-119.4179, 36.7783), "US", "state", "CA", "", Some("US"))]

  const Cities: seq<Seed> := [
    Seed("US-CA-SF", "San Francisco", Point(-122.4194, 37.7749), "US", "city", "CA", "San Francisco", Some("US-CA")),
    Seed("CA-ON-TO", "Toronto", Point(-79.3832, 43.6532), "CA", "city", "ON", "Toronto", Some("CA-ON"))]

  const AllSeeds: seq<Seed> := Countries + States + Cities

  /** The row `Location.objects.create(...)` is given for a seed. */
  function Row(s: Seed): Location
  {
    Location(s.id, s.title, s.center, s.parent, s.locationType, s.countryCode, Some(s.stateAbbr), Some(s.city))
  }

  /** The outcome of a run: the database, the ids added in order, and the error that stopped it. */
  datatype Run = Run(tables: Tables, added: seq<LocId>, failure: Option<DbError>)

  /** One item: the parent lookup (when the item has one), then the insert. */
  function Step(t: Tables, s: Seed): Result<Tables, DbError>
  {
    if s.parent.Some? && s.parent.value !in t.locations then Failure(DoesNotExist(s.parent.value))
    else CreateLocation(t, Row(s))
  }

  /** Items processed left to right; the first error stops the run. */
  function RunSeeds(t: Tables, seeds: seq<Seed>): (r: Run)
    ensures |r.added| <= |seeds|
  {
    if seeds == [] then Run(t, [], None)
    else
      var r := RunSeeds(t, seeds[..|seeds| - 1]);
      if r.failure.Some? then r
      else match Step(r.tables, seeds[|seeds| - 1])
        case Failure(e) => r.(failure := Some(e))
        case Success(t') => Run(t', r.added + [seeds[|seeds| - 1].id], None)
  }

  /** Running one more item: what `RunSeeds` does with the last item of a sequence. */
  lemma RunSnoc(t: Tables, seeds: seq<Seed>, s: Seed)
    ensures RunSeeds(t, seeds + [s]) ==
      var r := RunSeeds(t, seeds);
      if r.failure.Some? then r
      else match Step(r.tables, s)
        case Failure(e) => r.(failure := Some(e))
        case Success(t') => Run(t', r.added + [s.id], None)
  {
    assert (seeds + [s])[..|seeds|] == seeds;
  }

  function Ids(seeds: seq<Seed>): seq<LocId>
  {
    seq(|seeds|, i requires 0 <= i < |seeds| => seeds[i].id)
  }

  /** Once a run has stopped, later items change nothing. */
  lemma {:induction false} StoppedStaysStopped(t: Tables, seeds: seq<Seed>, n: nat)
    requires n <= |seeds|
    requires RunSeeds(t, seeds[..n]).failure.Some?
    ensures RunSeeds(t, seeds) == RunSeeds(t, seeds[..n])
    decreases |seeds| - n
  {
    if n < |seeds| {
      assert seeds[..n + 1][..n] == seeds[..n];
      StoppedStaysStopped(t, seeds, n + 1);
    } else {
      assert seeds[..n] == seeds;
    }
  }

  /**
   * A run inserts the items in order: the ids added are a prefix of the
   * items' ids, all of them when nothing failed, and otherwise the item right
   * after the prefix is the one whose lookup or insert failed; rows present
   * before the run are kept.
   */
  lemma {:induction false} RunIsOrderedPrefix(t: Tables, seeds: seq<Seed>)
    ensures var r := RunSeeds(t, seeds);
      && |r.added| <= |seeds|
      && r.added == Ids(seeds)[..|r.added|]
      && (r.failure.None? <==> |r.added| == |seeds|)
      && (r.failure.Some? ==> Step(r.tables, seeds[|r.added|]) == Failure(r.failure.value))
      && t.locations.Keys <= r.tables.locations.Keys
      && (forall k :: k in t.locations ==> r.tables.locations[k] == t.locations[k])
  {
    if seeds != [] {
      var init := seeds[..|seeds| - 1];
      RunIsOrderedPrefix(t, init);
      var r := RunSeeds(t, init);
      assert Ids(seeds)[..|init|] == Ids(init);
      if r.failure.Some? {
        assert Ids(init)[..|r.added|] == Ids(seeds)[..|r.added|];
        assert seeds[|r.added|] == init[|r.added|];
      }
    }
  }

  /** A run writes only the location table: the other tables and the users stay as they were. */
  lemma {:induction false} RunTouchesOnlyLocations(t: Tables, seeds: seq<Seed>)
    ensures RunSeeds(t, seeds).tables == t.(locations := RunSeeds(t, seeds).tables.locations)
  {
    if seeds != [] {
      RunTouchesOnlyLocations(t, seeds[..|seeds| - 1]);
    }
  }

  lemma {:induction false} RunKeepsIntegrity(t: Tables, seeds: seq<Seed>)
    requires Integrity(t)
    ensures Integrity(RunSeeds(t, seeds).tables)
  {
    if seeds != [] {
      var init := seeds[..|seeds| - 1];
      RunKeepsIntegrity(t, init);
      var r := RunSeeds(t, init);
      if r.failure.None? {
        CreateLocationKeepsIntegrity(r.tables, Row(seeds[|seeds| - 1]));
      }
    }
  }

  lemma {:induction false} InsertedRowsStored(t: Tables, seeds: seq<Seed>)
    ensures var r := RunSeeds(t, seeds);
      && (forall k :: k in r.tables.locations <==> k in t.locations || k in r.added)
      && forall i :: 0 <= i < |r.added| ==>
        seeds[i].id in r.tables.locations && r.tables.locations[seeds[i].id] == Row(seeds[i])
  {
    if seeds != [] {
      var init, last := seeds[..|seeds| - 1], seeds[|seeds| - 1];
      assert seeds == init + [last];
      InsertedRowsStored(t, init);
      RunIsOrderedPrefix(t, init);
      RunSnoc(t, init, last);
      var r := RunSeeds(t, init);
      if r.failure.None? && Step(r.tables, last).Success? {
        var t' := Step(r.tables, last).value;
        assert last.id !in r.tables.locations;
        assert t'.locations == r.tables.locations[last.id := Row(last)];
        assert RunSeeds(t, seeds) == Run(t', r.added + [last.id], None);
        forall i | 0 <= i < |r.added| ensures seeds[i] == init[i] && seeds[i].id != last.id {
          assert init[i].id in r.tables.locations;
        }
      }
    }
  }

  /**
   * Each inserted item is stored exactly as given: a state or city has as
   * parent the stored location whose id is its `"parent"` key, and a country
   * has none.
   */
  lemma InsertedRowsResolved(t: Tables, seeds: seq<Seed>)
    requires Integrity(t)
    ensures Integrity(RunSeeds(t, seeds).tables)
    ensures var r := RunSeeds(t, seeds);
      forall i :: 0 <= i < |r.added| ==>
        && seeds[i].id in r.tables.locations
        && r.tables.locations[seeds[i].id] == Row(seeds[i])
        && r.tables.locations[seeds[i].id].parent == seeds[i].parent
        && (seeds[i].parent.Some? ==> seeds[i].parent.value in r.tables.locations)
  {
    RunKeepsIntegrity(t, seeds);
    InsertedRowsStored(t, seeds);
  }

  /** Items with fresh, distinct ids whose parents are present or come earlier are all inserted. */
  lemma {:induction false} RunSucceeds(t: Tables, seeds: seq<Seed>)
    requires forall i :: 0 <= i < |seeds| ==> seeds[i].id !in t.locations
    requires forall i, j :: 0 <= i < j < |seeds| ==> seeds[i].id != seeds[j].id
    requires forall i :: 0 <= i < |seeds| && seeds[i].parent.Some? ==>
      seeds[i].parent.value in t.locations || seeds[i].parent.value in Ids(seeds[..i])
    ensures RunSeeds(t, seeds).failure == None
  {
    if seeds != [] {
      var init, last := seeds[..|seeds| - 1], seeds[|seeds| - 1];
      assert seeds == init + [last];
      forall i | 0 <= i < |init| ensures init[..i] == seeds[..i] { }
      RunSucceeds(t, init);
      RunIsOrderedPrefix(t, init);
      InsertedRowsStored(t, init);
      RunSnoc(t, init, last);
      var r := RunSeeds(t, init);
      assert r.added == Ids(init);
      assert last.id !in r.added;
      assert last.id !in r.tables.locations;
      assert last.parent.Some? ==> last.parent.value in r.tables.locations;
    }
  }

  const SeedIds: seq<LocId> := ["US", "CA", "GB", "CA-ON", "US-CA", "US-CA-SF", "CA-ON-TO"]

  /** The seed lists have the seven ids in order, and each parent comes before its children. */
  lemma SeedsOrdered()
    ensures Ids(AllSeeds) == SeedIds
    ensures forall i :: 0 <= i < |AllSeeds| && AllSeeds[i].parent.Some? ==>
      AllSeeds[i].parent.value in Ids(AllSeeds[..i])
  {
    var ids := Ids(AllSeeds);
    assert ids == SeedIds;
    forall i | 0 <= i < |AllSeeds| && AllSeeds[i].parent.Some?
      ensures AllSeeds[i].parent.value in Ids(AllSeeds[..i])
    {
      assert Ids(AllSeeds[..i]) == ids[..i];
      assert 3 <= i;
      if i == 3 { assert ids[1] == "CA"; }
      else if i == 4 { assert ids[0] == "US"; }
      else if i == 5 { assert ids[4] == "US-CA"; }
      else { assert ids[3] == "CA-ON"; }
    }
  }

  /** Items with the seed ids, parents first, run on an empty table: all are inserted as given. */
  lemma {:induction false} RunOfSeedIds(t: Tables, seeds: seq<Seed>)
    requires Integrity(t) && t.locations == map[]
    requires Ids(seeds) == SeedIds
    requires forall i :: 0 <= i < |seeds| && seeds[i].parent.Some? ==> seeds[i].parent.value in Ids(seeds[..i])
    ensures var r := RunSeeds(t, seeds);
      && r.failure == None
      && r.added == SeedIds
      && (forall k :: k in r.tables.locations <==> k in SeedIds)
      && (forall i :: 0 <= i < |seeds| ==>
            seeds[i].id in r.tables.locations && r.tables.locations[seeds[i].id] == Row(seeds[i]))
      && Integrity(r.tables)
  {
    assert |seeds| == |SeedIds|;
    forall i, j | 0 <= i < j < |seeds| ensures seeds[i].id != seeds[j].id {
      assert seeds[i].id == SeedIds[i] && seeds[j].id == SeedIds[j];
    }
    RunSucceeds(t, seeds);
    RunIsOrderedPrefix(t, seeds);
    InsertedRowsStored(t, seeds);
    RunKeepsIntegrity(t, seeds);
  }

  /** On an empty table every seed is inserted, in list order, and stored as given. */
  lemma FullRunInsertsAll(users: set<UserId>)
    ensures var r := RunSeeds(EmptyTables.(users := users), AllSeeds);
      && r.failure == None
      && r.added == SeedIds
      && (forall k :: k in r.tables.locations <==> k in SeedIds)
      && (forall i :: 0 <= i < |AllSeeds| ==>
            AllSeeds[i].id in r.tables.locations && r.tables.locations[AllSeeds[i].id] == Row(AllSeeds[i]))
      && Integrity(r.tables)
  {
    SeedsOrdered();
    RunOfSeedIds(EmptyTables.(users := users), AllSeeds);
  }

  /** A stored location sits correctly in the tree: countries are roots, a state hangs under a country, a city under a state, each with its parent's country code. */
  predicate PlacedInTree(locs: map<LocId, Location>, k: LocId)
    requires k in locs
  {
    var l := locs[k];
    && (l.locationType == "country" <==> l.parent == None)
    && (l.parent.Some? ==>
          && l.parent.value in locs
          && locs[l.parent.value].countryCode == l.countryCode
          && (l.locationType == "state" ==> locs[l.parent.value].locationType == "country")
          && (l.locationType == "city" ==> locs[l.parent.value].locationType == "state"))
  }

  /** The seven seed rows, stored under their ids, form a three-level tree. */
  predicate SeedTree(locs: map<LocId, Location>)
  {
    forall k :: k in locs ==> PlacedInTree(locs, k)
  }

  lemma SeedRowsFormTree(locs: map<LocId, Location>)
    requires forall k :: k in locs <==> k in SeedIds
    requires forall i :: 0 <= i < |AllSeeds| ==> locs[AllSeeds[i].id] == Row(AllSeeds[i])
    ensures |locs| == 7 && SeedTree(locs)
  {
    SeedKeysCount(locs);
    SeedRowsByKey(locs);
    SeedTreeFromRows(locs);
  }

  lemma SeedRowsByKey(locs: map<LocId, Location>)
    requires forall k :: k in locs <==> k in SeedIds
    requires forall i :: 0 <= i < |AllSeeds| ==> locs[AllSeeds[i].id] == Row(AllSeeds[i])
    ensures forall k :: k in locs ==> locs[k] == Row(AllSeeds[IndexOfId(k)])
  {
    forall k | k in locs
      ensures locs[k] == Row(AllSeeds[IndexOfId(k)])
    {
      assert k in SeedIds;
      assert AllSeeds[IndexOfId(k)].id == k;
    }
  }

  lemma SeedTreeFromRows(locs: map<LocId, Location>)
    requires forall k :: k in locs <==> k in SeedIds
    requires forall k :: k in locs ==> locs[k] == Row(AllSeeds[IndexOfId(k)])
    ensures SeedTree(locs)
  {
    assert "US" in SeedIds && "CA" in SeedIds && "CA-ON" in SeedIds && "US-CA" in SeedIds;
    ParentRows(locs);
    forall k | k in locs ensures PlacedInTree(locs, k) {
      SeedPlaced(locs, k);
    }
  }

  /** The four seeds that are parents, as stored. */
  lemma ParentRows(locs: map<LocId, Location>)
    requires "US" in locs && "CA" in locs && "CA-ON" in locs && "US-CA" in locs
    requires forall k :: k in locs ==> locs[k] == Row(AllSeeds[IndexOfId(k)])
    ensures locs["US"].locationType == "country" && locs["US"].countryCode == "US"
    ensures locs["CA"].locationType == "country" && locs["CA"].countryCode == "CA"
    ensures locs["CA-ON"].locationType == "state" && locs["CA-ON"].countryCode == "CA"
    ensures locs["US-CA"].locationType == "state" && locs["US-CA"].countryCode == "US"
  {
  }

  lemma SeedPlaced(locs: map<LocId, Location>, k: LocId)
    requires k in locs && k in SeedIds
    requires forall k :: k in locs <==> k in SeedIds
    requires locs[k] == Row(AllSeeds[IndexOfId(k)])
    requires locs["US"].locationType == "country" && locs["US"].countryCode == "US"
    requires locs["CA"].locationType == "country" && locs["CA"].countryCode == "CA"
    requires locs["CA-ON"].locationType == "state" && locs["CA-ON"].countryCode == "CA"
    requires locs["US-CA"].locationType == "state" && locs["US-CA"].countryCode == "US"
    ensures PlacedInTree(locs, k)
  {
    assert "US" in SeedIds && "CA" in SeedIds && "CA-ON" in SeedIds && "US-CA" in SeedIds;
  }

  lemma SeedKeysCount(locs: map<LocId, Location>)
    requires forall k :: k in locs <==> k in SeedIds
    ensures |locs| == 7
  {
    var keys: set<LocId> := {};
    for i := 0 to |SeedIds|
      invariant keys == set j | 0 <= j < i :: SeedIds[j]
      invariant |keys| == i
    {
      assert SeedIds[i] !in keys;
      keys := keys + {SeedIds[i]};
    }
    assert locs.Keys == keys;
  }

  /**
   * On an empty table the command inserts seven locations forming the
   * expected tree: every state hangs under a country, every city under a
   * state, and each child has its parent's country code.
   */
  lemma FullRunFromEmpty(users: set<UserId>)
    ensures var r := RunSeeds(EmptyTables.(users := users), AllSeeds);
      && r.failure == None
      && |r.tables.locations| == 7
      && SeedTree(r.tables.locations)
  {
    FullRunInsertsAll(users);
    SeedRowsFormTree(RunSeeds(EmptyTables.(users := users), AllSeeds).tables.locations);
  }

  function IndexOfId(k: LocId): nat
  {
    if k == "US" then 0 else if k == "CA" then 1 else if k == "GB" then 2
    else if k == "CA-ON" then 3 else if k == "US-CA" then 4 else if k == "US-CA-SF" then 5 else 6
  }

  /** Re-running after a full run stops at the first country: `create` does not skip a taken id. */
  lemma RerunFails(users: set<UserId>)
    ensures var first := RunSeeds(EmptyTables.(users := users), AllSeeds);
      RunSeeds(first.tables, AllSeeds) == Run(first.tables, [], Some(IntegrityError("US")))
  {
    var t := EmptyTables.(users := users);
    FullRunInsertsAll(users);
    var first := RunSeeds(t, AllSeeds);
    assert "US" in first.tables.locations;
    assert AllSeeds[..1] == [AllSeeds[0]];
    RunSnoc(first.tables, [], AllSeeds[0]);
    StoppedStaysStopped(first.tables, AllSeeds, 1);
  }

  /** The type order of the seeds: countries, then states, then cities. */
  function Rank(locationType: string): nat
  {
    if locationType == "country" then 0 else if locationType == "state" then 1 else 2
  }

  /** The items are listed countries first, then states, then cities. */
  predicate Ranked(seeds: seq<Seed>)
  {
    forall i, j :: 0 <= i < j < |seeds| ==> Rank(seeds[i].locationType) <= Rank(seeds[j].locationType)
  }

  lemma SeedsRanked()
    ensures Ranked(AllSeeds)
  {
    var ranks := [0, 0, 0, 1, 1, 2, 2];
    assert forall i :: 0 <= i < |AllSeeds| ==> Rank(AllSeeds[i].locationType) == ranks[i];
  }

  /** A run over ranked items stores its rows in rank order. */
  lemma RankedRun(t: Tables, seeds: seq<Seed>)
    requires Ranked(seeds)
    ensures var r := RunSeeds(t, seeds);
      && (forall i :: 0 <= i < |r.added| ==> r.added[i] in r.tables.locations)
      && forall i, j :: 0 <= i < j < |r.added| ==>
           Rank(r.tables.locations[r.added[i]].locationType) <= Rank(r.tables.locations[r.added[j]].locationType)
  {
    var r := RunSeeds(t, seeds);
    RunIsOrderedPrefix(t, seeds);
    InsertedRowsStored(t, seeds);
    forall i | 0 <= i < |r.added|
      ensures r.added[i] in r.tables.locations
      ensures r.tables.locations[r.added[i]].locationType == seeds[i].locationType
    {
      assert r.added[i] == Ids(seeds)[i] == seeds[i].id;
    }
  }

  /**
   * Every country the run inserts is inserted before any state, and every
   * state before any city: ranked by the type of the row stored under each
   * added id, the added ids are in order.
   */
  lemma InsertionOrder(t: Tables)
    ensures var r := RunSeeds(t, AllSeeds);
      && (forall i :: 0 <= i < |r.added| ==> r.added[i] in r.tables.locations)
      && forall i, j :: 0 <= i < j < |r.added| ==>
           Rank(r.tables.locations[r.added[i]].locationType) <= Rank(r.tables.locations[r.added[j]].locationType)
  {
    SeedsRanked();
    RankedRun(t, AllSeeds);
  }

  // ---------------------------------------------------------------- the command

  /** What one iteration of a child loop does to the run: continue it, or stop the whole run. */
  lemma ChildStep(start: Tables, done: seq<Seed>, items: seq<Seed>, j: nat,
                  before: Tables, added: seq<LocId>, err: Option<DbError>, after: Tables)
    requires j < |items|
    requires RunSeeds(start, done + items[..j]) == Run(before, added, None)
    requires match Step(before, items[j])
      case Success(t) => err == None && after == t
      case Failure(e) => err == Some(e) && after == before
    ensures err.None? ==> RunSeeds(start, done + items[..j + 1]) == Run(after, added + [items[j].id], None)
    ensures err.Some? ==> RunSeeds(start, done + items) == Run(after, added, err)
  {
    var prefix := done + items[..j];
    assert prefix + [items[j]] == done + items[..j + 1];
    RunSnoc(start, prefix, items[j]);
    if err.Some? {
      assert (done + items)[..|done| + j + 1] == prefix + [items[j]];
      StoppedStaysStopped(start, done + items, |done| + j + 1);
    }
  }

  /** `Command.handle` of populate_location_data. */
  method PopulateLocationData(db: Store.Database) returns (added: seq<LocId>, failure: Option<DbError>)
    requires db.Valid()
    modifies db
    ensures db.Valid()
    ensures RunSeeds(old(db.State()), AllSeeds) == Run(db.State(), added, failure)
    ensures db.State() == old(db.State()).(locations := db.locations)
  {
    ghost var start := db.State();
    RunTouchesOnlyLocations(start, AllSeeds);
    assert AllSeeds[..|Countries|] == Countries;
    assert AllSeeds[..|Countries| + |States|] == Countries + States;
    added, failure := InsertCountries(db);
    if failure.Some? {
      StoppedStaysStopped(start, AllSeeds, |Countries|);
      return;
    }
    added, failure := InsertChildren(db, start, Countries, States, added);
    if failure.Some? {
      StoppedStaysStopped(start, AllSeeds, |Countries| + |States|);
      return;
    }
    added, failure := InsertChildren(db, start, Countries + States, Cities, added);
  }

  /** The loop over the countries: each is created with no parent. */
  method InsertCountries(db: Store.Database) returns (added: seq<LocId>, failure: Option<DbError>)
    requires db.Valid()
    modifies db
    ensures db.Valid()
    ensures RunSeeds(old(db.State()), Countries) == Run(db.State(), added, failure)
  {
    ghost var start := db.State();
    added, failure := [], None;
    assert Countries[..0] == [];
    for i := 0 to |Countries|
      invariant db.Valid()
      invariant RunSeeds(start, Countries[..i]) == Run(db.State(), added, None)
    {
      assert Countries[..i + 1][..i] == Countries[..i];
      var err := db.CreateLocation(Row(Countries[i]));
      if err.Some? {
        failure := err;
        StoppedStaysStopped(start, Countries, i + 1);
        return;
      }
      added := added + [Countries[i].id];
    }
    assert Countries[..|Countries|] == Countries;
  }

  /** The loop over the states or the cities: look the parent up by id, then create the row under it. */
  method InsertChildren(db: Store.Database, ghost start: Tables, ghost done: seq<Seed>, items: seq<Seed>,
                        added0: seq<LocId>)
    returns (added: seq<LocId>, failure: Option<DbError>)
    requires db.Valid()
    requires RunSeeds(start, done) == Run(db.State(), added0, None)
    requires forall s :: s in items ==> s.parent.Some?
    modifies db
    ensures db.Valid()
    ensures RunSeeds(start, done + items) == Run(db.State(), added, failure)
  {
    added, failure := added0, None;
    assert done + items[..0] == done;
    for j := 0 to |items|
      invariant db.Valid()
      invariant RunSeeds(start, done + items[..j]) == Run(db.State(), added, None)
    {
      ghost var before := db.State();
      var err := InsertChild(db, items[j]);
      ChildStep(start, done, items, j, before, added, err, db.State());
      if err.Some? {
        failure := err;
        return;
      }
      added := added + [items[j].id];
    }
    assert items[..|items|] == items;
  }

  /** One state or city: `Location.objects.get(id=item["parent"])`, then the create under that parent. */
  method InsertChild(db: Store.Database, item: Seed) returns (err: Option<DbError>)
    requires db.Valid() && item.parent.Some?
    modifies db
    ensures db.Valid()
    ensures match Step(old(db.State()), item)
      case Success(t) => err == None && db.State() == t
      case Failure(e) => err == Some(e) && db.State() == old(db.State())
  {
    var parent := db.GetLocation(item.parent.value);
    if parent.Failure? {
      return Some(parent.error);
    }
    var row := Row(item).(parent := Some(parent.value.id));
    assert row == Row(item);
    err := db.CreateLocation(row);
  }
}
