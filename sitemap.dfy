/**
 * The `generate_sitemap` command: a read-only projection of the location tree
 * into one entry per country, each listing its states, each listing its
 * cities, with slug paths. The JSON document is modelled by the entry
 * datatypes; writing the file is not modelled.
 */
module Sitemap {
  import opened Wrappers
  import opened Models
  import opened Query
  import Text
  import Store

  /** `{city.title: path}` */
  datatype CityEntry = CityEntry(title: string, path: string)

  /** `{state.title: path, "cities": [...]}` */
  datatype StateEntry = StateEntry(title: string, path: string, cities: seq<CityEntry>)

  /** `{country.title: code, "states": [...]}` */
  datatype CountryEntry = CountryEntry(title: string, code: string, states: seq<StateEntry>)

  /** A state's path: the lower-cased country code, '/', the slug of the state's title. */
  function StatePath(countryCode: string, stateTitle: string): (p: string)
    ensures |p| == |countryCode| + 1 + |stateTitle|
    ensures p[..|countryCode|] == Text.Lower(countryCode)
    ensures p[|countryCode|] == '/'
    ensures p[|countryCode| + 1..] == Text.Slug(stateTitle)
    ensures ' ' !in p[|countryCode| + 1..]
  {
    Text.Lower(countryCode) + "/" + Text.Slug(stateTitle)
  }

  /** A city's path, built from the enclosing country's code and state's title. */
  function CityPath(countryCode: string, stateTitle: string, cityTitle: string): (p: string)
    ensures |p| == |StatePath(countryCode, stateTitle)| + 1 + |cityTitle|
    ensures p[..|StatePath(countryCode, stateTitle)|] == StatePath(countryCode, stateTitle)
    ensures p[|StatePath(countryCode, stateTitle)|] == '/'
    ensures p[|StatePath(countryCode, stateTitle)| + 1..] == Text.Slug(cityTitle)
  {
    Text.Lower(countryCode) + "/" + Text.Slug(stateTitle) + "/" + Text.Slug(cityTitle)
  }

  /** The paths contain a space only where the country code has one. */
  lemma PathsHaveNoSpaces(countryCode: string, stateTitle: string, cityTitle: string)
    requires ' ' !in countryCode
    ensures ' ' !in StatePath(countryCode, stateTitle)
    ensures ' ' !in CityPath(countryCode, stateTitle, cityTitle)
  {
    var sp := StatePath(countryCode, stateTitle);
    assert sp == sp[..|countryCode|] + [sp[|countryCode|]] + sp[|countryCode| + 1..];
    assert ' ' !in sp[..|countryCode|];
    var cp := CityPath(countryCode, stateTitle, cityTitle);
    assert cp == cp[..|sp|] + [cp[|sp|]] + cp[|sp| + 1..];
  }

  // ---------------------------------------------------------------- the projection

  const Country := "country"

  /** The ids of the top-level entries: every location typed exactly "country", in title order. */
  ghost function CountryIds(store: map<LocId, Location>): seq<LocId>
  {
    OrderedIds(store, TypeIs(Country))
  }

  /** The ids listed under a location: its children, whatever their type, in title order. */
  ghost function ChildIds(store: map<LocId, Location>, parent: LocId): seq<LocId>
  {
    OrderedIds(store, ParentIs(parent))
  }

  ghost function CountrySet(store: map<LocId, Location>): set<LocId>
  {
    set y | y in store && store[y].locationType == Country
  }

  ghost function ChildSet(store: map<LocId, Location>, parent: LocId): set<LocId>
  {
    set y | y in store && store[y].parent == Some(parent)
  }

  ghost function CityEntries(store: map<LocId, Location>, country: LocId, state: LocId): seq<CityEntry>
    requires country in store && state in store
  {
    var ids := ChildIds(store, state);
    seq(|ids|, k requires 0 <= k < |ids| =>
      CityEntry(store[ids[k]].title,
                CityPath(store[country].countryCode, store[state].title, store[ids[k]].title)))
  }

  ghost function StateEntries(store: map<LocId, Location>, country: LocId): seq<StateEntry>
    requires country in store
  {
    var ids := ChildIds(store, country);
    seq(|ids|, k requires 0 <= k < |ids| =>
      StateEntry(store[ids[k]].title, StatePath(store[country].countryCode, store[ids[k]].title),
                 CityEntries(store, country, ids[k])))
  }

  ghost function CountryEntryOf(store: map<LocId, Location>, country: LocId): CountryEntry
    requires country in store
  {
    CountryEntry(store[country].title, Text.Lower(store[country].countryCode), StateEntries(store, country))
  }

  /** The sitemap the command writes, as a function of the location table. */
  ghost function Projection(store: map<LocId, Location>): seq<CountryEntry>
  {
    var ids := CountryIds(store);
    seq(|ids|, i requires 0 <= i < |ids| => CountryEntryOf(store, ids[i]))
  }

  // ---------------------------------------------------------------- the command

  /**
   * `Command.handle` of generate_sitemap: three nested loops over title-ordered
   * queries, appending entries (the two inner loops are the methods below). It
   * has no modifies clause: it reads the location table and changes nothing.
   */
  method GenerateSitemap(db: Store.Database) returns (sitemap: seq<CountryEntry>)
    ensures sitemap == Projection(db.locations)
  {
    ghost var store := db.locations;
    sitemap := [];
    var countries := db.FilterOrderedByTitle(TypeIs(Country));
    assert forall n :: 0 <= n < |countries| ==> countries[n] in store;
    for i := 0 to |countries|
      invariant |sitemap| == i
      invariant forall n :: 0 <= n < i ==> sitemap[n] == CountryEntryOf(store, countries[n])
    {
      var country := db.locations[countries[i]];
      var states := ListStates(db, countries[i]);
      var entry := CountryEntry(country.title, Text.Lower(country.countryCode), states);
      assert entry == CountryEntryOf(store, countries[i]);
      ghost var prev := sitemap;
      sitemap := sitemap + [entry];
      assert forall n :: 0 <= n < i ==> sitemap[n] == prev[n];
    }
    assert |sitemap| == |Projection(store)|;
  }

  /** The loop over a country's states. */
  method ListStates(db: Store.Database, country: LocId) returns (states: seq<StateEntry>)
    requires country in db.locations
    ensures states == StateEntries(db.locations, country)
  {
    var code := Text.Lower(db.locations[country].countryCode);
    states := [];
    var stateIds := db.FilterOrderedByTitle(ParentIs(country));
    for j := 0 to |stateIds|
      invariant states == StateEntries(db.locations, country)[..j]
    {
      StateEntryAt(db.locations, country, stateIds, j);
      var state := db.locations[stateIds[j]];
      var cities := ListCities(db, country, stateIds[j]);
      var entry := StateEntry(state.title, code + "/" + Text.Slug(state.title), cities);
      NextState(db.locations, country, stateIds, j, states, entry);
      states := states + [entry];
    }
    StateEntryAt(db.locations, country, stateIds, |stateIds|);
  }

  /** The `j`-th state entry of a country, when there is one, and the number of entries. */
  lemma StateEntryAt(store: map<LocId, Location>, country: LocId, ids: seq<LocId>, j: nat)
    requires country in store && ids == ChildIds(store, country) && j <= |ids|
    ensures |StateEntries(store, country)| == |ids|
    ensures j == |ids| ==> StateEntries(store, country)[..j] == StateEntries(store, country)
    ensures j < |ids| ==> ids[j] in store
  {
    if j < |ids| {
      assert ids[j] in ids;
    }
  }

  /** One iteration of the state loop extends the listed prefix by the next entry. */
  lemma NextState(store: map<LocId, Location>, country: LocId, ids: seq<LocId>, j: nat,
                  states: seq<StateEntry>, entry: StateEntry)
    requires country in store && ids == ChildIds(store, country) && j < |ids|
    requires states == StateEntries(store, country)[..j]
    requires ids[j] in store
    requires entry == StateEntry(store[ids[j]].title,
                                 Text.Lower(store[country].countryCode) + "/" + Text.Slug(store[ids[j]].title),
                                 CityEntries(store, country, ids[j]))
    ensures states + [entry] == StateEntries(store, country)[..j + 1]
  {
    var all := StateEntries(store, country);
    assert all[j] == entry;
    assert all[..j + 1] == all[..j] + [all[j]];
  }

  /** The loop over a state's cities. */
  method ListCities(db: Store.Database, country: LocId, state: LocId) returns (cities: seq<CityEntry>)
    requires country in db.locations && state in db.locations
    ensures cities == CityEntries(db.locations, country, state)
  {
    var code := Text.Lower(db.locations[country].countryCode);
    var stateTitle := db.locations[state].title;
    cities := [];
    ghost var expected := CityEntries(db.locations, country, state);
    var cityIds := db.FilterOrderedByTitle(ParentIs(state));
    assert |expected| == |cityIds|;
    for k := 0 to |cityIds|
      invariant cities == expected[..k]
    {
      var city := db.locations[cityIds[k]];
      var entry := CityEntry(city.title, code + "/" + Text.Slug(stateTitle) + "/" + Text.Slug(city.title));
      assert entry == expected[k];
      assert expected[..k + 1] == expected[..k] + [expected[k]];
      cities := cities + [entry];
    }
    assert expected[..|cityIds|] == expected;
  }

  // ---------------------------------------------------------------- properties

  lemma CountryIdsExact(store: map<LocId, Location>)
    ensures forall y :: y in CountryIds(store) <==> y in CountrySet(store)
    ensures |CountryIds(store)| == |CountrySet(store)|
  {
    OrderedIdsCount(store, TypeIs(Country));
    assert (set y | y in store && Matches(TypeIs(Country), store[y])) == CountrySet(store);
  }

  lemma ChildIdsExact(store: map<LocId, Location>, parent: LocId)
    ensures forall y :: y in ChildIds(store, parent) <==> y in ChildSet(store, parent)
    ensures |ChildIds(store, parent)| == |ChildSet(store, parent)|
  {
    OrderedIdsCount(store, ParentIs(parent));
    assert (set y | y in store && Matches(ParentIs(parent), store[y])) == ChildSet(store, parent);
  }

  /**
   * One top-level entry per location typed "country", no more: the entries
   * are those countries' titles and lower-cased codes, in ascending title order.
   */
  lemma CountriesListed(store: map<LocId, Location>)
    ensures |Projection(store)| == |CountrySet(store)|
    ensures forall y :: y in CountryIds(store) <==> y in CountrySet(store)
    ensures forall i :: 0 <= i < |Projection(store)| ==>
      Projection(store)[i].title == store[CountryIds(store)[i]].title
      && Projection(store)[i].code == Text.Lower(store[CountryIds(store)[i]].countryCode)
    ensures forall i, j :: 0 <= i < j < |Projection(store)| ==>
      !Text.StrLt(Projection(store)[j].title, Projection(store)[i].title)
  {
    CountryIdsExact(store);
    var ids := CountryIds(store);
    forall i, j | 0 <= i < j < |Projection(store)|
      ensures !Text.StrLt(Projection(store)[j].title, Projection(store)[i].title)
    {
      assert Precedes(store, ids[i], ids[j]);
      var ti, tj := store[ids[i]].title, store[ids[j]].title;
      if Text.StrLt(ti, tj) {
        Text.StrLtAsymmetric(ti, tj);
      } else {
        Text.StrLtIrreflexive(ti);
      }
    }
  }

  /**
   * A country's entry lists every child of that country, whatever its type,
   * once each and in title order; each state path is the lower-cased country
   * code, '/', and the slug of the state's title.
   */
  lemma StatesListed(store: map<LocId, Location>, country: LocId)
    requires country in store
    ensures |StateEntries(store, country)| == |ChildSet(store, country)|
    ensures forall y :: y in ChildIds(store, country) <==> y in ChildSet(store, country)
    ensures forall j :: 0 <= j < |StateEntries(store, country)| ==>
      StateEntries(store, country)[j].title == store[ChildIds(store, country)[j]].title
      && StateEntries(store, country)[j].path ==
           Text.Lower(store[country].countryCode) + "/" + Text.Slug(store[ChildIds(store, country)[j]].title)
  {
    ChildIdsExact(store, country);
  }

  /**
   * A state's entry lists every child of that state once each, and each city
   * path is the state's path, '/', and the city's slug: the country code used
   * is the enclosing country's, never the city's own.
   */
  lemma CitiesListed(store: map<LocId, Location>, country: LocId, j: nat)
    requires country in store && j < |StateEntries(store, country)|
    ensures var state := ChildIds(store, country)[j];
      var entry := StateEntries(store, country)[j];
      && |entry.cities| == |ChildSet(store, state)|
      && (forall k :: 0 <= k < |entry.cities| ==>
            entry.cities[k].title == store[ChildIds(store, state)[k]].title
            && entry.cities[k].path == entry.path + "/" + Text.Slug(store[ChildIds(store, state)[k]].title)
            && entry.path <= entry.cities[k].path)
  {
    var state := ChildIds(store, country)[j];
    ChildIdsExact(store, state);
    var entry := StateEntries(store, country)[j];
    assert entry.path == StatePath(store[country].countryCode, store[state].title);
    forall k | 0 <= k < |entry.cities|
      ensures entry.cities[k].path == entry.path + "/" + Text.Slug(store[ChildIds(store, state)[k]].title)
      ensures entry.path <= entry.cities[k].path
    {
      var city := store[ChildIds(store, state)[k]];
      assert entry.cities[k].path == CityPath(store[country].countryCode, store[state].title, city.title);
    }
  }

  /** A country or a state without children keeps its entry, with an empty list. */
  lemma EmptyListsNotOmitted(store: map<LocId, Location>, country: LocId)
    requires country in store
    ensures ChildSet(store, country) == {} ==> StateEntries(store, country) == []
    ensures forall j :: 0 <= j < |StateEntries(store, country)| ==>
      ChildSet(store, ChildIds(store, country)[j]) == {} ==> StateEntries(store, country)[j].cities == []
  {
    ChildIdsExact(store, country);
    forall j | 0 <= j < |StateEntries(store, country)| && ChildSet(store, ChildIds(store, country)[j]) == {}
      ensures StateEntries(store, country)[j].cities == []
    {
      ChildIdsExact(store, ChildIds(store, country)[j]);
    }
  }

  /** The parent of `x` is a stored location of type "country". */
  ghost predicate UnderCountry(store: map<LocId, Location>, x: LocId)
  {
    x in store && store[x].parent.Some? && store[x].parent.value in store
    && store[store[x].parent.value].locationType == Country
  }

  /**
   * Only three levels are listed: a location that is not a country, whose
   * parent is not a country and whose grandparent is not a country appears
   * nowhere in the projection.
   */
  lemma DeepAndOrphanLocationsOmitted(store: map<LocId, Location>, x: LocId)
    requires x in store && store[x].locationType != Country
    requires !UnderCountry(store, x)
    requires store[x].parent.Some? ==> !UnderCountry(store, store[x].parent.value)
    ensures x !in CountryIds(store)
    ensures forall c :: c in CountryIds(store) ==> x !in ChildIds(store, c)
    ensures forall c, s :: c in CountryIds(store) && s in ChildIds(store, c) ==> x !in ChildIds(store, s)
  {
  }
}
