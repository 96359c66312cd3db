/**
 * The `0004_auto_partition_accommodation` migration: the accommodation table
 * is replaced by one range-partitioned on `feed` with primary key
 * `(feed, id)`. Forward, the new table is created with its four partitions,
 * every old row is copied into it, the old table is dropped and the new one
 * takes its name. Backward, a plain table is filled from the partitioned one
 * and takes the name back. A migration runs in one transaction: a failing
 * statement leaves the schema as it was.
 */
module Partition {
  import opened Wrappers
  import opened Models

  // ---------------------------------------------------------------- the range table

  /** The four partitions, in bound order. */
  datatype Part = Feed0To500 | Feed501To2000 | Feed2001To5000 | Feed5000Plus

  const AllParts: seq<Part> := [Feed0To500, Feed501To2000, Feed2001To5000, Feed5000Plus]

  function PartName(p: Part): string
  {
    match p
    case Feed0To500 => "accommodation_feed_0_500"
    case Feed501To2000 => "accommodation_feed_501_2000"
    case Feed2001To5000 => "accommodation_feed_2001_5000"
    case Feed5000Plus => "accommodation_feed_5000_plus"
  }

  /** The `FROM` bound, inclusive. */
  function Lower(p: Part): int
  {
    match p
    case Feed0To500 => 0
    case Feed501To2000 => 501
    case Feed2001To5000 => 2001
    case Feed5000Plus => 5001
  }

  /** The `TO` bound, exclusive; `None` is `MAXVALUE`. */
  function Upper(p: Part): Option<int>
  {
    match p
    case Feed0To500 => Some(501)
    case Feed501To2000 => Some(2001)
    case Feed2001To5000 => Some(5001)
    case Feed5000Plus => None
  }

  /** `FOR VALUES FROM (lower) TO (upper)` admits `feed`. */
  predicate Contains(p: Part, feed: int)
  {
    Lower(p) <= feed && (Upper(p).None? || feed < Upper(p).value)
  }

  /**
   * The partition a row with this `feed` is stored in: the one whose range
   * holds it, and none for a negative feed.
   */
  function Route(feed: int): (r: Option<Part>)
    ensures r.Some? <==> feed >= 0
    ensures r.Some? ==> Contains(r.value, feed)
    ensures forall p :: Contains(p, feed) ==> r == Some(p)
  {
    if feed < 0 then None
    else if feed < 501 then Some(Feed0To500)
    else if feed < 2001 then Some(Feed501To2000)
    else if feed < 5001 then Some(Feed2001To5000)
    else Some(Feed5000Plus)
  }

  /** The ranges are contiguous: each starts where the previous one ends, from 0 up to `MAXVALUE`. */
  lemma RangesContiguous()
    ensures Lower(AllParts[0]) == 0 && Upper(AllParts[|AllParts| - 1]) == None
    ensures forall i :: 0 <= i < |AllParts| - 1 ==> Upper(AllParts[i]) == Some(Lower(AllParts[i + 1]))
  {
  }

  /** The ranges are disjoint: no feed lies in two partitions. */
  lemma RangesDisjoint(p: Part, q: Part, feed: int)
    requires Contains(p, feed) && Contains(q, feed)
    ensures p == q
  {
    var r := Route(feed);
  }

  /** Feed 5000 goes to the third partition, whatever the fourth one's name says; 5001 is the first of the fourth. */
  lemma BoundaryFeeds()
    ensures Route(500) == Some(Feed0To500) && Route(501) == Some(Feed501To2000)
    ensures Route(2000) == Some(Feed501To2000) && Route(2001) == Some(Feed2001To5000)
    ensures Route(5000) == Some(Feed2001To5000) && Route(5001) == Some(Feed5000Plus)
  {
  }

  // ---------------------------------------------------------------- rows and keys

  /** The new table's contents, one row sequence per partition. */
  datatype Partitions = Partitions(
    feed0To500: seq<Accommodation>,
    feed501To2000: seq<Accommodation>,
    feed2001To5000: seq<Accommodation>,
    feed5000Plus: seq<Accommodation>)

  const EmptyPartitions := Partitions([], [], [], [])

  function RowsIn(ps: Partitions, p: Part): seq<Accommodation>
  {
    match p
    case Feed0To500 => ps.feed0To500
    case Feed501To2000 => ps.feed501To2000
    case Feed2001To5000 => ps.feed2001To5000
    case Feed5000Plus => ps.feed5000Plus
  }

  /** Appends a row to one partition and leaves the others alone. */
  function WithRow(ps: Partitions, p: Part, a: Accommodation): (r: Partitions)
    ensures RowsIn(r, p) == RowsIn(ps, p) + [a]
    ensures forall q :: q != p ==> RowsIn(r, q) == RowsIn(ps, q)
  {
    match p
    case Feed0To500 => ps.(feed0To500 := ps.feed0To500 + [a])
    case Feed501To2000 => ps.(feed501To2000 := ps.feed501To2000 + [a])
    case Feed2001To5000 => ps.(feed2001To5000 := ps.feed2001To5000 + [a])
    case Feed5000Plus => ps.(feed5000Plus := ps.feed5000Plus + [a])
  }

  /** What `SELECT *` reads from the partitioned table: the partitions one after the other. */
  function AllRows(ps: Partitions): seq<Accommodation>
  {
    ps.feed0To500 + ps.feed501To2000 + ps.feed2001To5000 + ps.feed5000Plus
  }

  /** A row is in the table exactly when it is in one of its partitions. */
  lemma InAllRows(ps: Partitions, a: Accommodation)
    ensures a in AllRows(ps) <==> exists p :: a in RowsIn(ps, p)
  {
    if a in AllRows(ps) {
      if a in ps.feed0To500 { assert a in RowsIn(ps, Feed0To500); }
      else if a in ps.feed501To2000 { assert a in RowsIn(ps, Feed501To2000); }
      else if a in ps.feed2001To5000 { assert a in RowsIn(ps, Feed2001To5000); }
      else { assert a in RowsIn(ps, Feed5000Plus); }
    }
  }

  /** The primary key `(feed, id)`. */
  function Key(a: Accommodation): (int, AccId)
  {
    (a.feed, a.id)
  }

  /** Some row of `rows` has the key `k`. */
  predicate HasKey(rows: seq<Accommodation>, k: (int, AccId))
  {
    exists i :: 0 <= i < |rows| && Key(rows[i]) == k
  }

  /** The first of the `NOT NULL` columns that the old table leaves nullable and this row leaves empty. */
  function NullColumn(a: Accommodation): (r: Option<string>)
    ensures r.None? <==> a.bedroomCount.Some? && a.usdRate.Some? && a.user.Some?
    ensures r == Some("bedroom_count") <==> a.bedroomCount.None?
  {
    if a.bedroomCount.None? then Some("bedroom_count")
    else if a.usdRate.None? then Some("usd_rate")
    else if a.user.None? then Some("user_id")
    else None
  }

  /** A row the new table can hold: it has a partition and no empty `NOT NULL` column. */
  predicate Admissible(a: Accommodation)
  {
    a.feed >= 0 && NullColumn(a).None?
  }

  /** Every row sits in the partition its feed routes to, and is admissible. */
  predicate Routed(ps: Partitions)
  {
    forall p, i :: 0 <= i < |RowsIn(ps, p)| ==>
      Route(RowsIn(ps, p)[i].feed) == Some(p) && Admissible(RowsIn(ps, p)[i])
  }

  /** The table's keys are distinct. */
  predicate KeysDistinct(rows: seq<Accommodation>)
  {
    forall i, j :: 0 <= i < j < |rows| ==> Key(rows[i]) != Key(rows[j])
  }

  /**
   * Rows with one key share a feed and so a partition: the per-partition
   * unique index sees every row the table-wide key could clash with.
   */
  lemma {:induction false} PartitionKeyLookup(ps: Partitions, a: Accommodation)
    requires Routed(ps) && a.feed >= 0
    ensures HasKey(RowsIn(ps, Route(a.feed).value), Key(a)) <==> HasKey(AllRows(ps), Key(a))
  {
    var p := Route(a.feed).value;
    var all := AllRows(ps);
    if HasKey(all, Key(a)) {
      var i :| 0 <= i < |all| && Key(all[i]) == Key(a);
      InAllRows(ps, all[i]);
      var q :| all[i] in RowsIn(ps, q);
      var j :| 0 <= j < |RowsIn(ps, q)| && RowsIn(ps, q)[j] == all[i];
      assert Route(all[i].feed) == Some(q);
      assert Key(RowsIn(ps, p)[j]) == Key(a);
    }
    if HasKey(RowsIn(ps, p), Key(a)) {
      var j :| 0 <= j < |RowsIn(ps, p)| && Key(RowsIn(ps, p)[j]) == Key(a);
      var b := RowsIn(ps, p)[j];
      InAllRows(ps, b);
      var i :| 0 <= i < |all| && all[i] == b;
    }
  }

  // ---------------------------------------------------------------- the copy

  datatype MigrationError =
    | DuplicateTable(name: string)
    | UndefinedTable(name: string)
    | NoPartition(feed: int)
    | NotNullViolation(column: string, id: AccId)
    | UniqueViolation(feed: int, id: AccId)

  /** One row of `INSERT … SELECT`: routed to its partition, checked for empty columns and a taken key. */
  function InsertRow(ps: Partitions, a: Accommodation): Result<Partitions, MigrationError>
  {
    match Route(a.feed)
    case None => Failure(NoPartition(a.feed))
    case Some(p) =>
      if NullColumn(a).Some? then Failure(NotNullViolation(NullColumn(a).value, a.id))
      else if HasKey(RowsIn(ps, p), Key(a)) then Failure(UniqueViolation(a.feed, a.id))
      else Success(WithRow(ps, p, a))
  }

  /** `INSERT INTO new … SELECT … FROM old`: every row in turn, column for column; one bad row fails the statement. */
  function CopyRows(into: Partitions, rows: seq<Accommodation>): Result<Partitions, MigrationError>
  {
    if rows == [] then Success(into)
    else match CopyRows(into, rows[..|rows| - 1])
      case Failure(e) => Failure(e)
      case Success(ps) => InsertRow(ps, rows[|rows| - 1])
  }

  /** Appending a row its feed routes to keeps the table routed. */
  lemma WithRowRouted(ps: Partitions, p: Part, a: Accommodation)
    requires Routed(ps) && Route(a.feed) == Some(p) && Admissible(a)
    ensures Routed(WithRow(ps, p, a))
  {
    var r := WithRow(ps, p, a);
    forall q, i | 0 <= i < |RowsIn(r, q)|
      ensures Route(RowsIn(r, q)[i].feed) == Some(q) && Admissible(RowsIn(r, q)[i])
    {
      if q != p || i < |RowsIn(ps, p)| {
        assert RowsIn(r, q)[i] == RowsIn(ps, q)[i];
      }
    }
  }

  lemma AllRowsMultiset(ps: Partitions)
    ensures multiset(AllRows(ps)) ==
      multiset(ps.feed0To500) + multiset(ps.feed501To2000) + multiset(ps.feed2001To5000) + multiset(ps.feed5000Plus)
  {
  }

  /** Appending a row to a partition adds exactly that row to the table. */
  lemma WithRowRows(ps: Partitions, p: Part, a: Accommodation)
    ensures multiset(AllRows(WithRow(ps, p, a))) == multiset(AllRows(ps)) + multiset{a}
  {
    var r := WithRow(ps, p, a);
    AllRowsMultiset(ps);
    AllRowsMultiset(r);
    assert multiset(RowsIn(r, p)) == multiset(RowsIn(ps, p)) + multiset{a};
  }

  /** An insert succeeds exactly for an admissible row with a fresh key; it keeps the table routed and adds exactly its row. */
  lemma InsertRowEffect(ps: Partitions, a: Accommodation)
    requires Routed(ps)
    ensures InsertRow(ps, a).Success? <==> Admissible(a) && !HasKey(AllRows(ps), Key(a))
    ensures InsertRow(ps, a).Success? ==>
      && Routed(InsertRow(ps, a).value)
      && multiset(AllRows(InsertRow(ps, a).value)) == multiset(AllRows(ps)) + multiset{a}
  {
    if a.feed >= 0 {
      PartitionKeyLookup(ps, a);
      var p := Route(a.feed).value;
      if InsertRow(ps, a).Success? {
        WithRowRouted(ps, p, a);
        WithRowRows(ps, p, a);
      }
    }
  }

  /**
   * A successful copy stores every old row, column for column, each in the
   * partition its feed routes to: the row count is preserved.
   */
  lemma {:induction false} CopyPreservesRows(rows: seq<Accommodation>)
    ensures var c := CopyRows(EmptyPartitions, rows);
      c.Success? ==>
        && Routed(c.value)
        && multiset(AllRows(c.value)) == multiset(rows)
        && |AllRows(c.value)| == |rows|
  {
    var c := CopyRows(EmptyPartitions, rows);
    if rows != [] {
      var init, last := rows[..|rows| - 1], rows[|rows| - 1];
      assert rows == init + [last];
      CopyPreservesRows(init);
      var ci := CopyRows(EmptyPartitions, init);
      if ci.Success? {
        InsertRowEffect(ci.value, last);
      }
      if c.Success? {
        assert |AllRows(c.value)| == |multiset(AllRows(c.value))|;
      }
    }
  }

  /** A key is taken in the table exactly when some copied row has it. */
  lemma KeyTakenIffCopied(rows: seq<Accommodation>, k: (int, AccId))
    requires CopyRows(EmptyPartitions, rows).Success?
    ensures HasKey(AllRows(CopyRows(EmptyPartitions, rows).value), k) <==> HasKey(rows, k)
  {
    var all := AllRows(CopyRows(EmptyPartitions, rows).value);
    CopyPreservesRows(rows);
    if HasKey(all, k) {
      var i :| 0 <= i < |all| && Key(all[i]) == k;
      assert all[i] in multiset(rows);
      var j :| 0 <= j < |rows| && rows[j] == all[i];
    }
    if HasKey(rows, k) {
      var j :| 0 <= j < |rows| && Key(rows[j]) == k;
      assert rows[j] in multiset(all);
      var i :| 0 <= i < |all| && all[i] == rows[j];
    }
  }

  /** One more row keeps the keys distinct exactly when its key is new. */
  lemma KeysDistinctSnoc(init: seq<Accommodation>, last: Accommodation)
    ensures KeysDistinct(init + [last]) <==> KeysDistinct(init) && !HasKey(init, Key(last))
  {
    var rows := init + [last];
    if HasKey(init, Key(last)) {
      var i :| 0 <= i < |init| && Key(init[i]) == Key(last);
      assert Key(rows[i]) == Key(rows[|init|]);
    }
    if !KeysDistinct(rows) && KeysDistinct(init) {
      var i, j :| 0 <= i < j < |rows| && Key(rows[i]) == Key(rows[j]);
      assert j == |init|;
      assert Key(init[i]) == Key(last);
    }
    if !KeysDistinct(init) {
      var i, j :| 0 <= i < j < |init| && Key(init[i]) == Key(init[j]);
      assert Key(rows[i]) == Key(rows[j]);
    }
  }

  /**
   * The copy succeeds exactly when every old row is admissible (a feed of
   * at least 0 and no empty `bedroom_count`, `usd_rate` or `user_id`) and no
   * two rows share a `(feed, id)` key.
   */
  lemma {:induction false} CopySucceedsIff(rows: seq<Accommodation>)
    ensures CopyRows(EmptyPartitions, rows).Success? <==>
      (forall i :: 0 <= i < |rows| ==> Admissible(rows[i])) && KeysDistinct(rows)
  {
    if rows != [] {
      var init, last := rows[..|rows| - 1], rows[|rows| - 1];
      assert rows == init + [last];
      CopySucceedsIff(init);
      KeysDistinctSnoc(init, last);
      var ci := CopyRows(EmptyPartitions, init);
      if ci.Success? {
        CopyPreservesRows(init);
        InsertRowEffect(ci.value, last);
        KeyTakenIffCopied(init, Key(last));
      }
    }
  }

  /** Under the old primary key (distinct ids) the new key never clashes: only empty columns or negative feeds fail the copy. */
  lemma CopyOfDistinctIds(rows: seq<Accommodation>)
    requires forall i, j :: 0 <= i < j < |rows| ==> rows[i].id != rows[j].id
    ensures CopyRows(EmptyPartitions, rows).Success? <==> forall i :: 0 <= i < |rows| ==> Admissible(rows[i])
  {
    CopySucceedsIff(rows);
  }

  /** The wider key admits one id under two feeds, which the old key on `id` alone forbade. */
  lemma SameIdTwoFeeds(a: Accommodation, feed: int)
    requires Admissible(a) && feed >= 0 && feed != a.feed
    ensures CopyRows(EmptyPartitions, [a, a.(feed := feed)]).Success?
  {
    CopySucceedsIff([a, a.(feed := feed)]);
  }

  /** One empty `NOT NULL` column anywhere fails the whole copy. */
  lemma NullColumnFailsCopy(rows: seq<Accommodation>, i: nat)
    requires i < |rows| && NullColumn(rows[i]).Some?
    ensures CopyRows(EmptyPartitions, rows).Failure?
  {
    CopySucceedsIff(rows);
  }

  /**
   * An accommodation saved with its defaults has no bedroom count, so a
   * table holding one cannot be migrated; its feed of 0 would route it to the
   * first partition.
   */
  lemma DefaultAccommodationBlocksCopy(id: AccId, title: string, countryCode: string, center: Point, location: LocId)
    ensures var a := NewAccommodation(id, title, countryCode, center, location);
      && Route(a.feed) == Some(Feed0To500)
      && CopyRows(EmptyPartitions, [a]) == Failure(NotNullViolation("bedroom_count", id))
  {
    var a := NewAccommodation(id, title, countryCode, center, location);
    assert [a][..0] == [];
  }

  // ---------------------------------------------------------------- the schema

  const OldName := "property_management_accommodation"
  const NewName := "new_property_management_accommodation"

  datatype Table = Plain(rows: seq<Accommodation>) | Partitioned(parts: Partitions)

  /** What `SELECT * FROM` the table returns. */
  function Rows(t: Table): seq<Accommodation>
  {
    match t
    case Plain(rows) => rows
    case Partitioned(ps) => AllRows(ps)
  }

  /** The forward migration on the schema's tables, as one transaction. */
  function Forward(ts: map<string, Table>): Result<map<string, Table>, MigrationError>
  {
    if NewName in ts then Failure(DuplicateTable(NewName))
    else if OldName !in ts then Failure(UndefinedTable(OldName))
    else match CopyRows(EmptyPartitions, Rows(ts[OldName]))
      case Failure(e) => Failure(e)
      case Success(ps) => Success(ts[OldName := Partitioned(ps)])
  }

  /** The reverse migration: a plain copy of the table's rows takes its name. */
  function Backward(ts: map<string, Table>): Result<map<string, Table>, MigrationError>
  {
    if NewName in ts then Failure(DuplicateTable(NewName))
    else if OldName !in ts then Failure(UndefinedTable(OldName))
    else Success(ts[OldName := Plain(Rows(ts[OldName]))])
  }

  /** Only the accommodation table changes; the names stay the same. */
  predicate OthersUnchanged(ts: map<string, Table>, ts': map<string, Table>)
  {
    && ts'.Keys == ts.Keys
    && forall k :: k in ts && k != OldName ==> ts'[k] == ts[k]
  }

  /**
   * The forward migration succeeds exactly when no table has the new name
   * yet, the accommodation table exists, and its rows can all be copied;
   * then the accommodation table is partitioned, holds the same rows, and
   * nothing else changes.
   */
  lemma ForwardEffect(ts: map<string, Table>)
    ensures Forward(ts).Success? <==>
      && NewName !in ts && OldName in ts
      && (forall i :: 0 <= i < |Rows(ts[OldName])| ==> Admissible(Rows(ts[OldName])[i]))
      && KeysDistinct(Rows(ts[OldName]))
    ensures Forward(ts).Success? ==>
      var ts' := Forward(ts).value;
      && OthersUnchanged(ts, ts')
      && ts'[OldName].Partitioned? && Routed(ts'[OldName].parts)
      && multiset(Rows(ts'[OldName])) == multiset(Rows(ts[OldName]))
  {
    if NewName !in ts && OldName in ts {
      CopySucceedsIff(Rows(ts[OldName]));
      CopyPreservesRows(Rows(ts[OldName]));
    }
  }

  /** The reverse migration leaves a plain table with the same rows and changes nothing else. */
  lemma BackwardEffect(ts: map<string, Table>)
    ensures Backward(ts).Success? <==> NewName !in ts && OldName in ts
    ensures Backward(ts).Success? ==>
      var ts' := Backward(ts).value;
      && OthersUnchanged(ts, ts')
      && ts'[OldName] == Plain(Rows(ts[OldName]))
  {
  }

  /**
   * Migrating forward and back restores a plain accommodation table with the
   * same rows (possibly in another order) and leaves every other table as it was.
   */
  lemma {:induction false} RoundTrip(ts: map<string, Table>)
    requires Forward(ts).Success?
    ensures Backward(Forward(ts).value).Success?
    ensures var ts'' := Backward(Forward(ts).value).value;
      && OthersUnchanged(ts, ts'')
      && ts''[OldName].Plain?
      && multiset(Rows(ts''[OldName])) == multiset(Rows(ts[OldName]))
  {
    ForwardEffect(ts);
    BackwardEffect(Forward(ts).value);
  }

  /** A schema whose tables the migration's statements change one after the other. */
  class Schema {
    var tables: map<string, Table>

    constructor (tables0: map<string, Table>)
      ensures tables == tables0
    {
      tables := tables0;
    }

    /** Create, copy, drop, rename; a failing statement rolls everything back. */
    method Migrate() returns (err: Option<MigrationError>)
      modifies this
      ensures err.None? ==> Forward(old(tables)) == Success(tables)
      ensures err.Some? ==> Forward(old(tables)) == Failure(err.value) && tables == old(tables)
    {
      var saved := tables;
      // CREATE TABLE new … PARTITION BY RANGE (feed), and its partitions
      if NewName in tables {
        return Some(DuplicateTable(NewName));
      }
      tables := tables[NewName := Partitioned(EmptyPartitions)];
      // INSERT INTO new … SELECT … FROM old
      if OldName !in tables {
        tables := saved;
        return Some(UndefinedTable(OldName));
      }
      var copied := CopyRows(EmptyPartitions, Rows(tables[OldName]));
      if copied.Failure? {
        tables := saved;
        return Some(copied.error);
      }
      tables := tables[NewName := Partitioned(copied.value)];
      // DROP TABLE IF EXISTS old; ALTER TABLE new RENAME TO old
      var created := tables[NewName];
      tables := tables - {OldName};
      tables := (tables - {NewName})[OldName := created];
      assert tables == saved[OldName := created];
      err := None;
    }

    /** Create as select, drop, rename; a failing statement rolls everything back. */
    method Unmigrate() returns (err: Option<MigrationError>)
      modifies this
      ensures err.None? ==> Backward(old(tables)) == Success(tables)
      ensures err.Some? ==> Backward(old(tables)) == Failure(err.value) && tables == old(tables)
    {
      // CREATE TABLE new AS SELECT * FROM old
      if NewName in tables {
        return Some(DuplicateTable(NewName));
      }
      if OldName !in tables {
        return Some(UndefinedTable(OldName));
      }
      var saved := tables;
      tables := tables[NewName := Plain(Rows(tables[OldName]))];
      // DROP TABLE old; ALTER TABLE new RENAME TO old
      var created := tables[NewName];
      tables := tables - {OldName};
      tables := (tables - {NewName})[OldName := created];
      assert tables == saved[OldName := created];
      err := None;
    }
  }
}
