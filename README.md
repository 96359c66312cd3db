# Property Management System — a Dafny model of its core

The system is a Django application that keeps a tree of locations
(country, state, city) and the accommodations listed at them. Accommodations
have images, per-language localizations and an optional owner. This project
models five parts of it and proves what they promise:

- **The records and their rules** (`models.dfy`, module `Models`). This covers
  the four record kinds with their defaults, the image upload path, the
  `__str__` labels, and the `images` URL list that saving an image appends to.
  It also covers the database as a value with the delete rules of the foreign
  keys: `SET_NULL` for a location's parent and an accommodation's owner,
  `CASCADE` for everything an accommodation or a location owns. Every write
  keeps referential integrity.
- **The database the ORM updates in place** (`store.dfy`, class
  `Store.Database`). Each table is a map field. Each write method is proved
  against the transition function in `Models`. The query
  `filter(…).order_by("title")` returns exactly the matching ids in title order
  (`query.dfy`, module `Query`).
- **`generate_sitemap`** (`sitemap.dfy`). The command's three nested loops are
  proved to compute `Sitemap.Projection`, a function of the location table.
  That function lists one entry per country with its states and their cities,
  each with its slug path.
- **`populate_location_data`** (`populate.dfy`). The command's three loops are
  proved to compute `Populate.RunSeeds`, an ordered run of the seed items that
  stops at the first error. On an empty table it inserts the seven seed
  locations as a three-level tree. A second run fails at once.
- **The `0004` migration** (`partition.dfy`). It routes each row by `feed` into
  four range partitions. The copy step keeps every row and fails on an empty
  `NOT NULL` column. The forward and reverse migrations are a class whose
  methods change the schema statement by statement and roll back on failure.

Shared pieces are `wrappers.dfy` (`Option`, `Result`) and `text.dfy`, which
holds ASCII lower-casing, the slug, lexicographic string order and
first-index search.

Decimals are scaled integers: `review_score` in tenths, `usd_rate` in cents.
Geography points are pairs of reals that the model only carries.

Seeding is not idempotent and does not skip a failing item. The command
uses `create` and `get`, which raise. So a taken id or a missing parent ends
the run, and a second run fails on its first item (`Populate.RerunFails`).

## Model

| member | source | states |
|---|---|---|
| Text.LowerChar | Inventory_Management/property_management/management/commands/generate_sitemap.py:16 | the result is never an upper-case letter, a character that is not upper-case is kept, and an upper-case letter becomes its own lower-case letter, 32 code points on |
| Text.Slug | Inventory_Management/property_management/management/commands/generate_sitemap.py:25 | `.lower().replace(' ', '-')`: same length, no space, no upper-case letter, every space becomes '-' and every other character is lower-cased in place |
| Text.SlugIdempotent | Inventory_Management/property_management/management/commands/generate_sitemap.py:25 | slugging a slug changes nothing |
| Text.StrLtIrreflexive | Inventory_Management/property_management/management/commands/generate_sitemap.py:12 | no title sorts before itself |
| Text.StrLtTransitive | Inventory_Management/property_management/management/commands/generate_sitemap.py:12 | title order is transitive |
| Text.StrLtTotal | Inventory_Management/property_management/management/commands/generate_sitemap.py:12 | of two different titles, one sorts first |
| Text.StrLtAsymmetric | Inventory_Management/property_management/management/commands/generate_sitemap.py:12 | two titles never sort before each other |
| Models.UploadPath | Inventory_Management/property_management/models.py:8-9 | the path is `accommodations/`, then the accommodation id, then '/', then the file name, at exactly those positions |
| Models.UploadPathRoundTrip | Inventory_Management/property_management/models.py:8-9 | for an id without '/', parsing the upload path gives back the id and the file name |
| Models.ParseUploadPathSound | Inventory_Management/property_management/models.py:8-9 | every path that parses is the upload path of what it parses to |
| Models.UploadPathAmbiguousWithSlash | Inventory_Management/property_management/models.py:8-9 | an id containing '/' makes two different (id, file) pairs share one path |
| Models.LocationLabel | Inventory_Management/property_management/models.py:25-26 | a location's label is its title |
| Models.AccommodationLabel | Inventory_Management/property_management/models.py:53-54 | an accommodation's label is its title |
| Models.ImageLabel | Inventory_Management/property_management/models.py:88-89 | the label is "Image for " followed by the accommodation's title |
| Models.LocalizationLabel | Inventory_Management/property_management/models.py:101-102 | the label is "Localization for ", the title, " (", the language, ")", with title and language at those positions |
| Models.LocalizationLabelInjective | Inventory_Management/property_management/models.py:97-102 | with two-letter languages, equal labels mean equal titles and equal languages |
| Models.NewAccommodation | Inventory_Management/property_management/models.py:29-51 | an accommodation given only its required fields has feed 0, review score 0, an empty image list, is unpublished and has no bedroom count, rate, amenities or owner |
| Models.ImageUrl | Inventory_Management/property_management/models.py:85 | a stored file is served under `/media/` followed by its name |
| Models.SyncedImages | Inventory_Management/property_management/models.py:82-85 | an unset list is read as empty; the URL is appended once at the end and the earlier entries are kept |
| Models.FirstAndSecondImage | Inventory_Management/property_management/models.py:83-85 | the first image on an empty or unset list gives a one-element list; a second adds after it |
| Models.ResaveAppendsAgain | Inventory_Management/property_management/models.py:79-86 | saving the same image twice appends its URL twice: the sync is not idempotent |
| Models.CreateLocationKeepsIntegrity | Inventory_Management/property_management/models.py:11-17 | a successful insert of a location keeps every key and parent link valid |
| Models.SaveAccommodationEffect | Inventory_Management/property_management/models.py:40-66 | a save succeeds exactly when `images` is not NULL and the location and any owner exist; it stores the row as given, owner included, adds no key but its own, keeps integrity and touches no other row or user |
| Models.SaveImageAppendsOnce | Inventory_Management/property_management/models.py:79-86 | on a present accommodation, saving an image stores the image row; with a file, the accommodation row becomes the in-memory parent instance with exactly the file's media URL appended to its list; that write-back fails exactly when the instance names a missing location or owner, and then the image row stays stored; no other row changes |
| Models.FreshParentAppends | Inventory_Management/property_management/models.py:79-86 | through an instance equal to the stored row, the save succeeds and the row changes only by the appended URL |
| Models.SharedInstanceKeepsBoth | Inventory_Management/property_management/models.py:82-86 | two images saved through one shared instance both end up in the list, in save order |
| Models.SeparateInstancesLoseUrl | Inventory_Management/property_management/models.py:82-86 | two images saved through two instances loaded before either save leave only the second URL: the stale write-back loses the first |
| Models.SaveImageMissingAccommodation | Inventory_Management/property_management/models.py:71-75 | saving an image for a missing accommodation is refused with an integrity error and changes nothing |
| Models.DeleteAccommodationEffect | Inventory_Management/property_management/models.py:70-96 | deleting an accommodation removes exactly it, its images and its localizations; every surviving row keeps its value, no row is added, and integrity is kept |
| Models.DeleteAccommodationKeepsIntegrity | Inventory_Management/property_management/models.py:70-96 | after an accommodation is deleted no image or localization points at it |
| Models.DeleteLocationEffect | Inventory_Management/property_management/models.py:15-45 | deleting a location clears its children's parent link, changes no other location, removes its accommodations with their images and localizations; every surviving accommodation, image and localization keeps its value, no row is added, and integrity is kept |
| Models.DeleteLocationKeepsIntegrity | Inventory_Management/property_management/models.py:15-17 | after a location is deleted no parent link dangles |
| Models.DeleteUserEffect | Inventory_Management/property_management/models.py:47-48 | deleting a user clears the owner of exactly that user's accommodations and removes no row |
| Query.PrecedesIrreflexive | Inventory_Management/property_management/management/commands/generate_sitemap.py:12 | no location precedes itself in title order |
| Query.PrecedesTransitive | Inventory_Management/property_management/management/commands/generate_sitemap.py:12 | title order (ties broken by id) is transitive |
| Query.PrecedesTotal | Inventory_Management/property_management/management/commands/generate_sitemap.py:12 | of two different locations one precedes the other |
| Query.PrecedesAsymmetric | Inventory_Management/property_management/management/commands/generate_sitemap.py:12 | two locations never precede each other |
| Query.SortedDistinct | Inventory_Management/property_management/management/commands/generate_sitemap.py:12 | a result in strict title order repeats no id |
| Query.Insert | Inventory_Management/property_management/management/commands/generate_sitemap.py:12 | inserting a new id keeps the order strict, adds one element and adds exactly that id |
| Query.SortedUnique | Inventory_Management/property_management/management/commands/generate_sitemap.py:12 | two results in strict title order with the same ids are equal, so an ordered query has one answer |
| Query.OrderedIds | Inventory_Management/property_management/management/commands/generate_sitemap.py:12 | the query's answer is in strict title order and holds exactly the ids of the matching rows |
| Query.OrderedIdsCount | Inventory_Management/property_management/management/commands/generate_sitemap.py:12 | the answer has as many ids as there are matching rows |
| Store.Database.GetLocation | Inventory_Management/property_management/management/commands/populate_location_data.py:42 | `get(id=…)` returns the stored row, or `DoesNotExist` when there is none |
| Store.Database.FilterOrderedByTitle | Inventory_Management/property_management/management/commands/generate_sitemap.py:21 | the loop over the table returns what `Query.OrderedIds` specifies |
| Store.Database.CreateLocation | Inventory_Management/property_management/management/commands/populate_location_data.py:29-37 | the new state is the one `Models.CreateLocation` gives, and nothing changes on failure |
| Store.Database.SaveAccommodation | Inventory_Management/property_management/models.py:40-66 | a NULL `images`, a missing location or a missing owner is refused with nothing changed; otherwise the new state is the one `Models.SaveAccommodation` gives |
| Store.Database.SaveImage | Inventory_Management/property_management/models.py:79-86 | the image row is stored, then the parent instance's list is synced and the instance saved; the state and error are `Models.SaveImage`'s, and the returned instance carries the appended URL |
| Store.Database.DeleteAccommodation | Inventory_Management/property_management/models.py:70-96 | the new state is `Models.DeleteAccommodation` of the old one, and integrity is kept |
| Store.Database.DeleteLocation | Inventory_Management/property_management/models.py:15-45 | the table-by-table collector reaches `Models.DeleteLocation` of the old state |
| Store.Database.DeleteUser | Inventory_Management/property_management/models.py:47-48 | the new state is `Models.DeleteUser` of the old one |
| Sitemap.StatePath | Inventory_Management/property_management/management/commands/generate_sitemap.py:25 | a state's path is the lower-cased country code, '/', and the state's slug, at those positions |
| Sitemap.CityPath | Inventory_Management/property_management/management/commands/generate_sitemap.py:34 | a city's path is its state's path, '/', and the city's slug |
| Sitemap.PathsHaveNoSpaces | Inventory_Management/property_management/management/commands/generate_sitemap.py:25-34 | with a country code without spaces, no path contains a space |
| Sitemap.GenerateSitemap | Inventory_Management/property_management/management/commands/generate_sitemap.py:8-40 | the three loops build exactly `Projection` of the location table and change nothing |
| Sitemap.ListStates | Inventory_Management/property_management/management/commands/generate_sitemap.py:21-38 | the state loop builds exactly the country's state entries |
| Sitemap.ListCities | Inventory_Management/property_management/management/commands/generate_sitemap.py:30-36 | the city loop builds exactly the state's city entries |
| Sitemap.CountriesListed | Inventory_Management/property_management/management/commands/generate_sitemap.py:12-18 | one entry per location typed "country" and no other; each has the country's title and lower-cased code; entries are in ascending title order |
| Sitemap.StatesListed | Inventory_Management/property_management/management/commands/generate_sitemap.py:21-27 | a country lists every child once, whatever its type, with its title and its path |
| Sitemap.CitiesListed | Inventory_Management/property_management/management/commands/generate_sitemap.py:30-36 | a state lists every child once; each city path extends the state path by '/' and the city's slug, so it uses the enclosing country's code |
| Sitemap.EmptyListsNotOmitted | Inventory_Management/property_management/management/commands/generate_sitemap.py:15-27 | a country or state without children keeps its entry with an empty list |
| Sitemap.DeepAndOrphanLocationsOmitted | Inventory_Management/property_management/management/commands/generate_sitemap.py:12-30 | a location more than two levels below a country, or not under a country at all, appears nowhere |
| Populate.RunSeeds | Inventory_Management/property_management/management/commands/populate_location_data.py:27-68 | a run never reports more insertions than items |
| Populate.StoppedStaysStopped | Inventory_Management/property_management/management/commands/populate_location_data.py:28-68 | once an item has failed, later items change nothing |
| Populate.RunIsOrderedPrefix | Inventory_Management/property_management/management/commands/populate_location_data.py:27-68 | the inserted ids are a prefix of the items' ids: all of them when nothing failed, otherwise the next item is the one whose lookup or insert failed; earlier rows are kept |
| Populate.RunTouchesOnlyLocations | Inventory_Management/property_management/management/commands/populate_location_data.py:27-68 | a run changes only the location table: accommodations, images, localizations and users stay as they were |
| Populate.RunKeepsIntegrity | Inventory_Management/property_management/management/commands/populate_location_data.py:41-66 | a run keeps every parent link valid |
| Populate.InsertedRowsStored | Inventory_Management/property_management/management/commands/populate_location_data.py:29-37 | afterwards the table holds exactly the earlier rows and the inserted ids, each stored as its item gives it |
| Populate.InsertedRowsResolved | Inventory_Management/property_management/management/commands/populate_location_data.py:42-51 | an inserted state or city has as parent the stored location named by its "parent" key |
| Populate.RunSucceeds | Inventory_Management/property_management/management/commands/populate_location_data.py:27-68 | items with fresh, distinct ids whose parents exist or come earlier are all inserted |
| Populate.SeedsOrdered | Inventory_Management/property_management/management/commands/populate_location_data.py:11-25 | the seed ids in order are US, CA, GB, CA-ON, US-CA, US-CA-SF, CA-ON-TO, and every parent precedes its children |
| Populate.RunOfSeedIds | Inventory_Management/property_management/management/commands/populate_location_data.py:27-68 | items with the seed ids, parents first, inserted into an empty table, are all stored as given |
| Populate.FullRunInsertsAll | Inventory_Management/property_management/management/commands/populate_location_data.py:11-68 | on an empty table every seed is inserted in list order and stored as given |
| Populate.SeedRowsFormTree | Inventory_Management/property_management/management/commands/populate_location_data.py:11-25 | the seven seed rows form a tree: countries are roots, states hang under countries, cities under states, each with its parent's country code |
| Populate.FullRunFromEmpty | Inventory_Management/property_management/management/commands/populate_location_data.py:11-68 | on an empty table the command succeeds with seven locations in that tree |
| Populate.RerunFails | Inventory_Management/property_management/management/commands/populate_location_data.py:29-37 | a second run stops at the first country with an integrity error and inserts nothing |
| Populate.InsertionOrder | Inventory_Management/property_management/management/commands/populate_location_data.py:27-68 | every added id names a stored row, and ranked by those rows' types the added ids run countries, then states, then cities |
| Populate.RankedRun | Inventory_Management/property_management/management/commands/populate_location_data.py:27-68 | a run over items listed in type order stores its rows in that order |
| Populate.PopulateLocationData | Inventory_Management/property_management/management/commands/populate_location_data.py:9-68 | the three loops leave the table, the inserted ids and the error that `RunSeeds` gives, and change nothing outside the location table |
| Populate.InsertCountries | Inventory_Management/property_management/management/commands/populate_location_data.py:28-38 | the country loop is the run of the country items |
| Populate.InsertChildren | Inventory_Management/property_management/management/commands/populate_location_data.py:41-68 | a child loop continues the run by its items, or stops it at the first error |
| Populate.InsertChild | Inventory_Management/property_management/management/commands/populate_location_data.py:42-52 | one child item: the parent lookup, then the insert, matching `Step` |
| Partition.Route | Inventory_Management/property_management/migrations/0004_auto_partition_accommodation.py:43-60 | a feed has a partition exactly when it is at least 0, and that partition is the only one whose range holds it |
| Partition.RangesContiguous | Inventory_Management/property_management/migrations/0004_auto_partition_accommodation.py:46-60 | the ranges start at 0, each starts where the previous one ends, and the last runs to `MAXVALUE` |
| Partition.RangesDisjoint | Inventory_Management/property_management/migrations/0004_auto_partition_accommodation.py:46-60 | no feed lies in two partitions |
| Partition.BoundaryFeeds | Inventory_Management/property_management/migrations/0004_auto_partition_accommodation.py:46-60 | 500 and 501, 2000 and 2001, 5000 and 5001 fall on either side of each bound; 5000 goes to the third partition whatever the fourth's name says |
| Partition.NullColumn | Inventory_Management/property_management/migrations/0004_auto_partition_accommodation.py:27-34 | a row leaves no `NOT NULL` column empty exactly when it has a bedroom count, a rate and an owner |
| Partition.PartitionKeyLookup | Inventory_Management/property_management/migrations/0004_auto_partition_accommodation.py:39 | rows sharing a `(feed, id)` key share a partition, so one partition's index sees every clash |
| Partition.InsertRowEffect | Inventory_Management/property_management/migrations/0004_auto_partition_accommodation.py:64-69 | one row is inserted exactly when it is admissible and its key is new; the table stays routed and gains exactly that row |
| Partition.CopyPreservesRows | Inventory_Management/property_management/migrations/0004_auto_partition_accommodation.py:64-69 | a successful copy holds exactly the old rows, column for column and as many, each in the partition its feed routes to |
| Partition.CopySucceedsIff | Inventory_Management/property_management/migrations/0004_auto_partition_accommodation.py:22-69 | the copy succeeds exactly when every row has a feed of at least 0, a bedroom count, a rate and an owner, and no two rows share a `(feed, id)` key |
| Partition.CopyOfDistinctIds | Inventory_Management/property_management/migrations/0004_auto_partition_accommodation.py:39 | under the old key (distinct ids) the new key never clashes: only empty columns or negative feeds fail the copy |
| Partition.SameIdTwoFeeds | Inventory_Management/property_management/migrations/0004_auto_partition_accommodation.py:39 | the new key accepts one id under two feeds |
| Partition.NullColumnFailsCopy | Inventory_Management/property_management/migrations/0004_auto_partition_accommodation.py:27-34 | one row with an empty bedroom count, rate or owner fails the whole copy |
| Partition.DefaultAccommodationBlocksCopy | Inventory_Management/property_management/migrations/0004_auto_partition_accommodation.py:27 | an accommodation saved with its defaults would route to the first partition, but its empty bedroom count fails the copy |
| Partition.ForwardEffect | Inventory_Management/property_management/migrations/0004_auto_partition_accommodation.py:83-89 | the forward migration succeeds exactly when the new name is free, the table exists and its rows can be copied; then the table is partitioned with the same rows and nothing else changes |
| Partition.BackwardEffect | Inventory_Management/property_management/migrations/0004_auto_partition_accommodation.py:100-106 | the reverse migration leaves a plain table holding the same rows under the original name and changes nothing else |
| Partition.RoundTrip | Inventory_Management/property_management/migrations/0004_auto_partition_accommodation.py:91-109 | forward then back restores a plain table with the same rows, maybe in another order, and every other table as it was |
| Partition.Schema.Migrate | Inventory_Management/property_management/migrations/0004_auto_partition_accommodation.py:83-89 | create, copy, drop and rename, executed in turn, reach `Forward` of the old tables; a failure rolls the schema back |
| Partition.Schema.Unmigrate | Inventory_Management/property_management/migrations/0004_auto_partition_accommodation.py:100-109 | create-as-select, drop and rename reach `Backward` of the old tables; a failure rolls the schema back |

## Left out

- The owner branch of `Accommodation.save` (models.py:57-64) is not modelled.
  `get_user_model()` returns the user class, not the logged-in user. On the
  class, `is_authenticated` is a truthy property object and `is_superuser` is
  a truthy field descriptor, so the branch never assigns an owner. A save
  stores the row with the owner it carries.
- Timestamps (`created_at`, `updated_at`, `uploaded_at`) are not modelled: they
  come from the clock.
- Geography is not modelled: points are carried unchanged and no operation
  looks at them. `ST_SetSRID` and the geography casts are left out too.
- `max_length` limits are not modelled: strings are unbounded.
- SaveAccommodation: the precision checks of the two decimal fields are not
  modelled. `review_score` is `DECIMAL(3,1)` and `usd_rate` is
  `DECIMAL(10,2)`; a value with more integer digits than that is refused by
  the database, while the model stores any scaled integer. Likewise the
  `PositiveIntegerField` range of `bedroom_count` is not checked.
- `SMALLINT` and `PositiveSmallIntegerField` range checks on `feed` are not
  modelled. Feeds are unbounded integers, and a negative feed is the one that
  finds no partition.
- Writing `sitemap.json` and the command's success messages are I/O. The model
  returns the entry list and leaves out the JSON text. In that text, a country
  titled "states" or a state titled "cities" would collide with the list key of
  its own dictionary. The entry datatypes keep the two apart.
- Title order is the database collation. It is modelled as character-code
  order with ties broken by id. The database leaves the order of equal titles
  unspecified, and it may use a locale collation.
- The read-modify-write of `images` in `AccommodationImage.save` can also
  lose updates under concurrent saves. Concurrency is not modelled; the lost
  update through a stale instance within one process is
  (`Models.SeparateInstancesLoseUrl`).
- ImageUrl: `image.url` is the storage's URL for the stored name. The model
  takes `MEDIA_URL` to be `/media/` (the settings are not part of this model)
  and does no percent-encoding, so a name with a space or another reserved
  character gets a different URL from the storage.
- SaveImage: the stored file name is taken as given. The storage's clean-up of
  an uploaded name (spaces become '_', unsafe characters are dropped) and the
  suffix it adds on a name collision are not modelled.
- LowerChar: lower-casing is ASCII only. Python's `str.lower` also lower-cases
  non-ASCII letters, and a few of those change the length of the string.
- Forward: the migration also creates the four partition relations by name.
  The model does not add those names to the schema, so it does not fail when
  one of them is already taken.
- The migration's `user_id … ON DELETE CASCADE` (0004 line 42) contradicts
  models.py:47-48 (`SET_NULL`). Deletion follows models.py. The foreign-key
  checks of the copy are not modelled either: the old table's keys already
  guarantee them.
- PostgreSQL mechanics are not modelled: cursors, dropping the localization
  foreign-key constraint, `DROP … CASCADE`, `JSONB` and array storage.
  Within one row, routing is checked before `NOT NULL`, as PostgreSQL does.
  The model keeps only which error a failing row raises.
- `Partition.RoundTrip`: `SELECT *` on a partitioned table does not promise
  an order. The result is stated as the same multiset of rows, not the same
  sequence.
- `Partition.Schema.Unmigrate`: `CREATE TABLE … AS SELECT` copies the rows
  but not the keys or the `NOT NULL` constraints. The plain table is modelled
  as its rows only.
- Admin configuration, views, forms, URLs, the import-export resource and the
  owners-group command are framework configuration. They are not part of this
  model, and the admin defines no ownership-based permission rule to model.
