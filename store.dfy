/**
 * The database the ORM gives the models: one table per record kind, updated in
 * place. Each write method is proved against the `Models` transition of the
 * whole database and keeps its referential integrity; the query method
 * returns what `Query.OrderedIds` specifies.
 */
module Store {
  import opened Wrappers
  import opened Models
  import opened Query

  class Database {
    var locations: map<LocId, Location>
    var accommodations: map<AccId, Accommodation>
    var images: map<ImageId, AccommodationImage>
    var localizations: map<LocalizationId, LocalizeAccommodation>
    var users: set<UserId>

    ghost function State(): Tables
      reads this
    {
      Tables(locations, accommodations, images, localizations, users)
    }

    ghost predicate Valid()
      reads this
    {
      Integrity(State())
    }

    /** A database with no rows, beside an existing set of users. */
    constructor (existingUsers: set<UserId>)
      ensures Valid()
      ensures State() == EmptyTables.(users := existingUsers)
    {
      locations, accommodations, images, localizations := map[], map[], map[], map[];
      users := existingUsers;
    }

    /** `Location.objects.get(id=…)`: the row, or `DoesNotExist`. */
    method GetLocation(id: LocId) returns (r: Result<Location, DbError>)
      ensures id in locations ==> r == Success(locations[id])
      ensures id !in locations ==> r == Failure(DoesNotExist(id))
    {
      if id in locations {
        r := Success(locations[id]);
      } else {
        r := Failure(DoesNotExist(id));
      }
    }

    /** `Location.objects.filter(f).order_by("title")`: the ids of the matching rows in title order. */
    method FilterOrderedByTitle(f: Filter) returns (ids: seq<LocId>)
      ensures ids == OrderedIds(locations, f)
    {
      ids := [];
      var pending := locations.Keys;
      while pending != {}
        invariant pending <= locations.Keys
        invariant StrictlySorted(locations, ids)
        invariant forall y :: y in ids <==> y in locations && y !in pending && Matches(f, locations[y])
        decreases pending
      {
        var k :| k in pending;
        pending := pending - {k};
        if Matches(f, locations[k]) {
          ids := Insert(locations, ids, k);
        }
      }
      SortedUnique(locations, ids, OrderedIds(locations, f));
    }

    /** `Location.objects.create(…)`. */
    method CreateLocation(l: Location) returns (err: Option<DbError>)
      requires Valid()
      modifies this
      ensures Valid()
      ensures match Models.CreateLocation(old(State()), l)
        case Success(t) => err == None && State() == t
        case Failure(e) => err == Some(e) && State() == old(State())
    {
      if l.id in locations {
        return Some(IntegrityError(l.id));
      }
      if l.parent.Some? && l.parent.value !in locations {
        return Some(IntegrityError(l.parent.value));
      }
      locations := locations[l.id := l];
      err := None;
    }

    /** `Accommodation.save()`: refused on a NULL `images` or a missing location or owner; otherwise the row is stored with the owner it carries. */
    method SaveAccommodation(a: Accommodation) returns (err: Option<DbError>)
      requires Valid()
      modifies this
      ensures Valid()
      ensures match Models.SaveAccommodation(old(State()), a)
        case Success(t) => err == None && State() == t
        case Failure(e) => err == Some(e) && State() == old(State())
    {
      if a.images.None? {
        return Some(IntegrityError("images"));
      }
      if a.location !in locations {
        return Some(IntegrityError(a.location));
      }
      if a.user.Some? && a.user.value !in users {
        return Some(IntegrityError(a.id));
      }
      accommodations := accommodations[a.id := a];
      err := None;
      SaveAccommodationEffect(old(State()), a);
    }

    /**
     * `AccommodationImage.save()`: store the row, then sync the `images` of
     * `parent`, the in-memory instance the image points at, and save that
     * instance. `instance` is that object afterwards: the caller's next save
     * through it sees the appended URL.
     */
    method SaveImage(img: AccommodationImage, parent: Accommodation) returns (err: Option<DbError>, instance: Accommodation)
      requires Valid()
      requires parent.id == img.accommodation
      modifies this
      ensures Valid()
      ensures (State(), err) == Models.SaveImage(old(State()), img, parent)
      ensures instance == if img.accommodation in old(accommodations) then SyncedParent(parent, img) else parent
    {
      instance := parent;
      if img.accommodation !in accommodations {
        return Some(IntegrityError(img.accommodation)), instance;
      }
      images := images[img.id := img];
      err := None;
      if img.image != [] {
        if instance.images == None {
          instance := instance.(images := Some([]));
        }
        instance := instance.(images := Some(instance.images.value + [ImageUrl(img.image)]));
        err := SaveAccommodation(instance);
      }
    }

    /** Deleting an accommodation: its images and localizations go with it. */
    method DeleteAccommodation(id: AccId)
      requires Valid()
      modifies this
      ensures Valid()
      ensures State() == Models.DeleteAccommodation(old(State()), id)
    {
      ghost var target := Models.DeleteAccommodation(State(), id);
      DeleteAccommodationKeepsIntegrity(State(), id);
      images := map k | k in images && images[k].accommodation != id :: images[k];
      assert images == target.images;
      localizations := map k | k in localizations && localizations[k].property != id :: localizations[k];
      assert localizations == target.localizations;
      accommodations := map k | k in accommodations && k != id :: accommodations[k];
      assert accommodations == target.accommodations;
      assert State() == target;
    }

    /**
     * Deleting a location: the dependants of the cascaded accommodations
     * first, then the children's parent links are cleared, then the
     * accommodations and the row itself are removed.
     */
    method DeleteLocation(id: LocId)
      requires Valid()
      modifies this
      ensures Valid()
      ensures State() == Models.DeleteLocation(old(State()), id)
    {
      ghost var before := State();
      DeleteLocationKeepsIntegrity(before, id);
      CollectorOrder(before, id);
      var doomed := set k | k in accommodations && accommodations[k].location == id;
      images := map k | k in images && images[k].accommodation !in doomed :: images[k];
      localizations := map k | k in localizations && localizations[k].property !in doomed :: localizations[k];
      locations := map k | k in locations :: Orphaned(locations[k], id);
      accommodations := map k | k in accommodations && k !in doomed :: accommodations[k];
      locations := map k | k in locations && k != id :: locations[k];
      assert State() == Models.DeleteLocation(before, id);
    }

    /** Deleting a user: ownership of that user's accommodations is cleared. */
    method DeleteUser(u: UserId)
      requires Valid()
      modifies this
      ensures Valid()
      ensures State() == Models.DeleteUser(old(State()), u)
    {
      accommodations := map k | k in accommodations ::
        if accommodations[k].user == Some(u) then accommodations[k].(user := None) else accommodations[k];
      users := users - {u};
      DeleteUserEffect(old(State()), u);
    }
  }

  /** The collector's step-by-step deletion of a location ends in `Models.DeleteLocation`. */
  lemma CollectorOrder(t: Tables, id: LocId)
    ensures var doomed := set k | k in t.accommodations && t.accommodations[k].location == id;
      var orphaned := map k | k in t.locations :: Orphaned(t.locations[k], id);
      DeleteLocation(t, id) == Tables(
        map k | k in orphaned && k != id :: orphaned[k],
        map k | k in t.accommodations && k !in doomed :: t.accommodations[k],
        map k | k in t.images && t.images[k].accommodation !in doomed :: t.images[k],
        map k | k in t.localizations && t.localizations[k].property !in doomed :: t.localizations[k],
        t.users)
  {
    var orphaned := map k | k in t.locations :: Orphaned(t.locations[k], id);
    assert (map k | k in orphaned && k != id :: orphaned[k]) == DeleteLocation(t, id).locations;
  }
}
