/**
 * The four record kinds of the property-management models, the pure helpers
 * attached to them (upload path, `__str__` labels, field defaults and the
 * image-URL append), and the whole database as
 * a value (`Tables`) together with its referential integrity and the transitions
 * that the ORM performs for creates, saves and deletes.
 */
module Models {
  import opened Wrappers
  import Text

  type LocId = string
  type AccId = string
  type UserId = nat
  type ImageId = nat
  type LocalizationId = nat

  /** A geographic centre, kept opaque: the model does no geometry. */
  datatype Point = Point(longitude: real, latitude: real)

  /** A JSON document (amenities, policy), kept as a flat key/value map. */
  type Document = map<string, string>

  datatype Location = Location(
    id: LocId,
    title: string,
    center: Point,
    parent: Option<LocId>,
    locationType: string,
    countryCode: string,
    stateAbbr: Option<string>,
    city: Option<string>)

  /** `reviewScore` is in tenths and `usdRate` in cents (the two decimal fields). */
  datatype Accommodation = Accommodation(
    id: AccId,
    feed: int,
    title: string,
    countryCode: string,
    bedroomCount: Option<nat>,
    reviewScore: int,
    usdRate: Option<int>,
    center: Point,
    images: Option<seq<string>>,
    location: LocId,
    amenities: Option<Document>,
    user: Option<UserId>,
    published: bool)

  /** `image` is the stored file name; the empty name is a missing (falsy) file. */
  datatype AccommodationImage = AccommodationImage(id: ImageId, accommodation: AccId, image: string)

  datatype LocalizeAccommodation = LocalizeAccommodation(
    id: LocalizationId,
    property: AccId,
    language: string,
    description: Option<string>,
    policy: Option<Document>)

  // ---------------------------------------------------------------- upload path

  const UploadDir := "accommodations/"

  /** `upload_accommodation_image`: where an uploaded image file is stored. */
  function UploadPath(accommodation: AccId, filename: string): (path: string)
    ensures |path| == |UploadDir| + |accommodation| + 1 + |filename|
    ensures path[..|UploadDir|] == UploadDir
    ensures path[|UploadDir|..|UploadDir| + |accommodation|] == accommodation
    ensures path[|UploadDir| + |accommodation|] == '/'
    ensures path[|path| - |filename|..] == filename
  {
    UploadDir + accommodation + "/" + filename
  }

  /** Reads an upload path back into the accommodation id and the file name. */
  function ParseUploadPath(path: string): Option<(AccId, string)>
  {
    if |path| < |UploadDir| || path[..|UploadDir|] != UploadDir then None
    else
      var rest := path[|UploadDir|..];
      match Text.IndexOf(rest, '/')
      case None => None
      case Some(k) => Some((rest[..k], rest[k + 1..]))
  }

  /** For ids without '/', the upload path determines the accommodation and the file name. */
  lemma UploadPathRoundTrip(accommodation: AccId, filename: string)
    requires '/' !in accommodation
    ensures ParseUploadPath(UploadPath(accommodation, filename)) == Some((accommodation, filename))
  {
    var path := UploadPath(accommodation, filename);
    var rest := path[|UploadDir|..];
    assert rest == accommodation + "/" + filename;
    Text.IndexOfAfterPrefix(accommodation, '/', filename);
    assert rest[..|accommodation|] == accommodation;
    assert rest[|accommodation| + 1..] == filename;
  }

  /** Every path that parses is the upload path of what it parses to, with a '/'-free id. */
  lemma ParseUploadPathSound(path: string)
    requires ParseUploadPath(path).Some?
    ensures var (accommodation, filename) := ParseUploadPath(path).value;
      '/' !in accommodation && UploadPath(accommodation, filename) == path
  {
    var rest := path[|UploadDir|..];
    var k := Text.IndexOf(rest, '/').value;
    assert rest == rest[..k] + "/" + rest[k + 1..];
    assert path == path[..|UploadDir|] + rest;
  }

  /** With a '/' inside an id, two different (id, file) pairs share a path. */
  lemma UploadPathAmbiguousWithSlash()
    ensures UploadPath("a/b", "c") == UploadPath("a", "b/c")
  {
  }

  // ---------------------------------------------------------------- labels

  /** `Location.__str__`. */
  function LocationLabel(l: Location): (r: string)
    ensures r == l.title
  {
    l.title
  }

  /** `Accommodation.__str__`. */
  function AccommodationLabel(a: Accommodation): (r: string)
    ensures r == a.title
  {
    a.title
  }

  const ImagePrefix := "Image for "

  /** `AccommodationImage.__str__`, given the parent accommodation. */
  function ImageLabel(accommodation: Accommodation): (r: string)
    ensures |r| == |ImagePrefix| + |accommodation.title|
    ensures r[..|ImagePrefix|] == ImagePrefix && r[|ImagePrefix|..] == accommodation.title
  {
    ImagePrefix + accommodation.title
  }

  const LocalizationPrefix := "Localization for "

  /** `LocalizeAccommodation.__str__`, given the localized accommodation. */
  function LocalizationLabel(accommodation: Accommodation, l: LocalizeAccommodation): (r: string)
    ensures |r| == |LocalizationPrefix| + |accommodation.title| + |l.language| + 3
    ensures r[..|LocalizationPrefix|] == LocalizationPrefix
    ensures r[|LocalizationPrefix|..|LocalizationPrefix| + |accommodation.title|] == accommodation.title
    ensures r[|LocalizationPrefix| + |accommodation.title|..|LocalizationPrefix| + |accommodation.title| + 2] == " ("
    ensures r[|r| - |l.language| - 1..|r| - 1] == l.language
    ensures r[|r| - 1] == ')'
  {
    LocalizationPrefix + accommodation.title + " (" + l.language + ")"
  }

  /** Languages have two letters, so a localization label determines title and language. */
  lemma LocalizationLabelInjective(a1: Accommodation, l1: LocalizeAccommodation,
                                   a2: Accommodation, l2: LocalizeAccommodation)
    requires |l1.language| == 2 && |l2.language| == 2
    requires LocalizationLabel(a1, l1) == LocalizationLabel(a2, l2)
    ensures a1.title == a2.title && l1.language == l2.language
  {
    var r := LocalizationLabel(a1, l1);
    assert |a1.title| == |a2.title|;
    assert a1.title == r[|LocalizationPrefix|..|LocalizationPrefix| + |a1.title|];
  }

  // ---------------------------------------------------------------- defaults

  /**
   * `Accommodation(id=…, title=…, country_code=…, center=…, location=…)`: an
   * accommodation given only its required fields; every other field takes its
   * declared default.
   */
  function NewAccommodation(id: AccId, title: string, countryCode: string, center: Point,
                            location: LocId): (a: Accommodation)
    ensures a.id == id && a.title == title && a.countryCode == countryCode
    ensures a.center == center && a.location == location
    ensures a.feed == 0 && a.reviewScore == 0 && a.images == Some([]) && !a.published
    ensures a.bedroomCount == None && a.usdRate == None && a.amenities == None && a.user == None
  {
    Accommodation(id, 0, title, countryCode, None, 0, None, center, Some([]), location, None, None, false)
  }

  // ---------------------------------------------------------------- image sync

  /** The media URL prefix under which stored files are served. */
  const MediaUrl := "/media/"

  /** The served URL of a stored image file. */
  function ImageUrl(name: string): (url: string)
    ensures |url| == |MediaUrl| + |name|
    ensures url[..|MediaUrl|] == MediaUrl && url[|MediaUrl|..] == name
  {
    MediaUrl + name
  }

  /** The list an accommodation's `images` stands for, with `None` read as empty. */
  function Existing(images: Option<seq<string>>): seq<string>
  {
    if images.None? then [] else images.value
  }

  /** `images` after `AccommodationImage.save`: initialised to `[]` if `None`, then `url` appended. */
  function SyncedImages(images: Option<seq<string>>, url: string): (r: seq<string>)
    ensures |r| == |Existing(images)| + 1
    ensures r[..|r| - 1] == Existing(images)
    ensures r[|r| - 1] == url
  {
    Existing(images) + [url]
  }

  /** Attaching to an empty or unset list gives one element; a second attachment keeps the first. */
  lemma {:induction false} FirstAndSecondImage(images: Option<seq<string>>, u1: string, u2: string)
    requires Existing(images) == []
    ensures SyncedImages(images, u1) == [u1]
    ensures SyncedImages(Some(SyncedImages(images, u1)), u2) == [u1, u2]
  {
    var once := SyncedImages(images, u1);
    assert once == [u1];
  }

  /** Re-saving appends the URL again: there is no de-duplication, so the sync is not idempotent. */
  lemma {:induction false} ResaveAppendsAgain(images: Option<seq<string>>, url: string)
    ensures var twice := SyncedImages(Some(SyncedImages(images, url)), url);
      |twice| == |Existing(images)| + 2 && twice[..|Existing(images)|] == Existing(images)
      && twice[|twice| - 2] == url && twice[|twice| - 1] == url
    ensures SyncedImages(Some(SyncedImages(images, url)), url) != SyncedImages(images, url)
  {
    var once := SyncedImages(images, url);
    var twice := SyncedImages(Some(once), url);
    assert twice[..|once|] == once;
    assert twice[..|Existing(images)|] == once[..|Existing(images)|];
  }

  // ---------------------------------------------------------------- the database

  datatype Tables = Tables(
    locations: map<LocId, Location>,
    accommodations: map<AccId, Accommodation>,
    images: map<ImageId, AccommodationImage>,
    localizations: map<LocalizationId, LocalizeAccommodation>,
    users: set<UserId>)

  const EmptyTables := Tables(map[], map[], map[], map[], {})

  /**
   * Each row is stored under its own key, every foreign key names a present
   * row, and no stored accommodation has a NULL `images`.
   */
  ghost predicate Integrity(t: Tables)
  {
    && (forall k :: k in t.locations ==> t.locations[k].id == k)
    && (forall k :: k in t.locations && t.locations[k].parent.Some? ==> t.locations[k].parent.value in t.locations)
    && (forall k :: k in t.accommodations ==> t.accommodations[k].id == k)
    && (forall k :: k in t.accommodations ==> t.accommodations[k].location in t.locations && t.accommodations[k].images.Some?)
    && (forall k :: k in t.accommodations && t.accommodations[k].user.Some? ==> t.accommodations[k].user.value in t.users)
    && (forall k :: k in t.images ==> t.images[k].id == k && t.images[k].accommodation in t.accommodations)
    && (forall k :: k in t.localizations ==> t.localizations[k].id == k && t.localizations[k].property in t.accommodations)
  }

  datatype DbError = DoesNotExist(key: string) | IntegrityError(key: string)

  /** `Location.objects.create(...)`: a new row, refused on a taken key or a missing parent. */
  function CreateLocation(t: Tables, l: Location): Result<Tables, DbError>
  {
    if l.id in t.locations then Failure(IntegrityError(l.id))
    else if l.parent.Some? && l.parent.value !in t.locations then Failure(IntegrityError(l.parent.value))
    else Success(t.(locations := t.locations[l.id := l]))
  }

  /**
   * `Accommodation.save`: an insert-or-update of the row, refused when its
   * `images` is NULL (the column is `NOT NULL`, checked by the statement
   * itself) and then when its location or its owner is missing (foreign keys,
   * checked at commit). The owner is stored as given: the save's
   * current-user branch never assigns one.
   */
  function SaveAccommodation(t: Tables, a: Accommodation): Result<Tables, DbError>
  {
    if a.images.None? then Failure(IntegrityError("images"))
    else if a.location !in t.locations then Failure(IntegrityError(a.location))
    else if a.user.Some? && a.user.value !in t.users then Failure(IntegrityError(a.id))
    else Success(t.(accommodations := t.accommodations[a.id := a]))
  }

  /**
   * `AccommodationImage.save`: store the image row, then append its URL to
   * `parent`, the in-memory `self.accommodation` instance, and save that
   * instance with every field it holds. The instance may be older than the
   * stored row; whatever it holds is written back. Each save commits on its
   * own, so a refused parent save leaves the image row stored.
   */
  function SaveImage(t: Tables, img: AccommodationImage, parent: Accommodation): (Tables, Option<DbError>)
    requires parent.id == img.accommodation
  {
    if img.accommodation !in t.accommodations then (t, Some(IntegrityError(img.accommodation)))
    else
      var stored := t.(images := t.images[img.id := img]);
      if img.image == [] then (stored, None)
      else match SaveAccommodation(stored, SyncedParent(parent, img))
        case Success(t') => (t', None)
        case Failure(e) => (stored, Some(e))
  }

  /** The parent instance once the save has reached the sync: its list extended when the image has a file. */
  function SyncedParent(parent: Accommodation, img: AccommodationImage): Accommodation
  {
    if img.image == [] then parent
    else parent.(images := Some(SyncedImages(parent.images, ImageUrl(img.image))))
  }

  /** Removing an accommodation cascades to its images and its localizations. */
  function DeleteAccommodation(t: Tables, id: AccId): Tables
  {
    t.(accommodations := map k | k in t.accommodations && k != id :: t.accommodations[k],
       images := map k | k in t.images && t.images[k].accommodation != id :: t.images[k],
       localizations := map k | k in t.localizations && t.localizations[k].property != id :: t.localizations[k])
  }

  /** The child's parent link after its parent `id` is deleted. */
  function Orphaned(l: Location, id: LocId): Location
  {
    if l.parent == Some(id) then l.(parent := None) else l
  }

  /** The accommodations at a location. */
  function AccommodationsAt(t: Tables, id: LocId): set<AccId>
  {
    set k | k in t.accommodations && t.accommodations[k].location == id
  }

  /**
   * Removing a location: its children lose their parent link (SET_NULL), its
   * accommodations are removed (CASCADE) and with them their images and
   * localizations (CASCADE).
   */
  function DeleteLocation(t: Tables, id: LocId): Tables
  {
    var doomed := AccommodationsAt(t, id);
    Tables(
      map k | k in t.locations && k != id :: Orphaned(t.locations[k], id),
      map k | k in t.accommodations && k !in doomed :: t.accommodations[k],
      map k | k in t.images && t.images[k].accommodation !in doomed :: t.images[k],
      map k | k in t.localizations && t.localizations[k].property !in doomed :: t.localizations[k],
      t.users)
  }

  /** Removing a user: their accommodations lose their owner (SET_NULL); nothing else is removed. */
  function DeleteUser(t: Tables, u: UserId): Tables
  {
    t.(accommodations := map k | k in t.accommodations ::
         if t.accommodations[k].user == Some(u) then t.accommodations[k].(user := None) else t.accommodations[k],
       users := t.users - {u})
  }

  // ---------------------------------------------------------------- lemmas on the transitions

  lemma CreateLocationKeepsIntegrity(t: Tables, l: Location)
    requires Integrity(t)
    ensures CreateLocation(t, l).Success? ==> Integrity(CreateLocation(t, l).value)
  {
  }

  /**
   * A save succeeds exactly when `images` is set and the location and the
   * owner (if any) exist;
   * it then stores the row as given, owner included, keeps integrity and
   * leaves every other row alone.
   */
  lemma SaveAccommodationEffect(t: Tables, a: Accommodation)
    requires Integrity(t)
    ensures SaveAccommodation(t, a).Success? <==>
      a.images.Some? && a.location in t.locations && (a.user.Some? ==> a.user.value in t.users)
    ensures SaveAccommodation(t, a).Success? ==>
      var t' := SaveAccommodation(t, a).value;
      && Integrity(t')
      && a.id in t'.accommodations
      && t'.accommodations[a.id] == a
      && t'.locations == t.locations && t'.images == t.images && t'.localizations == t.localizations
      && t'.users == t.users
      && t'.accommodations.Keys == t.accommodations.Keys + {a.id}
      && (forall k :: k in t.accommodations && k != a.id ==> k in t'.accommodations && t'.accommodations[k] == t.accommodations[k])
  {
  }

  /**
   * Saving an image on a present accommodation stores the image row. With a
   * file, it then writes the parent instance back with exactly one URL, the
   * media URL of the file, appended to the instance's list; that save is
   * refused only when the instance names a missing location or owner. No
   * other row changes.
   */
  lemma SaveImageAppendsOnce(t: Tables, img: AccommodationImage, parent: Accommodation)
    requires Integrity(t)
    requires parent.id == img.accommodation && img.accommodation in t.accommodations
    ensures SaveImage(t, img, parent).1.None? <==>
      img.image == [] || (parent.location in t.locations && (parent.user.Some? ==> parent.user.value in t.users))
    ensures SaveImage(t, img, parent).1.Some? ==>
      SaveImage(t, img, parent).0 == t.(images := t.images[img.id := img])
    ensures var t' := SaveImage(t, img, parent).0;
      && Integrity(t')
      && t'.images == t.images[img.id := img]
      && t'.locations == t.locations && t'.localizations == t.localizations && t'.users == t.users
    ensures SaveImage(t, img, parent).1.None? ==>
      var t' := SaveImage(t, img, parent).0;
      && t'.accommodations == (if img.image == [] then t.accommodations else
           t.accommodations[img.accommodation := parent.(images := Some(Existing(parent.images) + [MediaUrl + img.image]))])
  {
    var stored := t.(images := t.images[img.id := img]);
    assert Integrity(stored);
    if img.image != [] {
      SaveAccommodationEffect(stored, SyncedParent(parent, img));
    }
  }

  /**
   * Through an instance that matches the stored row, a save with a file keeps
   * every field of the accommodation and appends the URL to its list.
   */
  lemma FreshParentAppends(t: Tables, img: AccommodationImage)
    requires Integrity(t)
    requires img.accommodation in t.accommodations
    ensures var before := t.accommodations[img.accommodation];
      && SaveImage(t, img, before).1 == None
      && SaveImage(t, img, before).0.accommodations[img.accommodation] ==
           (if img.image == [] then before else before.(images := Some(Existing(before.images) + [MediaUrl + img.image])))
  {
    SaveImageAppendsOnce(t, img, t.accommodations[img.accommodation]);
  }

  /**
   * Two images saved through one shared instance: the instance carries the
   * first URL into the second save, so the row lists both, in save order.
   */
  lemma SharedInstanceKeepsBoth(t: Tables, img1: AccommodationImage, img2: AccommodationImage)
    requires Integrity(t)
    requires img1.accommodation in t.accommodations && img2.accommodation == img1.accommodation
    requires img1.image != [] && img2.image != []
    ensures var p := t.accommodations[img1.accommodation];
      var first := SaveImage(t, img1, p);
      && first.1 == None
      && SaveImage(first.0, img2, SyncedParent(p, img1)).1 == None
      && SaveImage(first.0, img2, SyncedParent(p, img1)).0.accommodations[img1.accommodation].images
           == Some(Existing(p.images) + [ImageUrl(img1.image), ImageUrl(img2.image)])
  {
    var p := t.accommodations[img1.accommodation];
    SaveImageAppendsOnce(t, img1, p);
    var t1 := SaveImage(t, img1, p).0;
    var p1 := SyncedParent(p, img1);
    SaveImageAppendsOnce(t1, img2, p1);
    assert Existing(p1.images) + [MediaUrl + img2.image] ==
      Existing(p.images) + [ImageUrl(img1.image), ImageUrl(img2.image)];
  }

  /**
   * Two images saved through two instances loaded before either save: the
   * second writes back its stale list, and the first URL is lost.
   */
  lemma SeparateInstancesLoseUrl(t: Tables, img1: AccommodationImage, img2: AccommodationImage)
    requires Integrity(t)
    requires img1.accommodation in t.accommodations && img2.accommodation == img1.accommodation
    requires img1.image != [] && img2.image != []
    ensures var p := t.accommodations[img1.accommodation];
      var first := SaveImage(t, img1, p);
      && first.1 == None
      && SaveImage(first.0, img2, p).1 == None
      && SaveImage(first.0, img2, p).0.accommodations[img1.accommodation].images
           == Some(Existing(p.images) + [ImageUrl(img2.image)])
  {
    var p := t.accommodations[img1.accommodation];
    SaveImageAppendsOnce(t, img1, p);
    var t1 := SaveImage(t, img1, p).0;
    SaveImageAppendsOnce(t1, img2, p);
  }

  /** Saving an image on a missing accommodation is refused and changes nothing. */
  lemma SaveImageMissingAccommodation(t: Tables, img: AccommodationImage, parent: Accommodation)
    requires Integrity(t)
    requires parent.id == img.accommodation && img.accommodation !in t.accommodations
    ensures SaveImage(t, img, parent) == (t, Some(IntegrityError(img.accommodation)))
  {
  }

  /** Deleting an accommodation removes it with its images and localizations, and nothing else. */
  lemma DeleteAccommodationEffect(t: Tables, id: AccId)
    requires Integrity(t)
    ensures var t' := DeleteAccommodation(t, id);
      && Integrity(t')
      && t'.accommodations.Keys == t.accommodations.Keys - {id}
      && (forall k :: k in t'.accommodations ==> t'.accommodations[k] == t.accommodations[k])
      && (forall k :: k in t.images ==> (k in t'.images <==> t.images[k].accommodation != id))
      && (forall k :: k in t'.images ==> k in t.images && t'.images[k] == t.images[k])
      && (forall k :: k in t.localizations ==> (k in t'.localizations <==> t.localizations[k].property != id))
      && (forall k :: k in t'.localizations ==> k in t.localizations && t'.localizations[k] == t.localizations[k])
      && t'.locations == t.locations && t'.users == t.users
  {
  }

  lemma DeleteAccommodationKeepsIntegrity(t: Tables, id: AccId)
    requires Integrity(t)
    ensures Integrity(DeleteAccommodation(t, id))
  {
  }

  /**
   * Deleting a location: its children stay with their parent cleared, every
   * other location is untouched, its accommodations are gone and so are their
   * images and localizations; all other rows stay as they were.
   */
  lemma DeleteLocationEffect(t: Tables, id: LocId)
    requires Integrity(t)
    ensures var t' := DeleteLocation(t, id);
      && Integrity(t')
      && t'.locations.Keys == t.locations.Keys - {id}
      && (forall k :: k in t.locations && k != id && t.locations[k].parent == Some(id) ==>
            t'.locations[k] == t.locations[k].(parent := None))
      && (forall k :: k in t.locations && k != id && t.locations[k].parent != Some(id) ==>
            t'.locations[k] == t.locations[k])
      && (forall k :: k in t.accommodations ==>
            (k in t'.accommodations <==> t.accommodations[k].location != id))
      && (forall k :: k in t'.accommodations ==> k in t.accommodations && t'.accommodations[k] == t.accommodations[k])
      && (forall k :: k in t.images ==>
            (k in t'.images <==> t.images[k].accommodation in t'.accommodations))
      && (forall k :: k in t'.images ==> k in t.images && t'.images[k] == t.images[k])
      && (forall k :: k in t.localizations ==>
            (k in t'.localizations <==> t.localizations[k].property in t'.accommodations))
      && (forall k :: k in t'.localizations ==> k in t.localizations && t'.localizations[k] == t.localizations[k])
      && t'.users == t.users
  {
    DeleteLocationKeepsIntegrity(t, id);
  }

  lemma DeleteLocationKeepsIntegrity(t: Tables, id: LocId)
    requires Integrity(t)
    ensures Integrity(DeleteLocation(t, id))
  {
    var t' := DeleteLocation(t, id);
    forall k | k in t'.locations && t'.locations[k].parent.Some?
      ensures t'.locations[k].parent.value in t'.locations
    {
      assert t.locations[k].parent.Some? && t.locations[k].parent.value != id;
    }
  }

  /** Deleting a user clears ownership of that user's accommodations and removes no row. */
  lemma DeleteUserEffect(t: Tables, u: UserId)
    requires Integrity(t)
    ensures var t' := DeleteUser(t, u);
      && Integrity(t')
      && t'.accommodations.Keys == t.accommodations.Keys
      && (forall k :: k in t.accommodations ==>
            t'.accommodations[k] == (if t.accommodations[k].user == Some(u) then t.accommodations[k].(user := None) else t.accommodations[k]))
      && t'.locations == t.locations && t'.images == t.images && t'.localizations == t.localizations
      && t'.users == t.users - {u}
  {
  }
}
