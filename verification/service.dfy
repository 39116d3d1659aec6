/** `EventsService`: the in-memory store of events and its create, read,
    update and delete operations. The store is a sequence in insertion order;
    each operation takes the store and returns the new one. The generated id
    and the current time are parameters. File deletions an operation asks
    for are returned as the URLs handed to `deleteFile`, in call order. */
module EventsService {
  import opened Wrappers
  import opened Text
  import opened Seqs
  import opened Runtime
  import opened Entities
  import opened Validation
  import opened Paths
  import opened FileUploads

  /** The exceptions the service raises, by the HTTP status Nest answers with. */
  datatype HttpError = NotFound(message: string) | InternalServerError(message: string)

  function NotFoundMessage(id: string): string {
    "Event with ID \"" + id + "\" not found"
  }

  const InvertedTimesMessage: string := "Start time must be before end time"

  /** `findIndex(event => event.id === id)`, with `None` for `-1`. */
  function FindIndex(store: seq<Event>, id: string): (r: Option<nat>)
    ensures r.None? <==> id !in Ids(store)
    ensures r.Some? ==> r.value < |store| && store[r.value].id == id
    ensures r.Some? ==> forall j :: 0 <= j < r.value ==> store[j].id != id
    decreases |store|
  {
    if |store| == 0 then None
    else if store[0].id == id then Some(0)
    else match FindIndex(store[1..], id)
      case None => None
      case Some(k) => Some(k + 1)
  }

  /** `create(dto)`: the DTO's properties under a fresh id, both timestamps
      set to `now`, appended to the store. Nothing is checked. */
  function Create(store: seq<Event>, dto: CreateEventDto, id: string, now: string): (r: (seq<Event>, Event))
    ensures r.0 == store + [r.1]
    ensures r.1.id == id && r.1.createdAt == now && r.1.updatedAt == now
    ensures r.1.title == dto.title && r.1.description == dto.description
    ensures r.1.startTime == dto.startTime && r.1.endTime == dto.endTime
    ensures r.1.imageURL == dto.imageURL && r.1.videoURL == dto.videoURL
  {
    var ev := Event(id, dto.title, dto.description, dto.startTime, dto.endTime,
                    dto.imageURL, dto.videoURL, now, now);
    (store + [ev], ev)
  }

  /** `findOne(id)`: the first event with that id, or 404. */
  function FindOne(store: seq<Event>, id: string): (r: Result<Event, HttpError>)
    ensures r.Success? <==> id in Ids(store)
    ensures r.Success? ==> r.value in store && r.value.id == id
    ensures r.Failure? ==> r.error == NotFound(NotFoundMessage(id))
  {
    match FindIndex(store, id)
    case None => Failure(NotFound(NotFoundMessage(id)))
    case Some(i) => Success(store[i])
  }

  /** The string `tryDeleteFile` looks for before deleting anything. */
  const HostedMarker: string := "localhost:3000/uploads/"

  /** `tryDeleteFile(url)` deletes only a truthy URL that includes the marker. */
  predicate IsHostedHere(url: Option<string>) {
    Truthy(url) && Contains(url.value, HostedMarker)
  }

  /** The `deleteFile` calls `tryDeleteFile(url)` makes: none or one. */
  function TryDeleteFile(url: Option<string>): seq<string> {
    if IsHostedHere(url) then [url.value] else []
  }

  /** The `update` rule for one media field: when the DTO carries a truthy
      URL that differs from the stored one, the stored one is offered to
      `tryDeleteFile`. */
  function ReplacedMedia(stored: Option<string>, patch: Patch<Option<string>>): seq<string> {
    if patch.Put? && Truthy(patch.value) && stored != patch.value then TryDeleteFile(stored) else []
  }

  /** `{ ...existing, ...dto, updatedAt: now }`. */
  function Merge(existing: Event, dto: UpdateEventDto, now: string): Event {
    existing.(
      title := dto.title.Apply(existing.title),
      description := dto.description.Apply(existing.description),
      startTime := dto.startTime.Apply(existing.startTime),
      endTime := dto.endTime.Apply(existing.endTime),
      imageURL := dto.imageURL.Apply(existing.imageURL),
      videoURL := dto.videoURL.Apply(existing.videoURL),
      updatedAt := now)
  }

  /** What a successful `update` leaves behind. */
  datatype Updated = Updated(store: seq<Event>, event: Event, deletions: seq<string>)

  /** `update(id, dto)`: 404 for an unknown id; a plain `Error` (answered
      with 500) when the merged start is not before the merged end; otherwise
      the merged event replaces the stored one in place, after the replaced
      media files are offered for deletion. */
  function Update(p: Platform, store: seq<Event>, id: string, dto: UpdateEventDto, now: string)
    : (r: Result<Updated, HttpError>)
    ensures id !in Ids(store) ==> r == Failure(NotFound(NotFoundMessage(id)))
    ensures id in Ids(store) ==>
      var i := FindIndex(store, id).value;
      var old_ := store[i];
      var m := Merge(old_, dto, now);
      if DateGe(p.parseDate(m.startTime), p.parseDate(m.endTime)) then
        r == Failure(InternalServerError(InvertedTimesMessage))
      else
        && r.Success?
        && r.value.event == m
        && |r.value.store| == |store|
        && r.value.store[i] == m
        && (forall j :: 0 <= j < |store| && j != i ==> r.value.store[j] == store[j])
        && r.value.deletions == ReplacedMedia(old_.imageURL, dto.imageURL) + ReplacedMedia(old_.videoURL, dto.videoURL)
  {
    match FindIndex(store, id)
    case None => Failure(NotFound(NotFoundMessage(id)))
    case Some(i) =>
      var existing := store[i];
      var updated := Merge(existing, dto, now);
      if DateGe(p.parseDate(updated.startTime), p.parseDate(updated.endTime)) then
        Failure(InternalServerError(InvertedTimesMessage))
      else
        var deletions := ReplacedMedia(existing.imageURL, dto.imageURL)
                       + ReplacedMedia(existing.videoURL, dto.videoURL);
        Success(Updated(store[i := updated], updated, deletions))
  }

  /** `new Date(v)` on a merged time that may be `null`, as the update pipe
      as written lets through: `new Date(null)` is the epoch. */
  function MergedDate(p: Platform, v: Option<string>): Option<int> {
    if v.None? then Some(0) else p.parseDate(v.value)
  }

  /** The ordering check of `update` on merged times that may be `null`. */
  predicate InvertedAsWritten(p: Platform, start: Option<string>, end: Option<string>) {
    DateGe(MergedDate(p, start), MergedDate(p, end))
  }

  /** `remove(id)`: 404 for an unknown id; otherwise both media URLs are
      offered for deletion and the event is spliced out. */
  function Remove(store: seq<Event>, id: string): (r: Result<(seq<Event>, seq<string>), HttpError>)
    ensures id !in Ids(store) ==> r == Failure(NotFound(NotFoundMessage(id)))
    ensures id in Ids(store) ==>
      var i := FindIndex(store, id).value;
      && r.Success?
      && r.value.0 == store[..i] + store[i + 1..]
      && r.value.1 == TryDeleteFile(store[i].imageURL) + TryDeleteFile(store[i].videoURL)
  {
    match FindIndex(store, id)
    case None => Failure(NotFound(NotFoundMessage(id)))
    case Some(i) =>
      var ev := store[i];
      Success((store[..i] + store[i + 1..], TryDeleteFile(ev.imageURL) + TryDeleteFile(ev.videoURL)))
  }

  /** The uploads directory after the `deleteFile` calls for `urls`, in order. */
  function ApplyDeletions(files: set<string>, urls: seq<string>): (r: set<string>)
    ensures r <= files
    ensures forall u :: u in urls ==> Basename(u) !in r
    ensures forall f :: f in files && (forall u :: u in urls ==> Basename(u) != f) ==> f in r
    decreases |urls|
  {
    if |urls| == 0 then files
    else ApplyDeletions(DeleteFile(files, urls[0]).0, urls[1..])
  }

  // ----- properties -----

  /** A fresh id keeps ids unique, and the created event is then found by it. */
  lemma CreateThenFindOne(store: seq<Event>, dto: CreateEventDto, id: string, now: string)
    requires UniqueIds(store) && id !in Ids(store)
    ensures var (s, ev) := Create(store, dto, id, now);
      UniqueIds(s) && FindOne(s, id) == Success(ev)
  {
    var (s, ev) := Create(store, dto, id, now);
    assert s[|store|] == ev;
    assert forall i :: 0 <= i < |store| ==> s[i] == store[i];
    var k := FindIndex(s, id).value;
    assert k == |store|;
  }

  /** The first match is the only match when ids are unique. */
  lemma FindIndexUnique(store: seq<Event>, id: string, i: nat)
    requires UniqueIds(store) && i < |store| && store[i].id == id
    ensures FindIndex(store, id) == Some(i)
  {
  }

  /** An update never changes the id or the creation time, and stamps `updatedAt`. */
  lemma UpdateKeepsIdentity(p: Platform, store: seq<Event>, id: string, dto: UpdateEventDto, now: string)
    requires Update(p, store, id, dto, now).Success?
    ensures var u := Update(p, store, id, dto, now).value;
      var old_ := store[FindIndex(store, id).value];
      u.event.id == id && u.event.createdAt == old_.createdAt && u.event.updatedAt == now
  {
  }

  /** Each field of the updated event comes from the DTO when it carries
      the property and from the stored event otherwise. */
  lemma UpdatePatchesFields(p: Platform, store: seq<Event>, id: string, dto: UpdateEventDto, now: string)
    requires Update(p, store, id, dto, now).Success?
    ensures var e := Update(p, store, id, dto, now).value.event;
      var old_ := store[FindIndex(store, id).value];
      && e.title == (if dto.title.Put? then dto.title.value else old_.title)
      && e.description == (if dto.description.Put? then dto.description.value else old_.description)
      && e.startTime == (if dto.startTime.Put? then dto.startTime.value else old_.startTime)
      && e.endTime == (if dto.endTime.Put? then dto.endTime.value else old_.endTime)
      && e.imageURL == (if dto.imageURL.Put? then dto.imageURL.value else old_.imageURL)
      && e.videoURL == (if dto.videoURL.Put? then dto.videoURL.value else old_.videoURL)
  {
  }

  /** An accepted update keeps the ids unique, and the event is then found updated. */
  lemma UpdateThenFindOne(p: Platform, store: seq<Event>, id: string, dto: UpdateEventDto, now: string)
    requires UniqueIds(store) && Update(p, store, id, dto, now).Success?
    ensures var u := Update(p, store, id, dto, now).value;
      UniqueIds(u.store) && Ids(u.store) == Ids(store) && FindOne(u.store, id) == Success(u.event)
  {
    var u := Update(p, store, id, dto, now).value;
    var i := FindIndex(store, id).value;
    assert forall j :: 0 <= j < |store| ==> u.store[j].id == store[j].id;
    assert Ids(u.store) == Ids(store);
    FindIndexUnique(u.store, id, i);
  }

  /** The merged times decide: a start at or after the end is refused,
      whichever side the DTO changed. */
  lemma UpdateRefusesInvertedTimes(p: Platform, store: seq<Event>, id: string, dto: UpdateEventDto, now: string, s: string, e: string)
    requires id in Ids(store)
    requires dto.startTime == Put(s) && dto.endTime == Put(e)
    requires DateGe(p.parseDate(s), p.parseDate(e))
    ensures Update(p, store, id, dto, now) == Failure(InternalServerError(InvertedTimesMessage))
  {
  }

  /** On two strings, the null-aware check is the one `Update` makes. */
  lemma InvertedAsWrittenOnStrings(p: Platform, start: string, end: string)
    ensures InvertedAsWritten(p, Some(start), Some(end)) <==> DateGe(p.parseDate(start), p.parseDate(end))
  {
  }

  /** As written, `{"endTime": null}` on an event starting after 1970 is
      refused with the 500 of the ordering check. */
  lemma NullEndTimeRefusedAsWritten(p: Platform, start: string)
    requires p.parseDate(start).Some? && p.parseDate(start).value >= 0
    ensures InvertedAsWritten(p, Some(start), None)
  {
  }

  /** As written, `{"startTime": null}` on an event ending after 1970 passes
      the ordering check, so the null start is stored. */
  lemma NullStartTimePassesAsWritten(p: Platform, end: string)
    requires p.parseDate(end).Some? && p.parseDate(end).value > 0
    ensures !InvertedAsWritten(p, None, Some(end))
  {
  }

  /** An unparseable time slips past the ordering check: `Invalid Date >= x` is false. */
  lemma UpdateAcceptsInvalidTimes(p: Platform, store: seq<Event>, id: string, dto: UpdateEventDto, now: string, s: string)
    requires id in Ids(store)
    requires dto.startTime == Put(s) && p.parseDate(s).None?
    ensures Update(p, store, id, dto, now).Success?
  {
  }

  /** Replacing a hosted image by a different URL deletes the old file; a
      DTO without media properties deletes nothing. */
  lemma UpdateDeletesReplacedMedia(p: Platform, store: seq<Event>, id: string, dto: UpdateEventDto, now: string)
    requires Update(p, store, id, dto, now).Success?
    ensures var u := Update(p, store, id, dto, now).value;
      var old_ := store[FindIndex(store, id).value];
      && (dto.imageURL.Keep? && dto.videoURL.Keep? ==> u.deletions == [])
      && ((dto.imageURL.Put? && Truthy(dto.imageURL.value) && dto.imageURL.value != old_.imageURL
           && IsHostedHere(old_.imageURL)) ==> old_.imageURL.value in u.deletions)
      && (forall url :: url in u.deletions ==>
           (Some(url) == old_.imageURL || Some(url) == old_.videoURL) && IsHostedHere(Some(url)))
  {
  }

  /** Clearing a media field (`null` or `""`) never deletes its file. */
  lemma UpdateClearingMediaKeepsFile(p: Platform, store: seq<Event>, id: string, dto: UpdateEventDto, now: string)
    requires Update(p, store, id, dto, now).Success?
    requires dto.imageURL == Put(None) || dto.imageURL == Put(Some(""))
    requires dto.videoURL.Keep?
    ensures Update(p, store, id, dto, now).value.deletions == []
  {
  }

  /** With unique ids, removal is the same as keeping every other event. */
  lemma RemoveFilters(store: seq<Event>, id: string)
    requires UniqueIds(store) && id in Ids(store)
    ensures Remove(store, id).value.0 == Filter((e: Event) => e.id != id, store)
  {
    var i := FindIndex(store, id).value;
    var keep := (e: Event) => e.id != id;
    forall j | 0 <= j < |store| && j != i ensures keep(store[j]) {
      if j < i { assert store[j].id != store[i].id; } else { assert store[i].id != store[j].id; }
    }
    FilterOne(keep, store, i);
  }

  /** Splicing one event out of a store with unique ids removes exactly its id. */
  lemma SpliceIds(store: seq<Event>, i: nat)
    requires UniqueIds(store) && i < |store|
    ensures var s := store[..i] + store[i + 1..];
      UniqueIds(s) && Ids(s) == Ids(store) - {store[i].id}
  {
    SpliceUnique(store, i);
    SpliceIdSet(store, i);
  }

  /** Position `j` of the spliced store is position `j` or `j + 1` of the store. */
  lemma SpliceAt(store: seq<Event>, i: nat, j: nat)
    requires i < |store| && j < |store| - 1
    ensures (store[..i] + store[i + 1..])[j] == store[if j < i then j else j + 1]
  {
  }

  lemma SpliceUnique(store: seq<Event>, i: nat)
    requires UniqueIds(store) && i < |store|
    ensures UniqueIds(store[..i] + store[i + 1..])
  {
    var s := store[..i] + store[i + 1..];
    forall a, b | 0 <= a < b < |s| ensures s[a].id != s[b].id {
      SpliceAt(store, i, a);
      SpliceAt(store, i, b);
    }
  }

  lemma SpliceIdSet(store: seq<Event>, i: nat)
    requires UniqueIds(store) && i < |store|
    ensures Ids(store[..i] + store[i + 1..]) == Ids(store) - {store[i].id}
  {
    var s := store[..i] + store[i + 1..];
    forall x | x in Ids(store) - {store[i].id} ensures x in Ids(s) {
      var k :| 0 <= k < |store| && store[k].id == x;
      var k' := if k < i then k else k - 1;
      SpliceAt(store, i, k');
      assert s[k'].id == x;
    }
    forall x | x in Ids(s) ensures x in Ids(store) - {store[i].id} {
      var k :| 0 <= k < |s| && s[k].id == x;
      SpliceAt(store, i, k);
    }
  }

  /** After a removal the id is gone, the other ids remain, and ids stay unique. */
  lemma RemoveThenNotFound(store: seq<Event>, id: string)
    requires UniqueIds(store) && id in Ids(store)
    ensures var s := Remove(store, id).value.0;
      UniqueIds(s) && Ids(s) == Ids(store) - {id} && FindOne(s, id).Failure?
  {
    SpliceIds(store, FindIndex(store, id).value);
  }

  /** A file served from this host holds the marker `tryDeleteFile` looks for. */
  lemma FileUrlIsHostedHere(f: string)
    ensures IsHostedHere(Some(GetFileUrl(f)))
  {
    var url := GetFileUrl(f);
    assert url[7..7 + |HostedMarker|] == HostedMarker;
    assert OccursAt(url, HostedMarker, 7);
    ContainsAt(url, HostedMarker, 7);
  }

  /** An external URL is never offered to `deleteFile`. */
  lemma ExternalUrlNotDeleted(url: string)
    requires !Contains(url, HostedMarker)
    ensures TryDeleteFile(Some(url)) == []
  {
  }

  /** Every URL the upload routes answer with is one `tryDeleteFile` acts on. */
  lemma UploadedUrlIsHostedHere(kind: MediaKind, files: set<string>, f: IncomingFile, uuid: string)
    requires f.mimetype in AllowedMimeTypes(kind) && f.size <= MaxBytes(kind)
    ensures var url := Upload(kind, files, Some(f), uuid).value.0.url;
      IsHostedHere(Some(url)) && TryDeleteFile(Some(url)) == [url]
  {
    FileUrlIsHostedHere(Upload(kind, files, Some(f), uuid).value.0.filename);
  }

  /** The lifecycle of an uploaded image: stored by the upload route,
      attached to an event, and gone from the uploads directory once the
      event is removed. */
  lemma RemoveDeletesUploadedImage(files: set<string>, f: IncomingFile, uuid: string, store: seq<Event>, id: string)
    requires IsUuid(uuid) && f.mimetype in ImageMimeTypes && f.size <= ImageMaxBytes
    requires UniqueIds(store) && id in Ids(store)
    requires store[FindIndex(store, id).value].imageURL == Some(GetFileUrl(StoredFilename(uuid, f.originalname)))
    ensures var (resp, stored) := Upload(Image, files, Some(f), uuid).value;
      resp.filename in stored && resp.filename !in ApplyDeletions(stored, Remove(store, id).value.1)
  {
    var (resp, stored) := Upload(Image, files, Some(f), uuid).value;
    StoredFilenameShape(uuid, f.originalname);
    UploadedUrlIsHostedHere(Image, files, f, uuid);
    FileUrlBasename(resp.filename);
    var urls := Remove(store, id).value.1;
    assert resp.url == urls[0];
  }
}
