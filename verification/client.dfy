/** The calendar page's own rules around the API: the checks `handleSubmit`
    runs before sending, the payload it sends, how it updates the local
    event list, and which events the today and upcoming lists show. The
    current time and the two midnights are inputs. */
module Client {
  import opened Wrappers
  import opened Text
  import opened Seqs
  import opened Runtime
  import opened Entities
  import opened Validation

  /** The event form: every input holds a string, empty when left blank. */
  datatype Form = Form(
    title: string,
    description: string,
    startTime: string,
    endTime: string,
    imageURL: string,
    videoURL: string)

  /** The JSON the page sends; `None` stands for a media property deleted
      from the payload. */
  datatype Payload = Payload(
    title: string,
    description: string,
    startTime: string,
    endTime: string,
    imageURL: Option<string>,
    videoURL: Option<string>)

  datatype SubmitOutcome = Rejected(message: string) | Send(payload: Payload)

  const RequiredMessage: string := "Title, Start Time, and End Time are required."
  const PastMessage: string := "Start Time cannot be in the past."
  const OrderMessage: string := "End Time must be after Start Time."
  const DataUrlPrefix: string := "data:"

  /** A media value stays in the payload unless it is blank or an inline `data:` URL. */
  function CleanMedia(v: string): Option<string> {
    if Trim(v) == "" || StartsWith(v, DataUrlPrefix) then None else Some(v)
  }

  /** `handleSubmit` up to the request: the three checks in order, then the cleaned payload. */
  function Submit(p: Platform, form: Form, now: int): SubmitOutcome {
    if form.title == "" || form.startTime == "" || form.endTime == "" then Rejected(RequiredMessage)
    else
      var start := p.parseDate(form.startTime);
      var end := p.parseDate(form.endTime);
      if DateLt(start, Some(now)) then Rejected(PastMessage)
      else if DateGe(start, end) then Rejected(OrderMessage)
      else Send(Payload(form.title, form.description, form.startTime, form.endTime,
                        CleanMedia(form.imageURL), CleanMedia(form.videoURL)))
  }

  /** The payload as the JSON body the API receives. */
  function PayloadBody(pl: Payload): Body {
    var base := map["title" := JString(pl.title), "description" := JString(pl.description),
                     "startTime" := JString(pl.startTime), "endTime" := JString(pl.endTime)];
    var withImage := if pl.imageURL.Some? then base["imageURL" := JString(pl.imageURL.value)] else base;
    if pl.videoURL.Some? then withImage["videoURL" := JString(pl.videoURL.value)] else withImage
  }

  /** The saved event as the page keeps it: an inline `data:` value from the
      form is put back in place of what the server returned. */
  function Restore(saved: Event, form: Form): Event {
    saved.(imageURL := if StartsWith(form.imageURL, DataUrlPrefix) then Some(form.imageURL) else saved.imageURL,
           videoURL := if StartsWith(form.videoURL, DataUrlPrefix) then Some(form.videoURL) else saved.videoURL)
  }

  /** `events.map(e => e.id === id ? saved : e)`. */
  function ReplaceById(events: seq<Event>, id: string, saved: Event): (r: seq<Event>)
    ensures |r| == |events|
    ensures forall i :: 0 <= i < |events| ==> r[i] == if events[i].id == id then saved else events[i]
    decreases |events|
  {
    if |events| == 0 then []
    else [if events[0].id == id then saved else events[0]] + ReplaceById(events[1..], id, saved)
  }

  /** The local list after a save: an edit replaces in place, a create appends. */
  function SaveLocally(events: seq<Event>, editingId: Option<string>, saved: Event): seq<Event> {
    if Truthy(editingId) then ReplaceById(events, editingId.value, saved) else events + [saved]
  }

  /** The local list after a successful delete. */
  function DeleteLocally(events: seq<Event>, id: string): seq<Event> {
    Filter((e: Event) => e.id != id, events)
  }

  /** `getTodayEvents`: start in `[todayMidnight, tomorrowMidnight)`. */
  function TodayEvents(p: Platform, events: seq<Event>, todayMidnight: int, tomorrowMidnight: int): seq<Event> {
    Filter((e: Event) => DateGe(p.parseDate(e.startTime), Some(todayMidnight))
                         && DateLt(p.parseDate(e.startTime), Some(tomorrowMidnight)), events)
  }

  /** `getFutureEvents`: start at or after `tomorrowMidnight`. */
  function FutureEvents(p: Platform, events: seq<Event>, tomorrowMidnight: int): seq<Event> {
    Filter((e: Event) => DateGe(p.parseDate(e.startTime), Some(tomorrowMidnight)), events)
  }

  // ----- properties -----

  /** The checks run in order and a rejection sends nothing: a form is
      sent exactly when all three inputs are filled, the start is not in the
      past and precedes the end, as far as `Date` comparisons can tell. */
  lemma SubmitIff(p: Platform, form: Form, now: int)
    ensures var r := Submit(p, form, now);
      var start, end := p.parseDate(form.startTime), p.parseDate(form.endTime);
      && (r.Send? <==> form.title != "" && form.startTime != "" && form.endTime != ""
                       && !(start.Some? && start.value < now)
                       && !(start.Some? && end.Some? && start.value >= end.value))
      && (r.Rejected? ==>
            r.message == (if form.title == "" || form.startTime == "" || form.endTime == "" then RequiredMessage
                          else if start.Some? && start.value < now then PastMessage
                          else OrderMessage))
  {
  }

  /** Unparseable times get past both time checks. */
  lemma InvalidTimesPassClientChecks(p: Platform, form: Form, now: int)
    requires form.title != "" && form.startTime != "" && form.endTime != ""
    requires p.parseDate(form.startTime).None?
    ensures Submit(p, form, now).Send?
  {
  }

  /** A sent payload carries the form's text fields unchanged, and a media
      URL exactly when it is non-blank and not inline. */
  lemma SubmitCleansMedia(p: Platform, form: Form, now: int)
    requires Submit(p, form, now).Send?
    ensures var pl := Submit(p, form, now).payload;
      && pl.title == form.title && pl.description == form.description
      && pl.startTime == form.startTime && pl.endTime == form.endTime
      && (pl.imageURL.Some? <==>
            (!StartsWith(form.imageURL, "data:") && exists i :: 0 <= i < |form.imageURL| && !IsJsWhitespace(form.imageURL[i])))
      && (pl.imageURL.Some? ==> pl.imageURL.value == form.imageURL)
      && (pl.videoURL.Some? <==>
            (!StartsWith(form.videoURL, "data:") && exists i :: 0 <= i < |form.videoURL| && !IsJsWhitespace(form.videoURL[i])))
      && (pl.videoURL.Some? ==> pl.videoURL.value == form.videoURL)
  {
    TrimEmptyIff(form.imageURL);
    TrimEmptyIff(form.videoURL);
  }

  /** After the round trip the page shows the inline value the form held,
      and otherwise what the server returned. */
  lemma RestoreKeepsInline(saved: Event, form: Form)
    ensures var r := Restore(saved, form);
      && (StartsWith(form.imageURL, "data:") ==> r.imageURL == Some(form.imageURL))
      && (!StartsWith(form.imageURL, "data:") ==> r.imageURL == saved.imageURL)
      && (StartsWith(form.videoURL, "data:") ==> r.videoURL == Some(form.videoURL))
      && (!StartsWith(form.videoURL, "data:") ==> r.videoURL == saved.videoURL)
      && r.(imageURL := saved.imageURL, videoURL := saved.videoURL) == saved
  {
  }

  /** The payload never names a server-managed property, and one whose
      title is long enough and whose times are ISO 8601 strings passes the
      creation rules. */
  lemma PayloadValidForCreate(p: Platform, form: Form, now: int)
    requires Submit(p, form, now).Send?
    requires MeasuredLength(form.title) >= 3 && p.isDateString(form.startTime) && p.isDateString(form.endTime)
    ensures ValidCreateBody(p, PayloadBody(Submit(p, form, now).payload))
  {
    var pl := Submit(p, form, now).payload;
    var body := PayloadBody(pl);
    assert body.Keys <= EventProperties;
    assert body["title"] == JString(form.title);
    assert body["startTime"] == JString(form.startTime);
    assert body["endTime"] == JString(form.endTime);
  }

  /** A two-character title passes the page's check but not the server's. */
  lemma ShortTitleOnlyServerRejects(p: Platform, now: int)
    requires p.parseDate("s").None?
    ensures var form := Form("ab", "", "s", "e", "", "");
      Submit(p, form, now).Send? && !ValidCreateBody(p, PayloadBody(Submit(p, form, now).payload))
  {
    var form := Form("ab", "", "s", "e", "", "");
    var body := PayloadBody(Submit(p, form, now).payload);
    assert body["title"] == JString("ab");
  }

  /** An edit keeps every position and, when the saved event keeps its id,
      the set of ids. */
  lemma EditKeepsPositions(events: seq<Event>, id: string, saved: Event)
    requires id != "" && saved.id == id
    ensures var r := SaveLocally(events, Some(id), saved);
      |r| == |events| && Ids(r) == Ids(events)
      && (UniqueIds(events) ==> UniqueIds(r))
      && forall i :: 0 <= i < |events| && events[i].id != id ==> r[i] == events[i]
  {
    var r := ReplaceById(events, id, saved);
    assert SaveLocally(events, Some(id), saved) == r;
    SameIds(r, events);
  }

  /** A create appends the saved event after the others. */
  lemma CreateAppends(events: seq<Event>, editingId: Option<string>, saved: Event)
    requires !Truthy(editingId)
    ensures var r := SaveLocally(events, editingId, saved);
      |r| == |events| + 1 && r[..|events|] == events && r[|events|] == saved
  {
  }

  /** A delete removes every event with that id and keeps the others in order. */
  lemma DeleteLocallyIff(events: seq<Event>, id: string, e: Event)
    ensures e in DeleteLocally(events, id) <==> e in events && e.id != id
    ensures Subseq(DeleteLocally(events, id), events)
    ensures id !in Ids(DeleteLocally(events, id))
  {
    var keep := (x: Event) => x.id != id;
    FilterMember(keep, events, e);
    FilterIsSubseq(keep, events);
    var r := DeleteLocally(events, id);
    forall i | 0 <= i < |r| ensures r[i].id != id {
      FilterMember(keep, events, r[i]);
    }
  }

  /** Today's and upcoming events split the events starting at or after
      today's midnight: none is in both, and each appears in exactly one as
      often as in the list. */
  lemma TodayFuturePartition(p: Platform, events: seq<Event>, todayMidnight: int, tomorrowMidnight: int, e: Event)
    requires todayMidnight <= tomorrowMidnight
    ensures var today := TodayEvents(p, events, todayMidnight, tomorrowMidnight);
      var future := FutureEvents(p, events, tomorrowMidnight);
      var fromToday := Filter((x: Event) => DateGe(p.parseDate(x.startTime), Some(todayMidnight)), events);
      && !(e in today && e in future)
      && multiset(today)[e] + multiset(future)[e] == multiset(fromToday)[e]
  {
    var inToday := (x: Event) => DateGe(p.parseDate(x.startTime), Some(todayMidnight))
                                 && DateLt(p.parseDate(x.startTime), Some(tomorrowMidnight));
    var inFuture := (x: Event) => DateGe(p.parseDate(x.startTime), Some(tomorrowMidnight));
    var fromToday := (x: Event) => DateGe(p.parseDate(x.startTime), Some(todayMidnight));
    FilterCount(inToday, events, e);
    FilterCount(inFuture, events, e);
    FilterCount(fromToday, events, e);
  }
}
