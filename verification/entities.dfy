/** The one persisted entity of the application. */
module Entities {
  import opened Wrappers

  /** An event as the backend stores it and the frontend receives it. Times
      are ISO 8601 strings; `None` in an optional field stands for a property
      that is absent or `null`, which every reader of the field treats alike. */
  datatype Event = Event(
    id: string,
    title: string,
    description: Option<string>,
    startTime: string,
    endTime: string,
    imageURL: Option<string>,
    videoURL: Option<string>,
    createdAt: string,
    updatedAt: string)

  /** The ids of the events in `events`. */
  function Ids(events: seq<Event>): (r: set<string>)
    ensures forall i :: 0 <= i < |events| ==> events[i].id in r
    ensures forall x :: x in r ==> exists i :: 0 <= i < |events| && events[i].id == x
  {
    set i | 0 <= i < |events| :: events[i].id
  }

  /** No two events share an id. */
  predicate UniqueIds(events: seq<Event>) {
    forall i, j :: 0 <= i < j < |events| ==> events[i].id != events[j].id
  }

  /** Lists with the same ids position by position have the same ids. */
  lemma SameIds(a: seq<Event>, b: seq<Event>)
    requires |a| == |b| && forall i :: 0 <= i < |a| ==> a[i].id == b[i].id
    ensures Ids(a) == Ids(b)
    ensures UniqueIds(a) <==> UniqueIds(b)
  {
    forall x | x in Ids(a) ensures x in Ids(b) {
      var i :| 0 <= i < |a| && a[i].id == x;
      assert b[i].id == x;
    }
    forall x | x in Ids(b) ensures x in Ids(a) {
      var i :| 0 <= i < |b| && b[i].id == x;
      assert a[i].id == x;
    }
  }
}
