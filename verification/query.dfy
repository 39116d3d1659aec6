/** `EventsService.findAll`: search, start-date bounds and sorting over a
    copy of the store. */
module Query {
  import opened Wrappers
  import opened Text
  import opened Seqs
  import opened Runtime
  import opened Entities

  datatype SortField = ByStartTime | ByEndTime | ByCreatedAt | ByTitle
  datatype SortOrder = Asc | Desc

  /** `EventsQueryParams`; every parameter may be absent. `sortOrder` is the
      query string as received: nothing restricts it to `asc` or `desc`. */
  datatype EventsQueryParams = EventsQueryParams(
    search: Option<string>,
    startDate: Option<string>,
    endDate: Option<string>,
    sortBy: Option<SortField>,
    sortOrder: Option<string>)

  /** `queryParams.sortOrder || 'asc'` followed by the test `=== 'asc'`:
      every other value sorts descending. */
  function OrderOf(sortOrder: Option<string>): SortOrder {
    if Truthy(sortOrder) && sortOrder.value != "asc" then Desc else Asc
  }

  /** The lower-cased title, or the lower-cased present description, includes `term`. */
  predicate MatchesSearch(p: Platform, term: string, e: Event) {
    Contains(p.toLower(e.title), term)
    || (Truthy(e.description) && Contains(p.toLower(e.description.value), term))
  }

  /** The per-record test of each parameter; one that is absent or empty
      (falsy in JavaScript) passes every record. */
  function SearchTest(p: Platform, search: Option<string>): Event -> bool {
    (e: Event) => Truthy(search) ==> MatchesSearch(p, p.toLower(search.value), e)
  }

  /** `new Date(event.startTime) >= new Date(startDate)`. */
  function StartDateTest(p: Platform, startDate: Option<string>): Event -> bool {
    (e: Event) => Truthy(startDate) ==> DateGe(p.parseDate(e.startTime), p.parseDate(startDate.value))
  }

  /** `new Date(event.startTime) <= new Date(endDate)`: the end bound is also
      compared with the record's start time. */
  function EndDateTest(p: Platform, endDate: Option<string>): Event -> bool {
    (e: Event) => Truthy(endDate) ==> DateLe(p.parseDate(e.startTime), p.parseDate(endDate.value))
  }

  function SearchFilter(p: Platform, q: EventsQueryParams, events: seq<Event>): seq<Event> {
    if Truthy(q.search) then Filter(SearchTest(p, q.search), events) else events
  }

  function StartDateFilter(p: Platform, q: EventsQueryParams, events: seq<Event>): seq<Event> {
    if Truthy(q.startDate) then Filter(StartDateTest(p, q.startDate), events) else events
  }

  function EndDateFilter(p: Platform, q: EventsQueryParams, events: seq<Event>): seq<Event> {
    if Truthy(q.endDate) then Filter(EndDateTest(p, q.endDate), events) else events
  }

  /** The value a sort compares: the title as text, a time field as a `Date`. */
  datatype SortKey = TextKey(text: string) | TimeKey(time: Option<int>)

  function KeyOf(p: Platform, field: SortField, e: Event): SortKey {
    match field
    case ByTitle => TextKey(e.title)
    case ByStartTime => TimeKey(p.parseDate(e.startTime))
    case ByEndTime => TimeKey(p.parseDate(e.endTime))
    case ByCreatedAt => TimeKey(p.parseDate(e.createdAt))
  }

  /** JavaScript's `a > b` on two sort values. */
  predicate KeyGreater(a: SortKey, b: SortKey) {
    match (a, b)
    case (TextKey(x), TextKey(y)) => LexLess(y, x)
    case (TimeKey(x), TimeKey(y)) => DateGt(x, y)
    case _ => false
  }

  /** The comparator handed to `Array.prototype.sort`: `1` or `-1`, never `0`. */
  function Compare(p: Platform, field: SortField, order: SortOrder, a: Event, b: Event): int {
    var ka := KeyOf(p, field, a);
    var kb := KeyOf(p, field, b);
    if order == Asc then (if KeyGreater(ka, kb) then 1 else -1)
    else (if KeyGreater(kb, ka) then 1 else -1)
  }

  /** `a` is placed after `b` when the comparator answers positively. */
  function After(p: Platform, field: SortField, order: SortOrder): (Event, Event) -> bool {
    (a: Event, b: Event) => Compare(p, field, order, a, b) > 0
  }

  function SortEvents(p: Platform, q: EventsQueryParams, events: seq<Event>): seq<Event> {
    match q.sortBy
    case None => events
    case Some(field) => InsertionSort(After(p, field, OrderOf(q.sortOrder)), events)
  }

  /** `findAll(queryParams)` over the store's contents. */
  function FindAll(p: Platform, store: seq<Event>, q: EventsQueryParams): seq<Event> {
    SortEvents(p, q, EndDateFilter(p, q, StartDateFilter(p, q, SearchFilter(p, q, store))))
  }

  /** Whether a record survives the three filters, stated per criterion:
      an absent or empty parameter imposes nothing; a bound that is an
      Invalid Date, or a record whose start is one, fails the comparison. */
  predicate Selected(p: Platform, q: EventsQueryParams, e: Event) {
    && (Truthy(q.search) ==> MatchesSearch(p, p.toLower(q.search.value), e))
    && (Truthy(q.startDate) ==> DateLe(p.parseDate(q.startDate.value), p.parseDate(e.startTime)))
    && (Truthy(q.endDate) ==> DateLe(p.parseDate(e.startTime), p.parseDate(q.endDate.value)))
  }

  /** The comparator never answers 0, whatever the two records are. */
  lemma CompareNeverZero(p: Platform, field: SortField, order: SortOrder, a: Event, b: Event)
    ensures Compare(p, field, order, a, b) == 1 || Compare(p, field, order, a, b) == -1
  {
  }

  /** For equal keys the comparator answers -1 both ways, so it is not a consistent comparator. */
  lemma CompareInconsistentOnTies(p: Platform, field: SortField, order: SortOrder, a: Event, b: Event)
    requires KeyOf(p, field, a) == KeyOf(p, field, b)
    ensures Compare(p, field, order, a, b) == -1 && Compare(p, field, order, b, a) == -1
  {
    match KeyOf(p, field, a)
    case TextKey(x) => LexIrreflexive(x);
    case TimeKey(x) =>
  }

  /** The filters, run one after another, keep exactly the `Selected` records in store order. */
  lemma FiltersSelect(p: Platform, q: EventsQueryParams, store: seq<Event>)
    ensures EndDateFilter(p, q, StartDateFilter(p, q, SearchFilter(p, q, store)))
      == Filter((e: Event) => Selected(p, q, e), store)
  {
    var f1 := SearchFilter(p, q, store);
    if !Truthy(q.search) { FilterKeepsAll(SearchTest(p, q.search), store); }
    var f2 := StartDateFilter(p, q, f1);
    if !Truthy(q.startDate) { FilterKeepsAll(StartDateTest(p, q.startDate), f1); }
    if !Truthy(q.endDate) { FilterKeepsAll(EndDateTest(p, q.endDate), f2); }
    var both := (e: Event) => SearchTest(p, q.search)(e) && StartDateTest(p, q.startDate)(e);
    FilterFuse(SearchTest(p, q.search), StartDateTest(p, q.startDate), both, store);
    FilterFuse(both, EndDateTest(p, q.endDate), (e: Event) => Selected(p, q, e), store);
  }

  /** `findAll` returns a rearrangement of the selected records: each appears
      as often as in the store, and nothing else appears. */
  lemma FindAllSelects(p: Platform, store: seq<Event>, q: EventsQueryParams, e: Event)
    ensures multiset(FindAll(p, store, q))[e] == if Selected(p, q, e) then multiset(store)[e] else 0
  {
    var sel := (x: Event) => Selected(p, q, x);
    var f := EndDateFilter(p, q, StartDateFilter(p, q, SearchFilter(p, q, store)));
    FiltersSelect(p, q, store);
    FilterCount(sel, store, e);
    if q.sortBy.Some? {
      SortPermutes(After(p, q.sortBy.value, OrderOf(q.sortOrder)), f);
    }
  }

  /** Without `sortBy` the selected records keep their insertion order. */
  lemma FindAllUnsortedKeepsOrder(p: Platform, store: seq<Event>, q: EventsQueryParams)
    requires q.sortBy.None?
    ensures FindAll(p, store, q) == Filter((e: Event) => Selected(p, q, e), store)
    ensures Subseq(FindAll(p, store, q), store)
  {
    FiltersSelect(p, q, store);
    FilterIsSubseq((e: Event) => Selected(p, q, e), store);
  }

  /** With no parameters at all, `findAll` returns the whole store in insertion order. */
  lemma FindAllNoParams(p: Platform, store: seq<Event>)
    ensures FindAll(p, store, EventsQueryParams(None, None, None, None, None)) == store
  {
  }

  /** An empty search term filters nothing. */
  lemma EmptySearchKeepsAll(p: Platform, store: seq<Event>, q: EventsQueryParams)
    requires q.search == Some("")
    ensures FindAll(p, store, q) == FindAll(p, store, q.(search := None))
  {
  }

  /** A date bound that does not parse drops every record. */
  lemma InvalidStartDateDropsAll(p: Platform, store: seq<Event>, q: EventsQueryParams, e: Event)
    requires Truthy(q.startDate) && p.parseDate(q.startDate.value).None?
    ensures e !in FindAll(p, store, q)
  {
    FindAllSelects(p, store, q, e);
  }

  /** A record whose start time does not parse is dropped by either date bound. */
  lemma InvalidStartTimeDropped(p: Platform, store: seq<Event>, q: EventsQueryParams, e: Event)
    requires Truthy(q.startDate) || Truthy(q.endDate)
    requires p.parseDate(e.startTime).None?
    ensures e !in FindAll(p, store, q)
  {
    FindAllSelects(p, store, q, e);
  }

  /** Every record can be compared on `field`: titles always, time fields when they parse. */
  predicate Comparable(p: Platform, field: SortField, e: Event) {
    field == ByTitle || KeyOf(p, field, e).time.Some?
  }

  /** The store's records are comparable and have pairwise-distinct keys. */
  predicate DistinctKeys(p: Platform, field: SortField, store: seq<Event>) {
    && (forall i :: 0 <= i < |store| ==> Comparable(p, field, store[i]))
    && (forall i, j :: 0 <= i < j < |store| ==> KeyOf(p, field, store[i]) != KeyOf(p, field, store[j]))
  }

  /** JavaScript's `a < b` on two sort values. */
  predicate KeyLess(a: SortKey, b: SortKey) {
    KeyGreater(b, a)
  }

  /** On comparable records the comparator is a strict weak order, for either direction. */
  lemma AfterStrictWeak(p: Platform, field: SortField, order: SortOrder, s: seq<Event>)
    requires forall e :: e in s ==> Comparable(p, field, e)
    ensures StrictWeakOn(After(p, field, order), s)
  {
    var after := After(p, field, order);
    forall a, b | a in s && b in s && after(a, b) ensures !after(b, a) {
      var ka, kb := KeyOf(p, field, a), KeyOf(p, field, b);
      if field == ByTitle {
        if order == Asc { LexAsymmetric(kb.text, ka.text); } else { LexAsymmetric(ka.text, kb.text); }
      }
    }
    forall a, b, c | a in s && b in s && c in s && !after(a, b) && !after(b, c) ensures !after(a, c) {
      var ka, kb, kc := KeyOf(p, field, a), KeyOf(p, field, b), KeyOf(p, field, c);
      if field == ByTitle {
        if order == Asc {
          LexNotLessTransitive(ka.text, kb.text, kc.text);
        } else {
          LexNotLessTransitive(kc.text, kb.text, ka.text);
        }
      }
    }
  }

  /** Distinct keys make the comparator connected on distinct records of the store. */
  lemma AfterConnected(p: Platform, field: SortField, order: SortOrder, store: seq<Event>, s: seq<Event>)
    requires DistinctKeys(p, field, store)
    requires forall e :: e in s ==> e in store
    ensures ConnectedOn(After(p, field, order), s)
  {
    var after := After(p, field, order);
    forall a, b | a in s && b in s && a != b ensures after(a, b) || after(b, a) {
      var i :| 0 <= i < |store| && store[i] == a;
      var j :| 0 <= j < |store| && store[j] == b;
      var ka, kb := KeyOf(p, field, a), KeyOf(p, field, b);
      assert ka != kb by {
        if i < j { assert KeyOf(p, field, store[i]) != KeyOf(p, field, store[j]); }
        else { assert KeyOf(p, field, store[j]) != KeyOf(p, field, store[i]); }
      }
      if field == ByTitle {
        LexTotal(ka.text, kb.text);
      }
    }
  }

  /** Distinct keys leave no record twice in the store. */
  lemma DistinctKeysNoDup(p: Platform, field: SortField, store: seq<Event>)
    requires DistinctKeys(p, field, store)
    ensures NoDup(store)
  {
  }

  /** The records `findAll` sorts are the selected ones; when those have
      distinct keys, they are comparable and none appears twice. */
  lemma FilteredFacts(p: Platform, store: seq<Event>, q: EventsQueryParams, field: SortField)
    requires DistinctKeys(p, field, Filter((e: Event) => Selected(p, q, e), store))
    ensures var f := EndDateFilter(p, q, StartDateFilter(p, q, SearchFilter(p, q, store)));
      (forall e :: e in f ==> e in store && Comparable(p, field, e)) && NoDup(f) && DistinctKeys(p, field, f)
  {
    var sel := (x: Event) => Selected(p, q, x);
    var f := EndDateFilter(p, q, StartDateFilter(p, q, SearchFilter(p, q, store)));
    FiltersSelect(p, q, store);
    forall e | e in f ensures e in store {
      FilterMember(sel, store, e);
    }
    DistinctKeysNoDup(p, field, f);
  }

  /** Which orders `sortOrder` selects: ascending when it is absent, empty or
      exactly `asc`, descending for anything else. */
  lemma OrderOfIff(sortOrder: Option<string>)
    ensures OrderOf(sortOrder) == Asc <==> sortOrder == None || sortOrder == Some("") || sortOrder == Some("asc")
  {
  }

  /** With `sortBy` set and pairwise-distinct keys among the selected
      records, the result is strictly ascending by the key, or strictly
      descending when `sortOrder` selects that. */
  lemma FindAllSorted(p: Platform, store: seq<Event>, q: EventsQueryParams)
    requires q.sortBy.Some? && DistinctKeys(p, q.sortBy.value, Filter((e: Event) => Selected(p, q, e), store))
    ensures var r := FindAll(p, store, q);
      var field := q.sortBy.value;
      forall i, j :: 0 <= i < j < |r| ==>
        if OrderOf(q.sortOrder) == Desc then KeyLess(KeyOf(p, field, r[j]), KeyOf(p, field, r[i]))
        else KeyLess(KeyOf(p, field, r[i]), KeyOf(p, field, r[j]))
  {
    var field := q.sortBy.value;
    var order := OrderOf(q.sortOrder);
    var f := EndDateFilter(p, q, StartDateFilter(p, q, SearchFilter(p, q, store)));
    FilteredFacts(p, store, q, field);
    AfterStrictWeak(p, field, order, f);
    AfterConnected(p, field, order, f, f);
    SortStrictlySorted(After(p, field, order), f);
  }

  /** Read backwards, a strictly ascending sequence is strictly descending. */
  lemma ReversedAscendingIsDescending(p: Platform, field: SortField, ra: seq<Event>)
    requires StrictlySorted(After(p, field, Asc), ra)
    ensures StrictlySorted(After(p, field, Desc), Reverse(ra))
  {
    var rev := Reverse(ra);
    forall i, j | 0 <= i < j < |rev| ensures After(p, field, Desc)(rev[j], rev[i]) {
      assert After(p, field, Asc)(ra[|ra| - 1 - i], ra[|ra| - 1 - j]);
    }
  }

  /** For distinct keys among the selected records, sorting descending gives
      the ascending result reversed. */
  lemma DescendingIsReversedAscending(p: Platform, store: seq<Event>, q: EventsQueryParams)
    requires q.sortBy.Some? && DistinctKeys(p, q.sortBy.value, Filter((e: Event) => Selected(p, q, e), store))
    ensures FindAll(p, store, q.(sortOrder := Some("desc"))) == Reverse(FindAll(p, store, q.(sortOrder := Some("asc"))))
  {
    var field := q.sortBy.value;
    var qa, qd := q.(sortOrder := Some("asc")), q.(sortOrder := Some("desc"));
    var f := EndDateFilter(p, q, StartDateFilter(p, q, SearchFilter(p, q, store)));
    assert f == EndDateFilter(p, qa, StartDateFilter(p, qa, SearchFilter(p, qa, store)));
    assert f == EndDateFilter(p, qd, StartDateFilter(p, qd, SearchFilter(p, qd, store)));
    var asc, desc := After(p, field, Asc), After(p, field, Desc);
    FilteredFacts(p, store, q, field);
    AfterStrictWeak(p, field, Asc, f);
    AfterStrictWeak(p, field, Desc, f);
    AfterConnected(p, field, Asc, f, f);
    AfterConnected(p, field, Desc, f, f);
    var ra := InsertionSort(asc, f);
    var rd := InsertionSort(desc, f);
    assert OrderOf(qa.sortOrder) == Asc && OrderOf(qd.sortOrder) == Desc;
    assert FindAll(p, store, qa) == ra && FindAll(p, store, qd) == rd;
    SortStrictlySorted(asc, f);
    SortStrictlySorted(desc, f);
    SortPermutes(asc, f);
    SortPermutes(desc, f);
    var rev := Reverse(ra);
    ReversePermutes(ra);
    ReversedAscendingIsDescending(p, field, ra);
    forall x, y | x in rd && y in rd && desc(x, y) ensures !desc(y, x) {
      assert x in multiset(rd) && y in multiset(rd);
    }
    StrictlySortedUnique(desc, rd, rev);
  }
}
