/**
 * The two collections as the pages see them: plain sequences of rows, the
 * create / update / delete requests the pages send, what each request does
 * to the rows, and which cached queries each successful request marks stale.
 */
module Store {
  import opened Optional
  import opened Seqs
  import opened ClassSchedule
  import opened Events
  import Dashboard

  // ---------------------------------------------------------------------
  // Query keys

  const ClassesKey: string := "classes"
  const ClassesCountKey: string := "classes-count"
  const TodayClassesKey: string := "today-classes"
  const EventsKey: string := "events"
  const EventsCountKey: string := "events-count"
  const TodayEventsKey: string := "today-events"

  datatype MutationKind = Create | Update | Delete

  // ---------------------------------------------------------------------
  // Requests

  /** `.eq("id", id)`: the row's id is the requested one; a missing id matches nothing. */
  predicate HasId(id: Option<string>, rowId: Option<string>) {
    id.Some? && rowId == id
  }

  /** The class rows a request with `id` targets, and the ones it leaves alone. */
  function ClassWithId(id: Option<string>): ClassData -> bool {
    (r: ClassData) => HasId(id, r.id)
  }

  function ClassWithoutId(id: Option<string>): ClassData -> bool {
    (r: ClassData) => !HasId(id, r.id)
  }

  /** The same for event rows. */
  function EventWithId(id: Option<string>): EventData -> bool {
    (r: EventData) => HasId(id, r.id)
  }

  function EventWithoutId(id: Option<string>): EventData -> bool {
    (r: EventData) => !HasId(id, r.id)
  }

  /**
   * A request on the `classes` collection: insert a record, write `changes`
   * (sent without an id) over the row with the given id, or delete that row.
   */
  datatype ClassMutation =
    | CreateClass(data: ClassData)
    | UpdateClass(id: Option<string>, changes: ClassData)
    | DeleteClass(id: Option<string>)
  {
    function Kind(): MutationKind {
      match this
      case CreateClass(_) => Create
      case UpdateClass(_, _) => Update
      case DeleteClass(_) => Delete
    }
  }

  /** A request on the `events` collection; the record is sent as the form holds it. */
  datatype EventMutation =
    | CreateEvent(data: EventData)
    | UpdateEvent(id: Option<string>, changes: EventData)
    | DeleteEvent(id: Option<string>)
  {
    function Kind(): MutationKind {
      match this
      case CreateEvent(_) => Create
      case UpdateEvent(_, _) => Update
      case DeleteEvent(_) => Delete
    }
  }

  /** The id an inserted row ends up with: its own, or the one the store assigns. */
  function AssignedId(id: Option<string>, freshId: string): (r: Option<string>)
    ensures r.Some?
    ensures id.Some? ==> r == id
  {
    if id.Some? then id else Some(freshId)
  }

  /** Every row whose id matches gets `changes`, keeping its id; the others are left alone. */
  function UpdateRows<R>(rows: seq<R>, matches: R -> bool, write: R -> R): (after: seq<R>)
    ensures |after| == |rows|
    ensures forall i :: 0 <= i < |rows| ==> after[i] == if matches(rows[i]) then write(rows[i]) else rows[i]
  {
    seq(|rows|, i requires 0 <= i < |rows| => if matches(rows[i]) then write(rows[i]) else rows[i])
  }

  /** A successful class request applied to the rows; `freshId` is the id the store would assign. */
  function ApplyClass(rows: seq<ClassData>, m: ClassMutation, freshId: string): (after: seq<ClassData>)
    ensures m.CreateClass? ==>
      |after| == |rows| + 1 && after[..|rows|] == rows
      && after[|rows|].id.Some? && after[|rows|] == m.data.(id := after[|rows|].id)
    ensures m.CreateClass? && m.data.id.Some? ==> after[|rows|].id == m.data.id
    ensures m.UpdateClass? ==> |after| == |rows|
    ensures m.UpdateClass? ==> forall i :: 0 <= i < |rows| ==>
      after[i] == if HasId(m.id, rows[i].id) then m.changes.(id := rows[i].id) else rows[i]
    ensures m.DeleteClass? ==> forall r :: r in after <==> r in rows && !HasId(m.id, r.id)
    ensures m.DeleteClass? ==> forall r :: multiset(after)[r] == if HasId(m.id, r.id) then 0 else multiset(rows)[r]
  {
    match m
    case CreateClass(data) => rows + [data.(id := AssignedId(data.id, freshId))]
    case UpdateClass(id, changes) =>
      UpdateRows(rows, ClassWithId(id), (r: ClassData) => changes.(id := r.id))
    case DeleteClass(id) =>
      FilterMembers(rows, ClassWithoutId(id));
      FilterMultiset(rows, ClassWithoutId(id));
      Filter(rows, ClassWithoutId(id))
  }

  /** A successful event request applied to the rows: the record is normalised before it is written. */
  function ApplyEvent(rows: seq<EventData>, m: EventMutation, freshId: string): (after: seq<EventData>)
    ensures m.CreateEvent? ==>
      |after| == |rows| + 1 && after[..|rows|] == rows
      && after[|rows|].id.Some? && after[|rows|] == NormalizePayload(m.data).(id := after[|rows|].id)
    ensures m.CreateEvent? && m.data.id.Some? ==> after[|rows|].id == m.data.id
    ensures m.UpdateEvent? ==> |after| == |rows|
    ensures m.UpdateEvent? ==> forall i :: 0 <= i < |rows| ==>
      after[i] == if HasId(m.id, rows[i].id) then NormalizePayload(m.changes).(id := rows[i].id) else rows[i]
    ensures m.DeleteEvent? ==> forall r :: r in after <==> r in rows && !HasId(m.id, r.id)
    ensures m.DeleteEvent? ==> forall r :: multiset(after)[r] == if HasId(m.id, r.id) then 0 else multiset(rows)[r]
  {
    match m
    case CreateEvent(data) =>
      var payload := NormalizePayload(data);
      rows + [payload.(id := AssignedId(payload.id, freshId))]
    case UpdateEvent(id, changes) =>
      UpdateRows(rows, EventWithId(id), (r: EventData) => NormalizePayload(changes).(id := r.id))
    case DeleteEvent(id) =>
      FilterMembers(rows, EventWithoutId(id));
      FilterMultiset(rows, EventWithoutId(id));
      Filter(rows, EventWithoutId(id))
  }

  /**
   * Create adds exactly one row, update keeps the number of rows, delete
   * removes exactly as many rows as carry the id.
   */
  lemma ApplyClassCount(rows: seq<ClassData>, m: ClassMutation, freshId: string)
    ensures m.CreateClass? ==> |ApplyClass(rows, m, freshId)| == |rows| + 1
    ensures m.UpdateClass? ==> |ApplyClass(rows, m, freshId)| == |rows|
    ensures m.DeleteClass? ==> |ApplyClass(rows, m, freshId)| == |rows| - |Filter(rows, ClassWithId(m.id))|
  {
    if m.DeleteClass? {
      FilterComplement(rows, ClassWithId(m.id), ClassWithoutId(m.id));
    }
  }

  /**
   * A delete splits the rows in two: what stays and the rows carrying the
   * id, each occurrence in exactly one part.
   */
  lemma DeleteClassRemovesOnlyItsRow(rows: seq<ClassData>, id: Option<string>, freshId: string)
    ensures multiset(ApplyClass(rows, DeleteClass(id), freshId)) + multiset(Filter(rows, ClassWithId(id))) == multiset(rows)
  {
    FilterComplement(rows, ClassWithId(id), ClassWithoutId(id));
  }

  /** Sending the same update twice leaves the rows as sending it once. */
  lemma UpdateClassIdempotent(rows: seq<ClassData>, id: Option<string>, changes: ClassData, freshId: string)
    ensures var once := ApplyClass(rows, UpdateClass(id, changes), freshId);
      ApplyClass(once, UpdateClass(id, changes), freshId) == once
  {
    var once := ApplyClass(rows, UpdateClass(id, changes), freshId);
    var twice := ApplyClass(once, UpdateClass(id, changes), freshId);
    forall i | 0 <= i < |rows|
      ensures twice[i] == once[i]
    {
      assert once[i].id == rows[i].id;
    }
  }

  /** Every event row is stored normalised. */
  predicate EventRowsNormalized(rows: seq<EventData>) {
    forall i :: 0 <= i < |rows| ==> Normalized(rows[i])
  }

  /** The event requests keep the collection normalised. */
  lemma ApplyEventKeepsNormalized(rows: seq<EventData>, m: EventMutation, freshId: string)
    requires EventRowsNormalized(rows)
    ensures EventRowsNormalized(ApplyEvent(rows, m, freshId))
  {
    var after := ApplyEvent(rows, m, freshId);
    if m.DeleteEvent? {
      var keep := (r: EventData) => !HasId(m.id, r.id);
      FilterMembers(rows, keep);
      forall i | 0 <= i < |after|
        ensures Normalized(after[i])
      {
        assert after[i] in rows;
      }
    }
  }

  // ---------------------------------------------------------------------
  // Invalidation

  /**
   * The query keys a settled class request marks stale: all three on a
   * successful create or delete, the count excepted on a successful update,
   * none on failure.
   */
  function ClassInvalidation(kind: MutationKind, ok: bool): (keys: set<string>)
    ensures !ok ==> keys == {}
    ensures ok ==> ClassesKey in keys && TodayClassesKey in keys
    ensures ClassesCountKey in keys <==> ok && kind != Update
    ensures keys <= {ClassesKey, ClassesCountKey, TodayClassesKey}
  {
    if !ok then {}
    else if kind == Update then {ClassesKey, TodayClassesKey}
    else {ClassesKey, ClassesCountKey, TodayClassesKey}
  }

  /** The same for event requests, over the event keys. */
  function EventInvalidation(kind: MutationKind, ok: bool): (keys: set<string>)
    ensures !ok ==> keys == {}
    ensures ok ==> EventsKey in keys && TodayEventsKey in keys
    ensures EventsCountKey in keys <==> ok && kind != Update
    ensures keys <= {EventsKey, EventsCountKey, TodayEventsKey}
  {
    if !ok then {}
    else if kind == Update then {EventsKey, TodayEventsKey}
    else {EventsKey, EventsCountKey, TodayEventsKey}
  }

  /** A class request never marks an event query stale, nor the reverse. */
  lemma InvalidationsDisjoint(classKind: MutationKind, classOk: bool, eventKind: MutationKind, eventOk: bool)
    ensures ClassInvalidation(classKind, classOk) !! EventInvalidation(eventKind, eventOk)
  {
  }

  /** The query under `key` answers differently over `before` and `after`. */
  predicate ClassQueryChanged(key: string, before: seq<ClassData>, after: seq<ClassData>, weekday: string) {
    || (key == ClassesKey && before != after)
    || (key == ClassesCountKey && |before| != |after|)
    || (key == TodayClassesKey
        && Dashboard.TodayClasses(Some(before), weekday) != Dashboard.TodayClasses(Some(after), weekday))
  }

  predicate EventQueryChanged(key: string, before: seq<EventData>, after: seq<EventData>,
                              today: string, untimedFirst: bool) {
    || (key == EventsKey && before != after)
    || (key == EventsCountKey && |before| != |after|)
    || (key == TodayEventsKey
        && Dashboard.TodayEvents(Some(before), today, untimedFirst) != Dashboard.TodayEvents(Some(after), today, untimedFirst))
  }

  /**
   * Leaving the count out after an update is safe: every query whose answer
   * a successful class request changes is among the keys it invalidates.
   */
  lemma ClassInvalidationSound(rows: seq<ClassData>, m: ClassMutation, freshId: string, weekday: string, key: string)
    requires ClassQueryChanged(key, rows, ApplyClass(rows, m, freshId), weekday)
    ensures key in ClassInvalidation(m.Kind(), true)
  {
    ApplyClassCount(rows, m, freshId);
  }

  lemma EventInvalidationSound(rows: seq<EventData>, m: EventMutation, freshId: string,
                               today: string, untimedFirst: bool, key: string)
    requires EventQueryChanged(key, rows, ApplyEvent(rows, m, freshId), today, untimedFirst)
    ensures key in EventInvalidation(m.Kind(), true)
  {
  }

  /** And no key is invalidated for nothing on a create: the list and the count always change. */
  lemma CreateClassChangesListAndCount(rows: seq<ClassData>, data: ClassData, freshId: string, weekday: string)
    ensures ClassQueryChanged(ClassesKey, rows, ApplyClass(rows, CreateClass(data), freshId), weekday)
    ensures ClassQueryChanged(ClassesCountKey, rows, ApplyClass(rows, CreateClass(data), freshId), weekday)
  {
    assert |ApplyClass(rows, CreateClass(data), freshId)| == |rows| + 1;
  }
}
