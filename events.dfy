/**
 * The pure part of the events page: the event record, the payload
 * normalisation that both the create and the update mutation apply before
 * writing, and the time-slot label of the events table.
 */
module Events {
  import opened Optional

  /**
   * A row of the `events` collection. `None` stands for a field that is
   * `null` or absent; `Some("")` for a field the form left blank.
   */
  datatype EventData = EventData(
    id: Option<string>,
    eventTitle: string,
    eventDate: string,
    startTime: Option<string>,
    endTime: Option<string>,
    description: Option<string>)

  /** The field is JavaScript-truthy: present and not the empty string. */
  predicate Present(field: Option<string>) {
    field.Some? && field.value != ""
  }

  /** `field || null`: a falsy value becomes `null`, a truthy one is kept. */
  function NullIfEmpty(field: Option<string>): (r: Option<string>)
    ensures Present(field) ==> r == field
    ensures !Present(field) ==> r == None
  {
    if Present(field) then field else None
  }

  /** No optional field holds the empty string. */
  predicate Normalized(e: EventData) {
    && e.startTime != Some("")
    && e.endTime != Some("")
    && e.description != Some("")
  }

  /**
   * The payload written by the create and update mutations: the record with
   * an empty or missing start time, end time or description turned into
   * `null`, and every other field copied.
   */
  function NormalizePayload(e: EventData): (r: EventData)
    ensures Normalized(r)
    ensures r.id == e.id && r.eventTitle == e.eventTitle && r.eventDate == e.eventDate
    ensures Present(r.startTime) == Present(e.startTime) && (Present(e.startTime) ==> r.startTime == e.startTime)
    ensures Present(r.endTime) == Present(e.endTime) && (Present(e.endTime) ==> r.endTime == e.endTime)
    ensures Present(r.description) == Present(e.description) && (Present(e.description) ==> r.description == e.description)
  {
    e.(startTime := NullIfEmpty(e.startTime),
       endTime := NullIfEmpty(e.endTime),
       description := NullIfEmpty(e.description))
  }

  /** Normalising twice is normalising once. */
  lemma NormalizeIdempotent(e: EventData)
    ensures NormalizePayload(NormalizePayload(e)) == NormalizePayload(e)
  {
  }

  /** The normalised records are exactly the fixed points of the normalisation. */
  lemma NormalizeFixesNormalized(e: EventData)
    ensures NormalizePayload(e) == e <==> Normalized(e)
  {
  }

  const NoTimeSlot: string := "No Time Slot"

  /**
   * The events table's time-slot cell: "start - end" when both times are set,
   * the one time that is set, or "No Time Slot".
   */
  function TimeSlotLabel(start: Option<string>, end: Option<string>): (slot: string)
    ensures Present(start) && Present(end) ==> slot == start.value + " - " + end.value
    ensures Present(start) && !Present(end) ==> slot == start.value
    ensures !Present(start) && Present(end) ==> slot == end.value
    ensures !Present(start) && !Present(end) ==> slot == NoTimeSlot
  {
    if Present(start) && Present(end) then start.value + " - " + end.value
    else if Present(start) then start.value
    else if Present(end) then end.value
    else NoTimeSlot
  }

  /** Normalising a record before writing it does not change how its time slot reads. */
  lemma NormalizeKeepsTimeSlot(e: EventData)
    ensures TimeSlotLabel(NormalizePayload(e).startTime, NormalizePayload(e).endTime)
         == TimeSlotLabel(e.startTime, e.endTime)
  {
  }
}
