/** The events table and the controller that creates, updates, re-statuses
    and deletes its rows, with the validation rules of the three forms. */
module Events {
  import opened Wrappers
  import opened Dates
  import opened Validation

  /** One row of the `events` table. `kind` is the `type` column. */
  datatype Event = Event(
    id: int,
    title: string,
    date: Date,
    time: string,
    location: string,
    kind: string,
    description: string,
    status: string,
    createdAt: int)

  /** The seven validated fields of an event. */
  datatype EventData = EventData(
    title: string,
    date: Date,
    time: string,
    location: string,
    kind: string,
    description: string,
    status: string)

  /** The submitted event form; `None` for an absent or null input, and for a
      date that cannot be parsed. */
  datatype EventInput = EventInput(
    title: Option<string>,
    date: Option<Date>,
    time: Option<string>,
    location: Option<string>,
    kind: Option<string>,
    description: Option<string>,
    status: Option<string>)

  /** `in:current,upcoming`. */
  predicate KindOk(k: Option<string>) {
    k == Some("current") || k == Some("upcoming")
  }

  /** `in:current,upcoming,ended`. */
  predicate StatusOk(s: Option<string>) {
    s == Some("current") || s == Some("upcoming") || s == Some("ended")
  }

  /** The failing fields of the create/update form, in rule order. */
  function EventErrors(e: EventInput): (errs: seq<string>)
    ensures errs == [] <==> EventPasses(e)
  {
    Report(RequiredText(e.title, false), "title")
    + Report(DateOk(e.date), "date")
    + Report(Filled(e.time), "time")
    + Report(RequiredText(e.location, false), "location")
    + Report(KindOk(e.kind), "type")
    + Report(Filled(e.description), "description")
    + Report(StatusOk(e.status), "status")
  }

  /** Every rule of the create/update form holds. */
  predicate EventPasses(e: EventInput) {
    && RequiredText(e.title, false)
    && DateOk(e.date)
    && Filled(e.time)
    && RequiredText(e.location, false)
    && KindOk(e.kind)
    && Filled(e.description)
    && StatusOk(e.status)
  }

  /** `$request->validate([...])`: the seven fields, or the failing ones. */
  function ValidateEvent(e: EventInput): (res: Result<EventData, seq<string>>)
    ensures res.Ok? <==> EventPasses(e)
    ensures res.Err? ==> res.error == EventErrors(e) && res.error != []
    ensures res.Ok? ==>
      && res.value.title == e.title.value && res.value.date == e.date.value
      && res.value.time == e.time.value && res.value.location == e.location.value
      && res.value.kind == e.kind.value && res.value.description == e.description.value
      && res.value.status == e.status.value
    ensures res.Ok? ==> ValidEvent(res.value)
  {
    if EventPasses(e) then
      Ok(EventData(e.title.value, e.date.value, e.time.value, e.location.value,
                   e.kind.value, e.description.value, e.status.value))
    else
      Err(EventErrors(e))
  }

  /** What every validated event satisfies: the enums hold, the texts are
      filled and the title and location fit the column. */
  predicate ValidEvent(d: EventData) {
    && !Blank(d.title) && |d.title| <= MaxLength
    && IsValid(d.date)
    && !Blank(d.time)
    && !Blank(d.location) && |d.location| <= MaxLength
    && (d.kind == "current" || d.kind == "upcoming")
    && !Blank(d.description)
    && (d.status == "current" || d.status == "upcoming" || d.status == "ended")
  }

  /** A meeting or an activity never passes the form: the only event types
      are `current` and `upcoming`. */
  lemma NoMeetingsOrActivities(e: EventInput)
    requires e.kind == Some("meeting") || e.kind == Some("activity")
    ensures ValidateEvent(e).Err? && "type" in ValidateEvent(e).error
  {
  }

  /** The row after `$event->update($validated)`: all seven fields replaced,
      the id and creation time kept. */
  function Overwrite(ev: Event, d: EventData): (r: Event)
    ensures r.id == ev.id && r.createdAt == ev.createdAt
    ensures r.title == d.title && r.date == d.date && r.time == d.time && r.location == d.location
    ensures r.kind == d.kind && r.description == d.description && r.status == d.status
  {
    Event(ev.id, d.title, d.date, d.time, d.location, d.kind, d.description, d.status, ev.createdAt)
  }

  /** `Event::create($validated)`: a fresh row holding the seven fields. */
  function NewEvent(id: int, d: EventData, now: int): (r: Event)
    ensures r.id == id && r.createdAt == now
    ensures r.title == d.title && r.date == d.date && r.time == d.time && r.location == d.location
    ensures r.kind == d.kind && r.description == d.description && r.status == d.status
  {
    Event(id, d.title, d.date, d.time, d.location, d.kind, d.description, d.status, now)
  }

  /** How an event action ends. */
  datatype EventOutcome = Created(id: int) | Updated | Deleted | Invalid(errors: seq<string>) | NotFound

  class EventTable {
    var events: map<int, Event>
    var nextId: int

    /** Rows are stored under their own ids, below the next id. */
    ghost predicate Valid()
      reads this
    {
      forall id :: id in events ==> events[id].id == id && id < nextId
    }

    constructor()
      ensures Valid() && events == map[] && nextId == 1
    {
      events := map[];
      nextId := 1;
    }

    /** `store`: validate, then insert a new row at time `now`. */
    method Store(e: EventInput, now: int) returns (out: EventOutcome)
      requires Valid()
      modifies this
      ensures Valid()
      ensures ValidateEvent(e).Err? ==>
        out == Invalid(ValidateEvent(e).error) && events == old(events) && nextId == old(nextId)
      ensures ValidateEvent(e).Ok? ==>
        && out == Created(old(nextId)) && nextId == old(nextId) + 1
        && events == old(events)[old(nextId) := NewEvent(old(nextId), ValidateEvent(e).value, now)]
    {
      var v := ValidateEvent(e);
      if v.Err? {
        return Invalid(v.error);
      }
      var id := nextId;
      events := events[id := NewEvent(id, v.value, now)];
      nextId := nextId + 1;
      return Created(id);
    }

    /** `update` of event `id`: overwrite all seven fields with the
        validated ones. */
    method Update(id: int, e: EventInput) returns (out: EventOutcome)
      requires Valid()
      modifies this`events
      ensures Valid()
      ensures id !in old(events) ==> out == NotFound && events == old(events)
      ensures id in old(events) && ValidateEvent(e).Err? ==>
        out == Invalid(ValidateEvent(e).error) && events == old(events)
      ensures id in old(events) && ValidateEvent(e).Ok? ==>
        out == Updated && events == old(events)[id := Overwrite(old(events)[id], ValidateEvent(e).value)]
    {
      if id !in events {
        return NotFound;
      }
      var v := ValidateEvent(e);
      if v.Err? {
        return Invalid(v.error);
      }
      events := events[id := Overwrite(events[id], v.value)];
      return Updated;
    }

    /** `updateStatus` of event `id`: only the status changes. */
    method UpdateStatus(id: int, status: Option<string>) returns (out: EventOutcome)
      requires Valid()
      modifies this`events
      ensures Valid()
      ensures id !in old(events) ==> out == NotFound && events == old(events)
      ensures id in old(events) && !StatusOk(status) ==>
        out == Invalid(["status"]) && events == old(events)
      ensures id in old(events) && StatusOk(status) ==>
        out == Updated && events == old(events)[id := old(events)[id].(status := status.value)]
    {
      if id !in events {
        return NotFound;
      }
      if !StatusOk(status) {
        return Invalid(["status"]);
      }
      events := events[id := events[id].(status := status.value)];
      return Updated;
    }

    /** `destroy` of event `id`. */
    method Destroy(id: int) returns (out: EventOutcome)
      requires Valid()
      modifies this`events
      ensures Valid()
      ensures id !in old(events) ==> out == NotFound && events == old(events)
      ensures id in old(events) ==> out == Deleted && events == old(events) - {id}
    {
      if id !in events {
        return NotFound;
      }
      events := events - {id};
      return Deleted;
    }
  }
}
