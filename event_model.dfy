/** The event record, its enumerations and schema rules, and the `isRegistrationOpen` virtual. */
module EventModel {
  import opened Wrappers
  import opened Text
  import opened Timestamps

  /** Document identity of an event (the store hands out fresh ones). */
  type EventId = nat

  datatype Category = Technical | Cultural | Arts | Sports | Other

  datatype EventStatus = Draft | Published | Closed | Completed | Cancelled

  /** A stored event. `totalRegistrations` is `stats.totalRegistrations` (default 0, min 0). */
  datatype Event = Event(
    name: string,
    description: string,
    category: Category,
    eventDate: Time,
    eventTime: string,
    venue: string,
    registrationDeadline: Time,
    maxCapacity: Option<int>,
    requiresApproval: bool,
    rules: string,
    status: EventStatus,
    hasForm: bool,
    sheetId: Option<string>,
    totalRegistrations: nat,
    publishedAt: Option<Time>,
    closedAt: Option<Time>,
    updatedAt: Time)

  /** What a client submits to create an event (already past the route's zod check). */
  datatype EventInput = EventInput(
    name: string,
    description: string,
    category: Category,
    eventDate: Time,
    eventTime: string,
    venue: string,
    registrationDeadline: Time,
    maxCapacity: Option<int>,
    requiresApproval: bool,
    rules: string)

  /** The default status of a new event document. */
  const DefaultStatus := Draft

  function NameErrors(name: string): (errs: seq<string>)
    ensures errs == [] <==> 3 <= JsLength(name) <= 200
  {
    JsLengthBounds(name);
    if |name| == 0 then ["name: Event name is required"]
    else if JsLength(name) < 3 then ["name: Event name must be at least 3 characters"]
    else if JsLength(name) > 200 then ["name: Event name cannot exceed 200 characters"]
    else []
  }

  function DescriptionErrors(description: string): (errs: seq<string>)
    ensures errs == [] <==> 10 <= JsLength(description) <= 5000
  {
    JsLengthBounds(description);
    if |description| == 0 then ["description: Event description is required"]
    else if JsLength(description) < 10 then ["description: Description must be at least 10 characters"]
    else if JsLength(description) > 5000 then ["description: Description cannot exceed 5000 characters"]
    else []
  }

  function VenueErrors(venue: string): (errs: seq<string>)
    ensures errs == [] <==> 0 < |venue| && JsLength(venue) <= 200
  {
    JsLengthBounds(venue);
    if |venue| == 0 then ["venue: Venue is required"]
    else if JsLength(venue) > 200 then ["venue: Venue cannot exceed 200 characters"]
    else []
  }

  function RequiredErrors(value: string, path: string, message: string): (errs: seq<string>)
    ensures errs == [] <==> |value| > 0
  {
    if |value| == 0 then [path + ": " + message] else []
  }

  function CapacityErrors(maxCapacity: Option<int>): (errs: seq<string>)
    ensures errs == [] <==> (maxCapacity.Some? ==> maxCapacity.value >= 1)
  {
    if maxCapacity.Some? && maxCapacity.value < 1 then ["maxCapacity: Capacity must be at least 1"] else []
  }

  /** The Mongoose validation messages of the event schema, per path in schema order;
      a path reports its first failing validator only. */
  function SchemaErrors(e: Event): (errs: seq<string>)
    ensures errs == [] <==> ValidEvent(e)
  {
    NameErrors(e.name) + DescriptionErrors(e.description)
    + RequiredErrors(e.eventTime, "eventTime", "Event time is required")
    + VenueErrors(e.venue) + CapacityErrors(e.maxCapacity)
    + RequiredErrors(e.rules, "rules", "Event rules are required")
  }

  /** The schema's bounds on a stored (already trimmed) event. */
  predicate ValidEvent(e: Event)
  {
    && 3 <= JsLength(e.name) <= 200
    && 10 <= JsLength(e.description) <= 5000
    && |e.eventTime| > 0
    && 0 < |e.venue| && JsLength(e.venue) <= 200
    && (e.maxCapacity.Some? ==> e.maxCapacity.value >= 1)
    && |e.rules| > 0
  }

  /** The capacity test of `isRegistrationOpen`: a capacity is set and reached. */
  predicate CapacityFull(e: Event)
  {
    e.maxCapacity.Some? && e.totalRegistrations >= e.maxCapacity.value
  }

  /** The `isRegistrationOpen` virtual at instant `now`. */
  predicate IsRegistrationOpen(e: Event, now: Time)
  {
    var deadlinePassed := now > e.registrationDeadline;
    e.status == Published && !deadlinePassed && !CapacityFull(e)
  }

  /** Registration is open exactly when the event is published, the deadline has not passed and
      there is room left (or no capacity at all). */
  lemma RegistrationOpenMeaning(e: Event, now: Time)
    ensures IsRegistrationOpen(e, now) <==>
      e.status == Published && now <= e.registrationDeadline
      && (e.maxCapacity == None || e.totalRegistrations < e.maxCapacity.value)
  {
  }
}
