/** The event lifecycle (`eventService.ts`): creation, deletion of drafts, publishing with a
    spreadsheet, manual and automatic closing, and the listing's page arithmetic. */
module EventService {
  import opened Wrappers
  import opened Text
  import opened Timestamps
  import opened EventModel
  import opened FormModel
  import opened RegistrationModel
  import opened SheetModel
  import opened Store
  import opened Pagination
  import opened GoogleSheets
  import RegistrationService
  import FormService

  const EventNotFound := "Event not found"
  const EventValidationPrefix := "Event validation failed: "
  const PublishedDeleteMessage := "Cannot delete published event"
  const RegisteredDeleteMessage := "Cannot delete event with registrations"
  const AlreadyPublishedMessage := "Event is already published"
  const NoFormMessage := "Please create a registration form before publishing"

  // ---------------------------------------------------------------------------------------------
  // createEvent

  /** The document `Event.create` builds: strings trimmed by their setters, status `draft`, no
      form, no registrations, nothing published or closed yet. The approval flag is kept (see
      `StoredEventAsWritten` for what the schema does with it). */
  function StoredEvent(input: EventInput, now: Time): (e: Event)
    ensures e.status == Draft && !e.hasForm && e.totalRegistrations == 0
    ensures e.sheetId == None && e.publishedAt == None && e.closedAt == None && e.updatedAt == now
    ensures e.requiresApproval == input.requiresApproval
  {
    Event(Trim(input.name), Trim(input.description), input.category, input.eventDate, Trim(input.eventTime),
          Trim(input.venue), input.registrationDeadline, input.maxCapacity, input.requiresApproval, Trim(input.rules),
          Draft, false, None, 0, None, None, now)
  }

  /** What the schema as written stores: it declares no `requiresApproval` path, so strict mode
      drops the submitted flag and every event reads it as false. */
  function StoredEventAsWritten(input: EventInput, now: Time): Event
  {
    StoredEvent(input, now).(requiresApproval := false)
  }

  /** With the schema as written, an event created to require approval still admits every
      registration as approved. */
  lemma ApprovalDroppedAsWritten(input: EventInput, now: Time)
    requires input.requiresApproval
    ensures RegistrationService.InitialStatus(StoredEventAsWritten(input, now)) == Approved
    ensures RegistrationService.InitialStatus(StoredEvent(input, now)) == Pending
  {
  }

  /** The outcome of `Event.create`: the schema's messages behind "Event validation failed: ", or
      the stored event. */
  function Creation(input: EventInput, now: Time): (r: Result<Event, string>)
    ensures r.Ok? <==> ValidEvent(StoredEvent(input, now))
    ensures r.Ok? ==> r.value == StoredEvent(input, now)
    ensures r.Err? ==> r.error == EventValidationPrefix + Join(SchemaErrors(StoredEvent(input, now)), ", ")
  {
    var e := StoredEvent(input, now);
    var errs := SchemaErrors(e);
    if errs == [] then Ok(e) else Err(EventValidationPrefix + Join(errs, ", "))
  }

  /** A created event passes the schema with the trimmed name, description and venue within
      their bounds, and starts as a draft with no form and no registrations. */
  lemma CreatedEventMeaning(input: EventInput, now: Time)
    requires Creation(input, now).Ok?
    ensures var e := Creation(input, now).value;
            && 3 <= JsLength(Trim(input.name)) <= 200 && e.name == Trim(input.name)
            && 10 <= JsLength(Trim(input.description)) <= 5000 && e.description == Trim(input.description)
            && 0 < |Trim(input.venue)| && JsLength(Trim(input.venue)) <= 200 && e.venue == Trim(input.venue)
            && (input.maxCapacity.Some? ==> input.maxCapacity.value >= 1)
            && e.status == Draft && !e.hasForm && e.totalRegistrations == 0
            && !IsRegistrationOpen(e, now)
  {
  }

  lemma AddEventKeepsConsistent(events: map<EventId, Event>, nextEventId: EventId, forms: seq<Form>,
                                regs: seq<Registration>, sheets: map<EventId, SheetRecord>,
                                spreadsheets: map<string, Spreadsheet>, e: Event)
    requires Consistent(events, nextEventId, forms, regs, sheets, spreadsheets)
    requires ValidEvent(e) && !e.hasForm && e.totalRegistrations == 0
    ensures Consistent(events[nextEventId := e], nextEventId + 1, forms, regs, sheets, spreadsheets)
  {
    var events' := events[nextEventId := e];
    assert nextEventId !in events;
    assert EventsValid(events', nextEventId + 1) by {
      assert EventsValid(events, nextEventId);
    }
    assert FormsValid(forms, events') by {
      assert FormsValid(forms, events);
      assert !HasFormFor(forms, nextEventId);
    }
    assert RegistrationsValid(regs, events') by {
      assert RegistrationsValid(regs, events);
      CountForZero(regs, nextEventId);
    }
    assert SheetsValid(sheets, events', spreadsheets) by {
      assert SheetsValid(sheets, events, spreadsheets);
    }
  }

  /** `createEvent`: stores the event under a fresh id, or raises the schema's messages. */
  method CreateEvent(db: Db, input: EventInput, now: Time) returns (r: Result<EventId, string>)
    requires db.Valid()
    modifies db
    ensures db.Valid()
    ensures Creation(input, now).Err? ==>
              r == Err(Creation(input, now).error) && db.events == old(db.events) && db.nextEventId == old(db.nextEventId)
    ensures Creation(input, now).Ok? ==>
              && r == Ok(old(db.nextEventId)) && old(db.nextEventId) !in old(db.events)
              && db.events == old(db.events)[old(db.nextEventId) := StoredEvent(input, now)]
              && db.nextEventId == old(db.nextEventId) + 1
    ensures db.forms == old(db.forms) && db.registrations == old(db.registrations)
    ensures db.sheets == old(db.sheets) && db.spreadsheets == old(db.spreadsheets)
  {
    var created := Creation(input, now);
    if created.Err? {
      return Err(created.error);
    }
    var id := InsertEvent(db, created.value);
    r := Ok(id);
  }

  /** Stores a new draft under the next id. */
  method InsertEvent(db: Db, e: Event) returns (id: EventId)
    requires db.Valid()
    requires ValidEvent(e) && !e.hasForm && e.totalRegistrations == 0
    modifies db
    ensures db.Valid()
    ensures id == old(db.nextEventId) && id !in old(db.events)
    ensures db.events == old(db.events)[id := e] && db.nextEventId == id + 1
    ensures db.forms == old(db.forms) && db.registrations == old(db.registrations)
    ensures db.sheets == old(db.sheets) && db.spreadsheets == old(db.spreadsheets)
  {
    id := db.nextEventId;
    AddEventKeepsConsistent(db.events, db.nextEventId, db.forms, db.registrations, db.sheets, db.spreadsheets, e);
    db.events, db.nextEventId := db.events[id := e], id + 1;
  }

  // ---------------------------------------------------------------------------------------------
  // deleteEvent

  /** `Form.deleteMany({ eventId })`: the forms of other events, in their order. */
  function FormsWithout(forms: seq<Form>, eventId: EventId): (r: seq<Form>)
    ensures |r| <= |forms|
  {
    if forms == [] then []
    else FormsWithout(forms[..|forms| - 1], eventId) + (if forms[|forms| - 1].eventId == eventId then [] else [forms[|forms| - 1]])
  }

  /** Deleting an event's forms removes exactly those: every form left belongs to another event,
      and every form of another event is left. */
  lemma {:induction false} FormsWithoutMeaning(forms: seq<Form>, eventId: EventId)
    ensures forall f :: f in FormsWithout(forms, eventId) <==> f in forms && f.eventId != eventId
  {
    if forms != [] {
      var init := forms[..|forms| - 1];
      FormsWithoutMeaning(init, eventId);
      assert forms == init + [forms[|forms| - 1]];
    }
  }

  /** The kept forms still have at most one active form per event. */
  lemma {:induction false} FormsWithoutOneActive(forms: seq<Form>, eventId: EventId)
    requires AtMostOneActive(forms)
    ensures AtMostOneActive(FormsWithout(forms, eventId))
  {
    if forms != [] {
      var init := forms[..|forms| - 1];
      var last := forms[|forms| - 1];
      assert AtMostOneActive(init);
      FormsWithoutOneActive(init, eventId);
      FormsWithoutMeaning(init, eventId);
      var r := FormsWithout(forms, eventId);
      if last.eventId != eventId && last.isActive {
        forall i | 0 <= i < |r| - 1 && r[i].isActive ensures r[i].eventId != last.eventId {
          var k :| 0 <= k < |init| && init[k] == r[i];
        }
      }
    }
  }

  lemma DeleteKeepsConsistent(events: map<EventId, Event>, nextEventId: EventId, forms: seq<Form>,
                              regs: seq<Registration>, sheets: map<EventId, SheetRecord>,
                              spreadsheets: map<string, Spreadsheet>, eventId: EventId)
    requires Consistent(events, nextEventId, forms, regs, sheets, spreadsheets)
    requires eventId in events && events[eventId].status == Draft && CountFor(regs, eventId) == 0
    ensures Consistent(events - {eventId}, nextEventId, FormsWithout(forms, eventId), regs, sheets, spreadsheets)
  {
    DeleteKeepsForms(events, forms, eventId);
    CountForZero(regs, eventId);
  }

  lemma DeleteKeepsForms(events: map<EventId, Event>, forms: seq<Form>, eventId: EventId)
    requires FormsValid(forms, events)
    ensures FormsValid(FormsWithout(forms, eventId), events - {eventId})
  {
    var events' := events - {eventId};
    var forms' := FormsWithout(forms, eventId);
    FormsWithoutMeaning(forms, eventId);
    FormsWithoutOneActive(forms, eventId);
    forall i | 0 <= i < |forms'| ensures forms'[i].eventId in events' && ValidFields(forms'[i].fields) {
      assert forms'[i] in forms;
    }
    forall e | e in events' ensures HasFormFor(forms, e) <==> HasFormFor(forms', e) {
      if HasFormFor(forms, e) {
        var i :| 0 <= i < |forms| && forms[i].eventId == e;
        assert forms[i] in forms';
      }
      if HasFormFor(forms', e) {
        var i :| 0 <= i < |forms'| && forms'[i].eventId == e;
        assert forms'[i] in forms;
      }
    }
  }

  /** `deleteEvent`: only a draft with no registrations is deleted, together with its forms. */
  method DeleteEvent(db: Db, eventId: EventId) returns (r: Result<(), string>)
    requires db.Valid()
    modifies db
    ensures db.Valid()
    ensures eventId !in old(db.events) ==> r == Err(EventNotFound)
    ensures eventId in old(db.events) && old(db.events)[eventId].status != Draft ==> r == Err(PublishedDeleteMessage)
    ensures eventId in old(db.events) && old(db.events)[eventId].status == Draft && CountFor(old(db.registrations), eventId) > 0
            ==> r == Err(RegisteredDeleteMessage)
    ensures r.Err? ==> db.events == old(db.events) && db.forms == old(db.forms)
    ensures r.Ok? ==> && eventId in old(db.events) && old(db.events)[eventId].status == Draft
                      && CountFor(old(db.registrations), eventId) == 0
                      && db.events == old(db.events) - {eventId}
                      && db.forms == FormsWithout(old(db.forms), eventId)
    ensures db.registrations == old(db.registrations) && db.nextEventId == old(db.nextEventId)
    ensures db.sheets == old(db.sheets) && db.spreadsheets == old(db.spreadsheets)
  {
    if eventId !in db.events {
      return Err(EventNotFound);
    }
    if db.events[eventId].status != Draft {
      return Err(PublishedDeleteMessage);
    }
    var registrationCount := CountFor(db.registrations, eventId);
    if registrationCount > 0 {
      return Err(RegisteredDeleteMessage);
    }
    DeleteKeepsConsistent(db.events, db.nextEventId, db.forms, db.registrations, db.sheets, db.spreadsheets, eventId);
    var kept := FormsWithout(db.forms, eventId);
    db.forms := kept;
    db.events := db.events - {eventId};
    r := Ok(());
  }

  // ---------------------------------------------------------------------------------------------
  // publishEvent

  /** The event after a successful publish. */
  function PublishedEvent(e: Event, sheetId: string, now: Time): (p: Event)
    ensures p.status == Published && p.publishedAt == Some(now) && p.sheetId == Some(sheetId) && p.updatedAt == now
    ensures p == e.(status := p.status, publishedAt := p.publishedAt, sheetId := p.sheetId, updatedAt := p.updatedAt)
  {
    e.(status := Published, publishedAt := Some(now), sheetId := Some(sheetId), updatedAt := now)
  }

  /** The sync record `Sheet.create` stores: status `success`, zero counters, nothing synced yet. */
  function FirstSheetRecord(created: ProvisionedSheet): (s: SheetRecord)
    ensures s.lastSyncStatus == SyncSuccess && s.totalRowsSynced == 0 && s.failedSyncCount == 0
    ensures s.lastSyncError == None && s.lastSyncedAt == None && s.nextSyncAt == None
    ensures s.sheetId == created.sheetId && s.sheetUrl == created.sheetUrl && s.columnMapping == created.columnMapping
  {
    NewSheetRecord(created.sheetId, created.sheetUrl, created.columnMapping).(lastSyncStatus := SyncSuccess)
  }

  lemma PublishKeepsConsistent(events: map<EventId, Event>, nextEventId: EventId, forms: seq<Form>,
                               regs: seq<Registration>, sheets: map<EventId, SheetRecord>,
                               spreadsheets: map<string, Spreadsheet>, eventId: EventId, sheetId: string, now: Time,
                               rec: SheetRecord)
    requires Consistent(events, nextEventId, forms, regs, sheets, spreadsheets)
    requires eventId in events && rec.sheetId == sheetId && sheetId in spreadsheets
    ensures Consistent(events[eventId := PublishedEvent(events[eventId], sheetId, now)], nextEventId, forms, regs,
                       sheets[eventId := rec], spreadsheets)
  {
    var events' := events[eventId := PublishedEvent(events[eventId], sheetId, now)];
    var sheets' := sheets[eventId := rec];
    assert EventsValid(events', nextEventId) by {
      assert EventsValid(events, nextEventId);
    }
    assert FormsValid(forms, events') by {
      assert FormsValid(forms, events);
    }
    assert RegistrationsValid(regs, events') by {
      assert RegistrationsValid(regs, events);
    }
    assert SheetsValid(sheets', events', spreadsheets) by {
      assert SheetsValid(sheets, events, spreadsheets);
    }
  }

  /** `publishEvent`: a draft with an active form gets its spreadsheet, becomes published and gets
      its sync record. A provisioning failure leaves the event a draft and raises the error once
      more behind "Failed to create Google Sheet: ". */
  method PublishEvent(db: Db, eventId: EventId, now: Time, sheetId: string, fault: ProvisionFault)
    returns (r: Result<Event, string>)
    requires db.Valid()
    modifies db
    ensures db.Valid()
    ensures eventId !in old(db.events) ==> r == Err(EventNotFound)
    ensures eventId in old(db.events) && old(db.events)[eventId].status != Draft ==> r == Err(AlreadyPublishedMessage)
    ensures eventId in old(db.events) && old(db.events)[eventId].status == Draft && ActiveForm(old(db.forms), eventId).None?
            ==> r == Err(NoFormMessage)
    ensures r.Err? ==> db.events == old(db.events) && db.sheets == old(db.sheets)
    ensures r.Err? && !(eventId in old(db.events) && old(db.events)[eventId].status == Draft && ActiveForm(old(db.forms), eventId).Some?)
            ==> db.spreadsheets == old(db.spreadsheets)
    ensures r.Err? && eventId in old(db.events) && old(db.events)[eventId].status == Draft
            && ActiveForm(old(db.forms), eventId).Some? ==>
              && !fault.NoProvisionFault? && r.error == SheetCreationPrefix + SheetCreationPrefix + fault.message
              && (fault.CreateFailed? ==> db.spreadsheets == old(db.spreadsheets))
              && (fault.HeaderWriteFailed? ==>
                    db.spreadsheets == old(db.spreadsheets)[sheetId := NewGrid(old(db.events)[eventId].name,
                                         old(db.forms)[ActiveForm(old(db.forms), eventId).value].fields, [])])
              && (fault.FormatFailed? ==>
                    db.spreadsheets == old(db.spreadsheets)[sheetId := NewGrid(old(db.events)[eventId].name,
                                         old(db.forms)[ActiveForm(old(db.forms), eventId).value].fields,
                                         [HeaderRow(old(db.forms)[ActiveForm(old(db.forms), eventId).value].fields)])])
    ensures r.Ok? ==>
              && eventId in old(db.events) && old(db.events)[eventId].status == Draft
              && ActiveForm(old(db.forms), eventId).Some? && fault.NoProvisionFault?
              && r.value == PublishedEvent(old(db.events)[eventId], sheetId, now)
              && db.events == old(db.events)[eventId := r.value]
              && db.sheets == old(db.sheets)[eventId := FirstSheetRecord(ProvisionedSheet(sheetId, SheetUrl(sheetId),
                                 ColumnMapping(old(db.forms)[ActiveForm(old(db.forms), eventId).value].fields)))]
              && db.spreadsheets == old(db.spreadsheets)[sheetId := NewGrid(old(db.events)[eventId].name,
                                       old(db.forms)[ActiveForm(old(db.forms), eventId).value].fields,
                                       [HeaderRow(old(db.forms)[ActiveForm(old(db.forms), eventId).value].fields)])]
    ensures db.forms == old(db.forms) && db.registrations == old(db.registrations) && db.nextEventId == old(db.nextEventId)
  {
    if eventId !in db.events {
      return Err(EventNotFound);
    }
    var event := db.events[eventId];
    if event.status != Draft {
      return Err(AlreadyPublishedMessage);
    }
    var k := ActiveForm(db.forms, eventId);
    if k.None? {
      return Err(NoFormMessage);
    }
    r := ProvisionAndPublish(db, eventId, db.forms[k.value].fields, now, sheetId, fault);
  }

  /** The `try` block of `publishEvent`: the spreadsheet, the event update and the sync record. */
  method ProvisionAndPublish(db: Db, eventId: EventId, fields: seq<FormField>, now: Time, sheetId: string,
                             fault: ProvisionFault)
    returns (r: Result<Event, string>)
    requires db.Valid() && eventId in db.events
    modifies db
    ensures db.Valid()
    ensures r.Err? ==> && db.events == old(db.events) && db.sheets == old(db.sheets)
                       && !fault.NoProvisionFault? && r.error == SheetCreationPrefix + SheetCreationPrefix + fault.message
                       && (fault.CreateFailed? ==> db.spreadsheets == old(db.spreadsheets))
                       && (fault.HeaderWriteFailed? ==>
                             db.spreadsheets == old(db.spreadsheets)[sheetId := NewGrid(old(db.events)[eventId].name, fields, [])])
                       && (fault.FormatFailed? ==>
                             db.spreadsheets == old(db.spreadsheets)[sheetId := NewGrid(old(db.events)[eventId].name, fields, [HeaderRow(fields)])])
    ensures r.Ok? ==>
              && fault.NoProvisionFault?
              && r.value == PublishedEvent(old(db.events)[eventId], sheetId, now)
              && db.events == old(db.events)[eventId := r.value]
              && db.sheets == old(db.sheets)[eventId := FirstSheetRecord(ProvisionedSheet(sheetId, SheetUrl(sheetId), ColumnMapping(fields)))]
              && db.spreadsheets == old(db.spreadsheets)[sheetId := NewGrid(old(db.events)[eventId].name, fields, [HeaderRow(fields)])]
    ensures db.forms == old(db.forms) && db.registrations == old(db.registrations) && db.nextEventId == old(db.nextEventId)
  {
    var event := db.events[eventId];
    var created := CreateGoogleSheet(db, event.name, fields, sheetId, fault);
    if created.Err? {
      return Err(SheetCreationPrefix + created.error);
    }
    r := RecordPublication(db, eventId, now, created.value);
  }

  /** `event.save()` with the published status, then `Sheet.create`. */
  method RecordPublication(db: Db, eventId: EventId, now: Time, created: ProvisionedSheet) returns (r: Result<Event, string>)
    requires db.Valid() && eventId in db.events && created.sheetId in db.spreadsheets
    modifies db
    ensures db.Valid()
    ensures r == Ok(PublishedEvent(old(db.events)[eventId], created.sheetId, now))
    ensures db.events == old(db.events)[eventId := r.value]
    ensures db.sheets == old(db.sheets)[eventId := FirstSheetRecord(created)]
    ensures db.spreadsheets == old(db.spreadsheets)
    ensures db.forms == old(db.forms) && db.registrations == old(db.registrations) && db.nextEventId == old(db.nextEventId)
  {
    var published := PublishedEvent(db.events[eventId], created.sheetId, now);
    var record := FirstSheetRecord(created);
    PublishKeepsConsistent(db.events, db.nextEventId, db.forms, db.registrations, db.sheets, db.spreadsheets,
                           eventId, created.sheetId, now, record);
    db.events := db.events[eventId := published];
    db.sheets := db.sheets[eventId := record];
    r := Ok(published);
  }

  /** A published event is open until its deadline for as long as it has room. */
  lemma PublishedEventOpen(e: Event, sheetId: string, now: Time, t: Time)
    ensures IsRegistrationOpen(PublishedEvent(e, sheetId, now), t) <==> t <= e.registrationDeadline && !CapacityFull(e)
  {
  }

  // ---------------------------------------------------------------------------------------------
  // closeRegistrations and autoCloseRegistrations

  /** The `$set` of a close: status `closed`, `closedAt` and `updatedAt` at `now`. */
  function ClosedEvent(e: Event, now: Time): (c: Event)
    ensures c.status == Closed && c.closedAt == Some(now) && c.updatedAt == now
    ensures c == e.(status := c.status, closedAt := c.closedAt, updatedAt := c.updatedAt)
  {
    e.(status := Closed, closedAt := Some(now), updatedAt := now)
  }

  /** Rewriting events without touching their schema validity, counters or form flags, and
      without turning any back into a draft, keeps the store invariant. */
  lemma EventsChangeKeepsConsistent(events: map<EventId, Event>, nextEventId: EventId, forms: seq<Form>,
                                    regs: seq<Registration>, sheets: map<EventId, SheetRecord>,
                                    spreadsheets: map<string, Spreadsheet>, events': map<EventId, Event>)
    requires Consistent(events, nextEventId, forms, regs, sheets, spreadsheets)
    requires events'.Keys == events.Keys
    requires forall e :: e in events ==>
               && ValidEvent(events'[e])
               && events'[e].totalRegistrations == events[e].totalRegistrations
               && events'[e].hasForm == events[e].hasForm
               && (events[e].status != Draft ==> events'[e].status != Draft)
    ensures Consistent(events', nextEventId, forms, regs, sheets, spreadsheets)
  {
  }

  /** Closing one event keeps the store invariant. */
  lemma CloseKeepsConsistent(events: map<EventId, Event>, nextEventId: EventId, forms: seq<Form>,
                             regs: seq<Registration>, sheets: map<EventId, SheetRecord>,
                             spreadsheets: map<string, Spreadsheet>, eventId: EventId, now: Time)
    requires Consistent(events, nextEventId, forms, regs, sheets, spreadsheets) && eventId in events
    ensures Consistent(events[eventId := ClosedEvent(events[eventId], now)], nextEventId, forms, regs, sheets, spreadsheets)
  {
    var events' := events[eventId := ClosedEvent(events[eventId], now)];
    assert forall e :: e in events ==>
             && ValidEvent(events'[e])
             && events'[e].totalRegistrations == events[e].totalRegistrations
             && events'[e].hasForm == events[e].hasForm
             && (events[e].status != Draft ==> events'[e].status != Draft);
    EventsChangeKeepsConsistent(events, nextEventId, forms, regs, sheets, spreadsheets, events');
  }

  /** The deadline pass keeps the store invariant. */
  lemma DeadlinePassKeepsConsistent(events: map<EventId, Event>, nextEventId: EventId, forms: seq<Form>,
                                    regs: seq<Registration>, sheets: map<EventId, SheetRecord>,
                                    spreadsheets: map<string, Spreadsheet>, now: Time)
    requires Consistent(events, nextEventId, forms, regs, sheets, spreadsheets)
    ensures Consistent(map id | id in events :: DeadlineClosed(events[id], now), nextEventId, forms, regs, sheets, spreadsheets)
  {
    var events' := map id | id in events :: DeadlineClosed(events[id], now);
    forall e | e in events
      ensures && ValidEvent(events'[e])
              && events'[e].totalRegistrations == events[e].totalRegistrations
              && events'[e].hasForm == events[e].hasForm
              && (events[e].status != Draft ==> events'[e].status != Draft)
    {
      assert ValidEvent(events[e]);
    }
    EventsChangeKeepsConsistent(events, nextEventId, forms, regs, sheets, spreadsheets, events');
  }

  /** `closeRegistrations`: closes the event whatever its status was. */
  method CloseRegistrations(db: Db, eventId: EventId, now: Time) returns (r: Result<Event, string>)
    requires db.Valid()
    modifies db
    ensures db.Valid()
    ensures eventId !in old(db.events) ==> r == Err(EventNotFound) && db.events == old(db.events)
    ensures eventId in old(db.events) ==>
              && r == Ok(ClosedEvent(old(db.events)[eventId], now))
              && db.events == old(db.events)[eventId := r.value]
    ensures db.forms == old(db.forms) && db.registrations == old(db.registrations) && db.nextEventId == old(db.nextEventId)
    ensures db.sheets == old(db.sheets) && db.spreadsheets == old(db.spreadsheets)
  {
    if eventId !in db.events {
      return Err(EventNotFound);
    }
    var closed := ClosedEvent(db.events[eventId], now);
    CloseKeepsConsistent(db.events, db.nextEventId, db.forms, db.registrations, db.sheets, db.spreadsheets, eventId, now);
    db.events := db.events[eventId := closed];
    r := Ok(closed);
  }

  /** Once closed, an event admits no registration at any time: every submission fails the
      status check. */
  lemma ClosedEventAdmitsNoOne(events: map<EventId, Event>, forms: seq<Form>, regs: seq<Registration>, eventId: EventId,
                               closedAt: Time, formData: map<string, Value>, now: Time, year: int, random: nat,
                               tests: FormService.FieldTests)
    requires random < 1000000 && eventId in events
    ensures !IsRegistrationOpen(ClosedEvent(events[eventId], closedAt), now)
    ensures RegistrationService.Admission(events[eventId := ClosedEvent(events[eventId], closedAt)], forms, regs, eventId,
                                          formData, now, year, random, tests)
            == Err(RegistrationService.Failed(RegistrationService.NotOpenMessage))
  {
    RegistrationService.AdmissionChecksInOrder(events[eventId := ClosedEvent(events[eventId], closedAt)], forms, regs, eventId,
                                               formData, now, year, random, tests);
  }

  /** The `updateMany` on published events whose deadline is before `now`; its timestamps move
      `updatedAt`. */
  function DeadlineClosed(e: Event, now: Time): Event
  {
    if e.status == Published && e.registrationDeadline < now then ClosedEvent(e, now) else e
  }

  /** The loop body on a published event with a capacity: close it once the count reaches it. */
  function CapacityClosed(e: Event, now: Time): Event
  {
    if e.status == Published && e.maxCapacity.Some? && e.totalRegistrations >= e.maxCapacity.value then ClosedEvent(e, now) else e
  }

  /** An event after both passes of `autoCloseRegistrations`. */
  function AutoClosed(e: Event, now: Time): Event
  {
    CapacityClosed(DeadlineClosed(e, now), now)
  }

  /** After the auto-close an event is still published exactly when registration was open at
      `now`; a closed one was published before and got `closedAt = now`; any other event is left
      as it was, and the pass changes nothing but status, `closedAt` and `updatedAt`. */
  lemma AutoClosedMeaning(e: Event, now: Time)
    ensures AutoClosed(e, now).status == Published <==> IsRegistrationOpen(e, now)
    ensures e.status != Published ==> AutoClosed(e, now) == e
    ensures e.status == Published && !IsRegistrationOpen(e, now) ==> AutoClosed(e, now) == ClosedEvent(e, now)
    ensures IsRegistrationOpen(e, now) ==> AutoClosed(e, now) == e
  {
  }

  /** Running the auto-close twice at the same instant changes nothing the second time. */
  lemma AutoClosedIdempotent(e: Event, now: Time)
    ensures AutoClosed(AutoClosed(e, now), now) == AutoClosed(e, now)
  {
  }

  /** `autoCloseRegistrations`: the deadline pass over all events, then the capacity loop over the
      events still published that have a capacity. */
  method AutoCloseRegistrations(db: Db, now: Time)
    requires db.Valid()
    modifies db
    ensures db.Valid()
    ensures db.events.Keys == old(db.events).Keys
    ensures forall id :: id in old(db.events) ==> db.events[id] == AutoClosed(old(db.events)[id], now)
    ensures db.forms == old(db.forms) && db.registrations == old(db.registrations) && db.nextEventId == old(db.nextEventId)
    ensures db.sheets == old(db.sheets) && db.spreadsheets == old(db.spreadsheets)
  {
    CloseAfterDeadline(db, now);
    CloseAtCapacity(db, now);
  }

  /** The `updateMany` of `autoCloseRegistrations`: closes every published event whose deadline
      has passed. */
  method CloseAfterDeadline(db: Db, now: Time)
    requires db.Valid()
    modifies db
    ensures db.Valid()
    ensures db.events == map id | id in old(db.events) :: DeadlineClosed(old(db.events)[id], now)
    ensures db.forms == old(db.forms) && db.registrations == old(db.registrations) && db.nextEventId == old(db.nextEventId)
    ensures db.sheets == old(db.sheets) && db.spreadsheets == old(db.spreadsheets)
  {
    var events := map id | id in db.events :: DeadlineClosed(db.events[id], now);
    DeadlinePassKeepsConsistent(db.events, db.nextEventId, db.forms, db.registrations, db.sheets, db.spreadsheets, now);
    assert Consistent(events, db.nextEventId, db.forms, db.registrations, db.sheets, db.spreadsheets);
    db.events := events;
  }

  /** The loop of `autoCloseRegistrations` over `Event.find({ status: 'published', maxCapacity: { $ne: null } })`. */
  method CloseAtCapacity(db: Db, now: Time)
    requires db.Valid()
    modifies db
    ensures db.Valid()
    ensures db.events.Keys == old(db.events).Keys
    ensures forall id :: id in old(db.events) ==> db.events[id] == CapacityClosed(old(db.events)[id], now)
    ensures db.forms == old(db.forms) && db.registrations == old(db.registrations) && db.nextEventId == old(db.nextEventId)
    ensures db.sheets == old(db.sheets) && db.spreadsheets == old(db.spreadsheets)
  {
    var found := set id | id in db.events && db.events[id].status == Published && db.events[id].maxCapacity.Some?;
    var pending := found;
    assert ClosedOutside(old(db.events), db.events, pending, now);
    while pending != {}
      invariant db.Valid()
      invariant ClosedOutside(old(db.events), db.events, pending, now)
      invariant db.forms == old(db.forms) && db.registrations == old(db.registrations) && db.nextEventId == old(db.nextEventId)
      invariant db.sheets == old(db.sheets) && db.spreadsheets == old(db.spreadsheets)
      decreases pending
    {
      var id :| id in pending;
      ghost var before := db.events;
      CloseIfFull(db, id, now);
      ClosedOutsideStep(old(db.events), before, pending, id, now);
      pending := pending - {id};
    }
  }

  /** The loop invariant: the events outside `pending` went through the capacity test, the ones
      in it are untouched. */
  ghost predicate ClosedOutside(start: map<EventId, Event>, events: map<EventId, Event>, pending: set<EventId>, now: Time)
  {
    && events.Keys == start.Keys
    && pending <= start.Keys
    && (forall id :: id in start && id !in pending ==> events[id] == CapacityClosed(start[id], now))
    && (forall id :: id in pending ==> events[id] == start[id])
  }

  /** Closing one pending event moves it out of `pending`. */
  lemma ClosedOutsideStep(start: map<EventId, Event>, events: map<EventId, Event>, pending: set<EventId>, id: EventId, now: Time)
    requires ClosedOutside(start, events, pending, now) && id in pending
    ensures ClosedOutside(start, events[id := CapacityClosed(events[id], now)], pending - {id}, now)
  {
  }

  /** One iteration: a published event with a capacity is closed once its count reaches it. */
  method CloseIfFull(db: Db, id: EventId, now: Time)
    requires db.Valid() && id in db.events
    modifies db
    ensures db.Valid()
    ensures db.events == old(db.events)[id := CapacityClosed(old(db.events)[id], now)]
    ensures db.forms == old(db.forms) && db.registrations == old(db.registrations) && db.nextEventId == old(db.nextEventId)
    ensures db.sheets == old(db.sheets) && db.spreadsheets == old(db.spreadsheets)
  {
    var event := db.events[id];
    if event.status == Published && event.maxCapacity.Some? && event.totalRegistrations >= event.maxCapacity.value {
      CloseKeepsConsistent(db.events, db.nextEventId, db.forms, db.registrations, db.sheets, db.spreadsheets, id, now);
      db.events := db.events[id := ClosedEvent(event, now)];
    } else {
      assert db.events == db.events[id := event];
    }
  }

  // ---------------------------------------------------------------------------------------------
  // getEvents

  const EventPageSize := 10

  /** The `pagination` block of `getEvents` for `total` matching events. */
  function EventPage(total: nat, page: Option<int>, limit: Option<int>): (p: Page)
    ensures p.limit == (if TruthyNumber(limit) then limit.value else EventPageSize)
    ensures p.page == (if TruthyNumber(page) then page.value else 1)
    ensures p.skip == (p.page - 1) * p.limit
    ensures p.limit > 0 ==> (p.totalPages - 1) * p.limit < total <= p.totalPages * p.limit
  {
    Paginate(total, page, limit, EventPageSize)
  }
}
