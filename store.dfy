/** The persistence layer and the spreadsheet service as one in-memory store. */
module Store {
  import opened Wrappers
  import opened EventModel
  import opened FormModel
  import opened RegistrationModel
  import opened SheetModel

  /** At most one active form per event. */
  predicate AtMostOneActive(forms: seq<Form>)
  {
    forall i, j :: 0 <= i < j < |forms| && forms[i].isActive && forms[j].isActive ==> forms[i].eventId != forms[j].eventId
  }

  predicate IsActiveFor(f: Form, eventId: EventId)
  {
    f.isActive && f.eventId == eventId
  }

  predicate HasFormFor(forms: seq<Form>, eventId: EventId)
  {
    exists i :: 0 <= i < |forms| && forms[i].eventId == eventId
  }

  /** `Form.findOne({ eventId, isActive: true })`: the position of the first active form. */
  function ActiveForm(forms: seq<Form>, eventId: EventId): (r: Option<nat>)
    ensures r.Some? ==> r.value < |forms| && IsActiveFor(forms[r.value], eventId)
    ensures r.Some? ==> forall i :: 0 <= i < r.value ==> !IsActiveFor(forms[i], eventId)
    ensures r.None? ==> forall i :: 0 <= i < |forms| ==> !IsActiveFor(forms[i], eventId)
  {
    if forms == [] then None
    else if forms[0].isActive && forms[0].eventId == eventId then Some(0)
    else match ActiveForm(forms[1..], eventId)
      case None => None
      case Some(k) => Some(k + 1)
  }

  /** Under the one-active-form rule, the active form found is the only active form of the event. */
  lemma ActiveFormUnique(forms: seq<Form>, eventId: EventId, i: nat)
    requires AtMostOneActive(forms)
    requires i < |forms| && IsActiveFor(forms[i], eventId)
    ensures ActiveForm(forms, eventId) == Some(i)
  {
  }

  predicate EventsValid(events: map<EventId, Event>, nextEventId: EventId)
  {
    forall e :: e in events ==> ValidEvent(events[e]) && e < nextEventId
  }

  predicate FormsValid(forms: seq<Form>, events: map<EventId, Event>)
  {
    && (forall i :: 0 <= i < |forms| ==> forms[i].eventId in events && ValidFields(forms[i].fields))
    && AtMostOneActive(forms)
    && (forall e :: e in events ==> (events[e].hasForm <==> HasFormFor(forms, e)))
  }

  predicate RegistrationsValid(regs: seq<Registration>, events: map<EventId, Event>)
  {
    && (forall i :: 0 <= i < |regs| ==> regs[i].eventId in events && ValidRegistration(regs[i]))
    && UniqueRegistrationIds(regs)
    && UniqueEventEmails(regs)
    && (forall e :: e in events ==> events[e].totalRegistrations == CountFor(regs, e))
  }

  predicate SheetsValid(sheets: map<EventId, SheetRecord>, events: map<EventId, Event>, spreadsheets: map<string, Spreadsheet>)
  {
    forall e :: e in sheets ==> e in events && events[e].status != Draft && sheets[e].sheetId in spreadsheets
  }

  /** The store invariant: schema rules, unique indices, the flag and counter every event carries,
      and one sync record per published event. */
  predicate Consistent(events: map<EventId, Event>, nextEventId: EventId, forms: seq<Form>,
                       regs: seq<Registration>, sheets: map<EventId, SheetRecord>,
                       spreadsheets: map<string, Spreadsheet>)
  {
    && EventsValid(events, nextEventId)
    && FormsValid(forms, events)
    && RegistrationsValid(regs, events)
    && SheetsValid(sheets, events, spreadsheets)
  }

  /** Replacing one registration by a valid record with the same id, event and email keeps the
      store invariant. */
  lemma ReplaceRegistrationKeepsConsistent(events: map<EventId, Event>, nextEventId: EventId, forms: seq<Form>,
                                           regs: seq<Registration>, sheets: map<EventId, SheetRecord>,
                                           spreadsheets: map<string, Spreadsheet>, index: nat, r: Registration)
    requires Consistent(events, nextEventId, forms, regs, sheets, spreadsheets)
    requires index < |regs| && ValidRegistration(r)
    requires r.registrationId == regs[index].registrationId && r.eventId == regs[index].eventId && r.email == regs[index].email
    ensures Consistent(events, nextEventId, forms, regs[index := r], sheets, spreadsheets)
  {
    var regs' := regs[index := r];
    forall e | e in events ensures events[e].totalRegistrations == CountFor(regs', e) {
      CountForSameEvents(regs, regs', e);
    }
  }

  /** Changing sync records without moving any to another spreadsheet, and adding or rewriting a
      spreadsheet under an id, keep the store invariant. */
  lemma SheetsChangeKeepsConsistent(events: map<EventId, Event>, nextEventId: EventId, forms: seq<Form>,
                                    regs: seq<Registration>, sheets: map<EventId, SheetRecord>,
                                    spreadsheets: map<string, Spreadsheet>,
                                    sheets': map<EventId, SheetRecord>, spreadsheets': map<string, Spreadsheet>)
    requires Consistent(events, nextEventId, forms, regs, sheets, spreadsheets)
    requires sheets'.Keys == sheets.Keys
    requires forall e :: e in sheets ==> sheets'[e].sheetId == sheets[e].sheetId
    requires spreadsheets.Keys <= spreadsheets'.Keys
    ensures Consistent(events, nextEventId, forms, regs, sheets', spreadsheets')
  {
    forall e | e in sheets' ensures e in events && events[e].status != Draft && sheets'[e].sheetId in spreadsheets' {
      assert e in sheets;
    }
  }

  class Db {
    var events: map<EventId, Event>
    var nextEventId: EventId
    var forms: seq<Form>
    var registrations: seq<Registration>
    var sheets: map<EventId, SheetRecord>
    var spreadsheets: map<string, Spreadsheet>

    ghost predicate Valid()
      reads this
    {
      Consistent(events, nextEventId, forms, registrations, sheets, spreadsheets)
    }

    constructor ()
      ensures Valid()
      ensures events == map[] && forms == [] && registrations == [] && sheets == map[] && spreadsheets == map[]
    {
      events, nextEventId, forms, registrations, sheets, spreadsheets := map[], 0, [], [], map[], map[];
    }
  }
}
