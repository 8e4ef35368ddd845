/** Admission of a submission to an event, the helpers it uses, status changes and listing
    arithmetic (`RegistrationService`). */
module RegistrationService {
  import opened Wrappers
  import opened Text
  import opened Timestamps
  import opened Patterns
  import opened EventModel
  import opened FormModel
  import opened RegistrationModel
  import opened Store
  import opened FormService
  import opened Pagination
  import opened SheetModel

  // ---------------------------------------------------------------------------------------------
  // Registration ids

  /** `REG-<year>-<random zero-padded to six digits>`; `random` is the draw
      `Math.floor(Math.random() * 1000000)` and `year` the current calendar year. */
  function GenerateRegistrationId(year: int, random: nat): (id: string)
    requires random < 1000000
    ensures |id| == |IntToString(year)| + 11
    ensures id[..|IntToString(year)| + 5] == "REG-" + IntToString(year) + "-"
    ensures AllDigits(id[|id| - 6..]) && DigitsValue(id[|id| - 6..]) == random
  {
    var digits := NatToString(random);
    assert Power10(6) == 1000000;
    NatToStringLength(random, 6, 1000000);
    NatToStringValue(random);
    PadZerosValue(digits, 6);
    var id := "REG-" + IntToString(year) + "-" + PadStart(digits, 6, '0');
    assert id[|id| - 6..] == PadStart(digits, 6, '0');
    assert id[..|IntToString(year)| + 5] == "REG-" + IntToString(year) + "-";
    id
  }

  /** The id pattern `REG-\d{4}-\d{6}`. */
  predicate MatchesRegistrationIdPattern(s: string)
  {
    && |s| == 15
    && s[..4] == "REG-"
    && AllDigits(s[4..8])
    && s[8] == '-'
    && AllDigits(s[9..])
  }

  /** For a four-digit year the id `generateRegistrationId` builds is `REG-`, four digits, `-` and six digits. */
  lemma RegistrationIdShape(year: int, random: nat)
    requires 1000 <= year <= 9999 && random < 1000000
    ensures MatchesRegistrationIdPattern(GenerateRegistrationId(year, random))
  {
    assert Power10(3) == 1000 && Power10(4) == 10000;
    NatToStringWidth(year, 4);
    var id := GenerateRegistrationId(year, random);
    var y := IntToString(year);
    assert id[..9] == "REG-" + y + "-";
    assert id[4..8] == y;
  }

  /** Different draws in the same year give different ids. */
  lemma RegistrationIdInjective(year: int, r1: nat, r2: nat)
    requires r1 < 1000000 && r2 < 1000000
    requires GenerateRegistrationId(year, r1) == GenerateRegistrationId(year, r2)
    ensures r1 == r2
  {
  }

  // ---------------------------------------------------------------------------------------------
  // Quick-access fields

  /** The three categories `extractQuickAccessFields` fills. */
  datatype Slot = EmailSlot | NameSlot | PhoneSlot

  /** A label that, lower-cased, mentions "name" or "team". */
  predicate NameLike(labelText: string)
  {
    Contains(Lower(labelText), "name") || Contains(Lower(labelText), "team")
  }

  /** Whether a field's answer is a candidate for a category. */
  predicate Feeds(f: FormField, slot: Slot)
  {
    match slot
    case EmailSlot => f.fieldType == Email
    case NameSlot => NameLike(f.labelText)
    case PhoneSlot => f.fieldType == Phone
  }

  /** The category's value after the scan of `fields`: a candidate answer is taken whenever the
      value held so far is falsy. */
  function Picked(formData: map<string, Value>, fields: seq<FormField>, slot: Slot): Value
  {
    if fields == [] then Absent
    else
      var held := Picked(formData, fields[..|fields| - 1], slot);
      var f := fields[|fields| - 1];
      if Feeds(f, slot) && Falsy(held) then Answer(formData, f.id) else held
  }

  /** A truthy value is the answer of the first candidate field with a truthy answer; a falsy value
      means every candidate's answer was falsy, and with no candidate at all nothing is picked. */
  lemma {:induction false} PickedMeaning(formData: map<string, Value>, fields: seq<FormField>, slot: Slot)
    ensures !Falsy(Picked(formData, fields, slot)) ==>
              exists k :: 0 <= k < |fields| && Feeds(fields[k], slot)
                          && Answer(formData, fields[k].id) == Picked(formData, fields, slot)
                          && forall j :: 0 <= j < k && Feeds(fields[j], slot) ==> Falsy(Answer(formData, fields[j].id))
    ensures Falsy(Picked(formData, fields, slot)) <==>
              forall k :: 0 <= k < |fields| && Feeds(fields[k], slot) ==> Falsy(Answer(formData, fields[k].id))
    ensures (forall k :: 0 <= k < |fields| ==> !Feeds(fields[k], slot)) ==> Picked(formData, fields, slot) == Absent
  {
    if fields != [] {
      var init := fields[..|fields| - 1];
      PickedMeaning(formData, init, slot);
      assert forall k :: 0 <= k < |init| ==> init[k] == fields[k];
      var held := Picked(formData, init, slot);
      if !Falsy(held) {
        var k :| 0 <= k < |init| && Feeds(init[k], slot) && Answer(formData, init[k].id) == held
                 && forall j :: 0 <= j < k && Feeds(init[j], slot) ==> Falsy(Answer(formData, init[j].id));
        assert Feeds(fields[k], slot);
      }
    }
  }

  /** Once a category holds a truthy value, later fields never replace it. */
  lemma {:induction false} PickedNeverOverwritten(formData: map<string, Value>, fields: seq<FormField>, slot: Slot, n: nat)
    requires n <= |fields| && !Falsy(Picked(formData, fields[..n], slot))
    ensures Picked(formData, fields, slot) == Picked(formData, fields[..n], slot)
  {
    if n < |fields| {
      var init := fields[..|fields| - 1];
      assert init[..n] == fields[..n];
      PickedNeverOverwritten(formData, init, slot, n);
    } else {
      assert fields[..n] == fields;
    }
  }

  /** Scans the fields in schema order, filling each category only while it is still falsy. */
  method ExtractQuickAccessFields(formData: map<string, Value>, formFields: seq<FormField>)
    returns (email: Value, name: Value, phone: Value)
    ensures email == Picked(formData, formFields, EmailSlot)
    ensures name == Picked(formData, formFields, NameSlot)
    ensures phone == Picked(formData, formFields, PhoneSlot)
  {
    email, name, phone := Absent, Absent, Absent;
    for i := 0 to |formFields|
      invariant email == Picked(formData, formFields[..i], EmailSlot)
      invariant name == Picked(formData, formFields[..i], NameSlot)
      invariant phone == Picked(formData, formFields[..i], PhoneSlot)
    {
      var field := formFields[i];
      var value := Answer(formData, field.id);
      assert formFields[..i + 1][..i] == formFields[..i];
      if field.fieldType == Email && Falsy(email) {
        email := value;
      }
      if NameLike(field.labelText) && Falsy(name) {
        name := value;
      }
      if field.fieldType == Phone && Falsy(phone) {
        phone := value;
      }
    }
    assert formFields[..|formFields|] == formFields;
  }

  // ---------------------------------------------------------------------------------------------
  // Admission

  /** How an admission fails: with an error message, or with the validator's error map. */
  datatype AdmissionError = Failed(message: string) | Invalid(errors: map<string, string>)

  const NotOpenMessage := "Event is not open for registration"
  const DeadlineMessage := "Registration deadline has passed"
  const CapacityMessage := "Event has reached maximum capacity"
  const FormNotFoundMessage := "Registration form not found"
  const EmailRequiredMessage := "Email is required"
  const AlreadyRegisteredMessage := "You have already registered for this event"
  /** The schema's cast of a list into a string path fails the insert. */
  const CastFailedMessage := "Registration validation failed: Cast to string failed"
  /** The unique index on `registrationId` rejects the insert. */
  const DuplicateKeyMessage := "E11000 duplicate key error: registrationId"

  /** The stored form of an optional string path with the `trim` setter; a list does not cast. */
  function StoredText(v: Value): Result<Option<string>, string>
  {
    match v
    case Absent => Ok(None)
    case Str(s) => Ok(Some(Trim(s)))
    case List(_) => Err(CastFailedMessage)
  }

  /** `Registration.findOne({ eventId, email })`: the query casts the value through the email
      setters, and a list becomes an `$in` over its entries. */
  predicate DuplicateFound(regs: seq<Registration>, eventId: EventId, email: Value)
  {
    match email
    case Absent => false
    case Str(s) => HasEventEmail(regs, eventId, NormalizeEmail(s))
    case List(items) => exists i :: 0 <= i < |items| && HasEventEmail(regs, eventId, NormalizeEmail(items[i]))
  }

  /** The initial status: pending exactly when the event requires approval. */
  function InitialStatus(event: Event): (s: RegistrationStatus)
    ensures s == Pending <==> event.requiresApproval
    ensures s != Rejected
  {
    if event.requiresApproval then Pending else Approved
  }

  /** `Registration.create`: casting of the quick-access paths, then the unique index on the id. */
  function Insert(regs: seq<Registration>, event: Event, eventId: EventId, formData: map<string, Value>,
                  email: Value, name: Value, phone: Value, id: string, now: Time): Result<Registration, AdmissionError>
  {
    if !email.Str? || StoredText(name).Err? || StoredText(phone).Err? then Err(Failed(CastFailedMessage))
    else if HasRegistrationId(regs, id) then Err(Failed(DuplicateKeyMessage))
    else Ok(Registration(id, eventId, formData, NormalizeEmail(email.s), StoredText(name).value,
                         StoredText(phone).value, InitialStatus(event), None, None, None, None, now, now, None, None))
  }

  /** The checks that follow the choice of the active form's fields. */
  function AdmitAnswers(regs: seq<Registration>, event: Event, eventId: EventId, fields: seq<FormField>,
                        formData: map<string, Value>, now: Time, id: string, tests: FieldTests): Result<Registration, AdmissionError>
  {
    match Validation(formData, fields, tests)
    case Err(m) => Err(Failed(m))
    case Ok(errors) =>
      if errors != map[] then Err(Invalid(errors))
      else
        var email := Picked(formData, fields, EmailSlot);
        if Falsy(email) then Err(Failed(EmailRequiredMessage))
        else if DuplicateFound(regs, eventId, email) then Err(Failed(AlreadyRegisteredMessage))
        else Insert(regs, event, eventId, formData, email, Picked(formData, fields, NameSlot),
                    Picked(formData, fields, PhoneSlot), id, now)
  }

  /** The outcome of `createRegistration` on a store state: the fail-fast checks in source order,
      then the insert. */
  function Admission(events: map<EventId, Event>, forms: seq<Form>, regs: seq<Registration>, eventId: EventId,
                     formData: map<string, Value>, now: Time, year: int, random: nat, tests: FieldTests): Result<Registration, AdmissionError>
    requires random < 1000000
  {
    if eventId !in events then Err(Failed(EventNotFound))
    else AdmitToEvent(forms, regs, events[eventId], eventId, formData, now, GenerateRegistrationId(year, random), tests)
  }

  /** The checks on the event that was found, then the lookup of its active form. */
  function AdmitToEvent(forms: seq<Form>, regs: seq<Registration>, event: Event, eventId: EventId,
                        formData: map<string, Value>, now: Time, id: string, tests: FieldTests): Result<Registration, AdmissionError>
  {
    if event.status != Published then Err(Failed(NotOpenMessage))
    else if now > event.registrationDeadline then Err(Failed(DeadlineMessage))
    else if TruthyNumber(event.maxCapacity) && event.totalRegistrations >= event.maxCapacity.value then Err(Failed(CapacityMessage))
    else match ActiveForm(forms, eventId)
      case None => Err(Failed(FormNotFoundMessage))
      case Some(k) => AdmitAnswers(regs, event, eventId, forms[k].fields, formData, now, id, tests)
  }

  /** The event-level checks come first and in order: each fails with its own message exactly when
      the checks before it passed. */
  lemma AdmissionChecksInOrder(events: map<EventId, Event>, forms: seq<Form>, regs: seq<Registration>, eventId: EventId,
                               formData: map<string, Value>, now: Time, year: int, random: nat, tests: FieldTests)
    requires random < 1000000
    ensures var r := Admission(events, forms, regs, eventId, formData, now, year, random, tests);
            && (eventId !in events ==> r == Err(Failed(EventNotFound)))
            && (eventId in events && events[eventId].status != Published ==> r == Err(Failed(NotOpenMessage)))
            && (eventId in events && events[eventId].status == Published && now > events[eventId].registrationDeadline
                ==> r == Err(Failed(DeadlineMessage)))
            && (eventId in events && events[eventId].status == Published && now <= events[eventId].registrationDeadline
                && TruthyNumber(events[eventId].maxCapacity)
                && events[eventId].totalRegistrations >= events[eventId].maxCapacity.value
                ==> r == Err(Failed(CapacityMessage)))
            && (eventId in events && IsRegistrationOpen(events[eventId], now) && ActiveForm(forms, eventId).None?
                ==> r == Err(Failed(FormNotFoundMessage)))
  {
  }

  /** The event-level checks all pass: published, the deadline not passed, and no capacity reached. */
  predicate PassesEventChecks(event: Event, now: Time)
  {
    && event.status == Published
    && !(now > event.registrationDeadline)
    && !(TruthyNumber(event.maxCapacity) && event.totalRegistrations >= event.maxCapacity.value)
  }

  /** The checks on the answers follow in order: a thrown validation error, then the error map,
      then a missing email, then an earlier registration of the same email; past them all comes
      the insert. */
  lemma AnswerChecksInOrder(regs: seq<Registration>, event: Event, eventId: EventId, fields: seq<FormField>,
                            formData: map<string, Value>, now: Time, id: string, tests: FieldTests)
    ensures var r := AdmitAnswers(regs, event, eventId, fields, formData, now, id, tests);
            var v := Validation(formData, fields, tests);
            var email := Picked(formData, fields, EmailSlot);
            && (v.Err? ==> r == Err(Failed(v.error)))
            && (v.Ok? && v.value != map[] ==> r == Err(Invalid(v.value)))
            && (v == Ok(map[]) && Falsy(email) ==> r == Err(Failed(EmailRequiredMessage)))
            && (v == Ok(map[]) && !Falsy(email) && DuplicateFound(regs, eventId, email)
                ==> r == Err(Failed(AlreadyRegisteredMessage)))
            && (v == Ok(map[]) && !Falsy(email) && !DuplicateFound(regs, eventId, email)
                ==> r == Insert(regs, event, eventId, formData, email, Picked(formData, fields, NameSlot),
                                Picked(formData, fields, PhoneSlot), id, now))
  {
  }

  /** Once the event-level checks pass and the active form is found, the admission's outcome is
      decided by the checks on the answers, in their order. */
  lemma AdmissionAnswerChecksInOrder(events: map<EventId, Event>, forms: seq<Form>, regs: seq<Registration>,
                                     eventId: EventId, formData: map<string, Value>, now: Time, year: int,
                                     random: nat, tests: FieldTests)
    requires random < 1000000
    ensures eventId in events && PassesEventChecks(events[eventId], now) && ActiveForm(forms, eventId).Some? ==>
              var r := Admission(events, forms, regs, eventId, formData, now, year, random, tests);
              var fields := forms[ActiveForm(forms, eventId).value].fields;
              var v := Validation(formData, fields, tests);
              var email := Picked(formData, fields, EmailSlot);
              && (v.Err? ==> r == Err(Failed(v.error)))
              && (v.Ok? && v.value != map[] ==> r == Err(Invalid(v.value)))
              && (v == Ok(map[]) && Falsy(email) ==> r == Err(Failed(EmailRequiredMessage)))
              && (v == Ok(map[]) && !Falsy(email) && DuplicateFound(regs, eventId, email)
                  ==> r == Err(Failed(AlreadyRegisteredMessage)))
  {
    if eventId in events && PassesEventChecks(events[eventId], now) && ActiveForm(forms, eventId).Some? {
      var fields := forms[ActiveForm(forms, eventId).value].fields;
      var id := GenerateRegistrationId(year, random);
      assert Admission(events, forms, regs, eventId, formData, now, year, random, tests)
             == AdmitAnswers(regs, events[eventId], eventId, fields, formData, now, id, tests);
      AnswerChecksInOrder(regs, events[eventId], eventId, fields, formData, now, id, tests);
    }
  }

  /** For a schema-valid event the event-level checks pass exactly when `isRegistrationOpen`
      holds: a set capacity is at least one, so the truthiness test on it is the null test. */
  lemma EventChecksAreRegistrationOpen(event: Event, now: Time)
    requires ValidEvent(event)
    ensures (&& event.status == Published
             && !(now > event.registrationDeadline)
             && !(TruthyNumber(event.maxCapacity) && event.totalRegistrations >= event.maxCapacity.value))
            <==> IsRegistrationOpen(event, now)
  {
  }

  /** A registration is admitted only when the event is open, the active form's validation
      passed without errors, and an email was extracted; the new record carries that email
      normalised, the extracted name and phone, the submitted data and the initial status, and
      clashes with no existing id or (event, email) pair. */
  lemma AdmittedRegistration(events: map<EventId, Event>, forms: seq<Form>, regs: seq<Registration>, eventId: EventId,
                             formData: map<string, Value>, now: Time, year: int, random: nat, tests: FieldTests)
    requires random < 1000000
    requires eventId in events ==> ValidEvent(events[eventId])
    requires Admission(events, forms, regs, eventId, formData, now, year, random, tests).Ok?
    ensures eventId in events && IsRegistrationOpen(events[eventId], now)
    ensures ActiveForm(forms, eventId).Some?
    ensures AdmittedAnswers(regs, events[eventId], eventId, forms[ActiveForm(forms, eventId).value].fields, formData,
                            now, GenerateRegistrationId(year, random), tests,
                            Admission(events, forms, regs, eventId, formData, now, year, random, tests).value)
  {
    AdmissionReachesAnswers(events, forms, regs, eventId, formData, now, year, random, tests);
    var k := ActiveForm(forms, eventId).value;
    var id := GenerateRegistrationId(year, random);
    AdmitAnswersMeaning(regs, events[eventId], eventId, forms[k].fields, formData, now, id, tests);
  }

  /** An admission that succeeds got past the event-level checks to the active form's answers. */
  lemma AdmissionReachesAnswers(events: map<EventId, Event>, forms: seq<Form>, regs: seq<Registration>, eventId: EventId,
                                formData: map<string, Value>, now: Time, year: int, random: nat, tests: FieldTests)
    requires random < 1000000
    requires eventId in events ==> ValidEvent(events[eventId])
    requires Admission(events, forms, regs, eventId, formData, now, year, random, tests).Ok?
    ensures eventId in events && IsRegistrationOpen(events[eventId], now)
    ensures ActiveForm(forms, eventId).Some?
    ensures Admission(events, forms, regs, eventId, formData, now, year, random, tests)
            == AdmitAnswers(regs, events[eventId], eventId, forms[ActiveForm(forms, eventId).value].fields, formData,
                            now, GenerateRegistrationId(year, random), tests)
  {
  }

  /** What an admitted registration carries, given the active form's fields. */
  predicate AdmittedAnswers(regs: seq<Registration>, event: Event, eventId: EventId, fields: seq<FormField>,
                            formData: map<string, Value>, now: Time, id: string, tests: FieldTests, r: Registration)
  {
    var email := Picked(formData, fields, EmailSlot);
    && Validation(formData, fields, tests) == Ok(map[])
    && email.Str? && email.s != "" && r.email == NormalizeEmail(email.s)
    && StoredText(Picked(formData, fields, NameSlot)) == Ok(r.name)
    && StoredText(Picked(formData, fields, PhoneSlot)) == Ok(r.phone)
    && r.registrationId == id
    && r.eventId == eventId && r.formData == formData && r.status == InitialStatus(event)
    && r.submittedAt == now && r.sheetRowNumber.None? && r.lastSyncedAt.None?
    && ValidRegistration(r)
    && !HasRegistrationId(regs, r.registrationId)
    && !HasEventEmail(regs, eventId, r.email)
  }

  lemma AdmitAnswersMeaning(regs: seq<Registration>, event: Event, eventId: EventId, fields: seq<FormField>,
                            formData: map<string, Value>, now: Time, id: string, tests: FieldTests)
    requires id != ""
    requires AdmitAnswers(regs, event, eventId, fields, formData, now, id, tests).Ok?
    ensures AdmittedAnswers(regs, event, eventId, fields, formData, now, id, tests,
                            AdmitAnswers(regs, event, eventId, fields, formData, now, id, tests).value)
  {
    var email := Picked(formData, fields, EmailSlot);
    var name := Picked(formData, fields, NameSlot);
    var phone := Picked(formData, fields, PhoneSlot);
    assert Validation(formData, fields, tests) == Ok(map[]);
    assert !Falsy(email) && !DuplicateFound(regs, eventId, email);
    assert AdmitAnswers(regs, event, eventId, fields, formData, now, id, tests)
           == Insert(regs, event, eventId, formData, email, name, phone, id, now);
    InsertMeaning(regs, event, eventId, formData, email, name, phone, id, now);
    PickedEmailMatches(formData, fields, tests);
    NormalizedEmailIsStored(email.s);
  }

  /** What an insert that succeeds stores. */
  lemma InsertMeaning(regs: seq<Registration>, event: Event, eventId: EventId, formData: map<string, Value>,
                      email: Value, name: Value, phone: Value, id: string, now: Time)
    requires Insert(regs, event, eventId, formData, email, name, phone, id, now).Ok?
    ensures var r := Insert(regs, event, eventId, formData, email, name, phone, id, now).value;
            && email.Str? && r.email == NormalizeEmail(email.s)
            && StoredText(name) == Ok(r.name) && StoredText(phone) == Ok(r.phone)
            && r.registrationId == id && !HasRegistrationId(regs, id)
            && r.eventId == eventId && r.formData == formData && r.status == InitialStatus(event)
            && r.submittedAt == now && r.sheetRowNumber.None? && r.lastSyncedAt.None? && r.amountPaid.None?
  {
  }

  /** After a validation with no errors, a string picked as the email passed the email pattern. */
  lemma PickedEmailMatches(formData: map<string, Value>, fields: seq<FormField>, tests: FieldTests)
    requires Validation(formData, fields, tests) == Ok(map[])
    requires Picked(formData, fields, EmailSlot).Str? && Picked(formData, fields, EmailSlot).s != ""
    ensures IsEmail(Picked(formData, fields, EmailSlot).s)
  {
    var email := Picked(formData, fields, EmailSlot);
    CleanValidationPassesEveryField(formData, fields, tests);
    PickedMeaning(formData, fields, EmailSlot);
    var j :| 0 <= j < |fields| && Feeds(fields[j], EmailSlot) && Answer(formData, fields[j].id) == email
             && forall i :: 0 <= i < j && Feeds(fields[i], EmailSlot) ==> Falsy(Answer(formData, fields[i].id));
    assert CheckField(fields[j], email, tests) == NoError;
    var checks := ChecksInOrder(fields[j], email, tests);
    LastFailureMeaning(checks);
    assert checks[0] == TypeCheck(fields[j], email);
  }

  /** A validation that ends with no error means every field passed its checks. */
  lemma {:induction false} CleanValidationPassesEveryField(formData: map<string, Value>, fields: seq<FormField>, tests: FieldTests)
    requires Validation(formData, fields, tests) == Ok(map[])
    ensures forall k :: 0 <= k < |fields| ==> CheckField(fields[k], Answer(formData, fields[k].id), tests) == NoError
  {
    if fields != [] {
      var init := fields[..|fields| - 1];
      LastFieldClean(formData, fields, tests);
      CleanValidationPassesEveryField(formData, init, tests);
      assert forall k :: 0 <= k < |init| ==> init[k] == fields[k];
    }
  }

  /** A clean validation was clean before the last field, and the last field passed. */
  lemma LastFieldClean(formData: map<string, Value>, fields: seq<FormField>, tests: FieldTests)
    requires fields != [] && Validation(formData, fields, tests) == Ok(map[])
    ensures Validation(formData, fields[..|fields| - 1], tests) == Ok(map[])
    ensures CheckField(fields[|fields| - 1], Answer(formData, fields[|fields| - 1].id), tests) == NoError
  {
    LastFieldErrorRecorded(formData, fields, tests);
  }

  /** A failing last field leaves its entry in the error map. */
  lemma LastFieldErrorRecorded(formData: map<string, Value>, fields: seq<FormField>, tests: FieldTests)
    requires fields != [] && Validation(formData, fields, tests).Ok?
    ensures CheckField(fields[|fields| - 1], Answer(formData, fields[|fields| - 1].id), tests).FieldError? ==>
              fields[|fields| - 1].id in Validation(formData, fields, tests).value
  {
  }

  /** A submission whose email normalises to one already registered for the event is never
      admitted again under that email. */
  lemma DuplicateNeverAdmitted(events: map<EventId, Event>, forms: seq<Form>, regs: seq<Registration>, eventId: EventId,
                               formData: map<string, Value>, now: Time, year: int, random: nat, tests: FieldTests, email: string)
    requires random < 1000000
    requires HasEventEmail(regs, eventId, email)
    ensures Admission(events, forms, regs, eventId, formData, now, year, random, tests).Ok? ==>
              Admission(events, forms, regs, eventId, formData, now, year, random, tests).value.email != email
  {
    if Admission(events, forms, regs, eventId, formData, now, year, random, tests).Ok? {
      AdmissionReachesForm(events, forms, regs, eventId, formData, now, year, random, tests);
      var k := ActiveForm(forms, eventId).value;
      AdmitAnswersFresh(regs, events[eventId], eventId, forms[k].fields, formData, now, GenerateRegistrationId(year, random), tests);
    }
  }

  /** An admitted record's (event, email) pair is not yet registered. */
  lemma AdmitAnswersFresh(regs: seq<Registration>, event: Event, eventId: EventId, fields: seq<FormField>,
                          formData: map<string, Value>, now: Time, id: string, tests: FieldTests)
    requires AdmitAnswers(regs, event, eventId, fields, formData, now, id, tests).Ok?
    ensures !HasEventEmail(regs, eventId, AdmitAnswers(regs, event, eventId, fields, formData, now, id, tests).value.email)
  {
    var email := Picked(formData, fields, EmailSlot);
    var name := Picked(formData, fields, NameSlot);
    var phone := Picked(formData, fields, PhoneSlot);
    assert !Falsy(email) && !DuplicateFound(regs, eventId, email);
    assert AdmitAnswers(regs, event, eventId, fields, formData, now, id, tests)
           == Insert(regs, event, eventId, formData, email, name, phone, id, now);
    InsertMeaning(regs, event, eventId, formData, email, name, phone, id, now);
  }

  /** An admission that succeeds found the event and its active form. */
  lemma AdmissionReachesForm(events: map<EventId, Event>, forms: seq<Form>, regs: seq<Registration>, eventId: EventId,
                             formData: map<string, Value>, now: Time, year: int, random: nat, tests: FieldTests)
    requires random < 1000000
    requires Admission(events, forms, regs, eventId, formData, now, year, random, tests).Ok?
    ensures eventId in events && ActiveForm(forms, eventId).Some?
    ensures Admission(events, forms, regs, eventId, formData, now, year, random, tests)
            == AdmitAnswers(regs, events[eventId], eventId, forms[ActiveForm(forms, eventId).value].fields, formData,
                            now, GenerateRegistrationId(year, random), tests)
  {
  }

  /** Admission never takes an event past its capacity. */
  lemma AdmissionRespectsCapacity(events: map<EventId, Event>, forms: seq<Form>, regs: seq<Registration>, eventId: EventId,
                                  formData: map<string, Value>, now: Time, year: int, random: nat, tests: FieldTests)
    requires random < 1000000
    requires eventId in events && ValidEvent(events[eventId]) && events[eventId].maxCapacity.Some?
    requires Admission(events, forms, regs, eventId, formData, now, year, random, tests).Ok?
    ensures events[eventId].totalRegistrations + 1 <= events[eventId].maxCapacity.value
  {
  }

  /** The event after `totalRegistrations` is incremented; the timestamps plugin moves `updatedAt`. */
  function Counted(event: Event, now: Time): (e: Event)
    ensures e.totalRegistrations == event.totalRegistrations + 1 && e.updatedAt == now
    ensures e == event.(totalRegistrations := e.totalRegistrations, updatedAt := now)
  {
    event.(totalRegistrations := event.totalRegistrations + 1, updatedAt := now)
  }

  /** Adding an admitted registration and counting it on its event keeps the store invariant. */
  lemma AdmitKeepsConsistent(events: map<EventId, Event>, nextEventId: EventId, forms: seq<Form>, regs: seq<Registration>,
                             sheets: map<EventId, SheetRecord>, spreadsheets: map<string, Spreadsheet>,
                             r: Registration, event: Event, now: Time)
    requires Consistent(events, nextEventId, forms, regs, sheets, spreadsheets)
    requires r.eventId in events && events[r.eventId] == event && ValidRegistration(r)
    requires !HasRegistrationId(regs, r.registrationId) && !HasEventEmail(regs, r.eventId, r.email)
    ensures Consistent(events[r.eventId := Counted(event, now)],
                       nextEventId, forms, regs + [r], sheets, spreadsheets)
  {
    var events' := events[r.eventId := Counted(event, now)];
    AppendKeepsRegistrationsValid(regs, events, r, now);
    assert EventsValid(events', nextEventId) by {
      assert EventsValid(events, nextEventId);
    }
    assert FormsValid(forms, events') by {
      assert FormsValid(forms, events);
      assert forall e :: e in events' ==> events'[e].hasForm == events[e].hasForm;
    }
    assert SheetsValid(sheets, events', spreadsheets) by {
      assert SheetsValid(sheets, events, spreadsheets);
      assert forall e :: e in events' ==> events'[e].status == events[e].status;
    }
  }

  /** Adding a valid registration with a fresh id and a fresh (event, email) pair, and counting it
      on its event, keeps the registration invariants. */
  lemma AppendKeepsRegistrationsValid(regs: seq<Registration>, events: map<EventId, Event>, r: Registration, now: Time)
    requires RegistrationsValid(regs, events)
    requires r.eventId in events && ValidRegistration(r)
    requires !HasRegistrationId(regs, r.registrationId) && !HasEventEmail(regs, r.eventId, r.email)
    ensures var event := events[r.eventId];
            RegistrationsValid(regs + [r], events[r.eventId := Counted(event, now)])
  {
    var event := events[r.eventId];
    var events' := events[r.eventId := Counted(event, now)];
    var regs' := regs + [r];
    forall e | e in events' ensures events'[e].totalRegistrations == CountFor(regs', e) {
      CountForAppend(regs, r, e);
    }
    AppendKeepsUnique(regs, r);
  }

  /** The unique indices accept a record whose id and (event, email) pair are new. */
  lemma AppendKeepsUnique(regs: seq<Registration>, r: Registration)
    requires UniqueRegistrationIds(regs) && UniqueEventEmails(regs)
    requires !HasRegistrationId(regs, r.registrationId) && !HasEventEmail(regs, r.eventId, r.email)
    ensures UniqueRegistrationIds(regs + [r]) && UniqueEventEmails(regs + [r])
  {
    var regs' := regs + [r];
    assert forall i :: 0 <= i < |regs| ==> regs'[i] == regs[i];
    assert regs'[|regs|] == r;
  }

  /** `createRegistration`: runs the checks against the store and, when all pass, inserts the
      registration and adds one to its event's counter; a failure changes nothing. */
  method CreateRegistration(db: Db, eventId: EventId, formData: map<string, Value>, now: Time, year: int,
                            random: nat, tests: FieldTests)
    returns (r: Result<Registration, AdmissionError>)
    requires db.Valid() && random < 1000000
    modifies db
    ensures db.Valid()
    ensures r == Admission(old(db.events), old(db.forms), old(db.registrations), eventId, formData, now, year, random, tests)
    ensures r.Ok? ==>
              && db.registrations == old(db.registrations) + [r.value]
              && db.events == old(db.events)[eventId := Counted(old(db.events)[eventId], now)]
    ensures r.Err? ==> db.registrations == old(db.registrations) && db.events == old(db.events)
    ensures db.forms == old(db.forms) && db.sheets == old(db.sheets)
    ensures db.spreadsheets == old(db.spreadsheets) && db.nextEventId == old(db.nextEventId)
  {
    if eventId !in db.events {
      return Err(Failed(EventNotFound));
    }
    var event := db.events[eventId];
    var registrationId := GenerateRegistrationId(year, random);
    assert registrationId != "" && Admission(db.events, db.forms, db.registrations, eventId, formData, now, year, random, tests)
           == AdmitToEvent(db.forms, db.registrations, event, eventId, formData, now, registrationId, tests);
    r := AdmitToEventIn(db, event, eventId, formData, now, registrationId, tests);
  }

  /** The part of `createRegistration` after the event was found. */
  method AdmitToEventIn(db: Db, event: Event, eventId: EventId, formData: map<string, Value>, now: Time,
                        registrationId: string, tests: FieldTests)
    returns (r: Result<Registration, AdmissionError>)
    requires db.Valid() && eventId in db.events && db.events[eventId] == event && registrationId != ""
    modifies db
    ensures db.Valid()
    ensures r == AdmitToEvent(old(db.forms), old(db.registrations), event, eventId, formData, now, registrationId, tests)
    ensures r.Ok? ==>
              && db.registrations == old(db.registrations) + [r.value]
              && db.events == old(db.events)[eventId := Counted(event, now)]
    ensures r.Err? ==> db.registrations == old(db.registrations) && db.events == old(db.events)
    ensures db.forms == old(db.forms) && db.sheets == old(db.sheets)
    ensures db.spreadsheets == old(db.spreadsheets) && db.nextEventId == old(db.nextEventId)
  {
    if event.status != Published {
      return Err(Failed(NotOpenMessage));
    }
    if now > event.registrationDeadline {
      return Err(Failed(DeadlineMessage));
    }
    if TruthyNumber(event.maxCapacity) && event.totalRegistrations >= event.maxCapacity.value {
      return Err(Failed(CapacityMessage));
    }
    var k := ActiveForm(db.forms, eventId);
    if k.None? {
      return Err(Failed(FormNotFoundMessage));
    }
    r := AdmitToForm(db, event, eventId, db.forms[k.value].fields, formData, now, registrationId, tests);
  }

  /** The part of `createRegistration` after the active form was found: validation, extraction,
      the duplicate check and the insert. */
  method AdmitToForm(db: Db, event: Event, eventId: EventId, fields: seq<FormField>, formData: map<string, Value>,
                     now: Time, registrationId: string, tests: FieldTests)
    returns (r: Result<Registration, AdmissionError>)
    requires db.Valid() && eventId in db.events && db.events[eventId] == event && registrationId != ""
    modifies db
    ensures db.Valid()
    ensures r == AdmitAnswers(old(db.registrations), event, eventId, fields, formData, now, registrationId, tests)
    ensures r.Ok? ==>
              && db.registrations == old(db.registrations) + [r.value]
              && db.events == old(db.events)[eventId := Counted(event, now)]
    ensures r.Err? ==> db.registrations == old(db.registrations) && db.events == old(db.events)
    ensures db.forms == old(db.forms) && db.sheets == old(db.sheets)
    ensures db.spreadsheets == old(db.spreadsheets) && db.nextEventId == old(db.nextEventId)
  {
    var validation := ValidateFormData(formData, fields, tests);
    if validation.Err? {
      return Err(Failed(validation.error));
    }
    if !validation.value.isValid {
      return Err(Invalid(validation.value.errors));
    }
    var email, name, phone := ExtractQuickAccessFields(formData, fields);
    if Falsy(email) {
      return Err(Failed(EmailRequiredMessage));
    }
    if DuplicateFound(db.registrations, eventId, email) {
      return Err(Failed(AlreadyRegisteredMessage));
    }
    r := InsertAnswers(db, event, eventId, fields, formData, now, registrationId, tests);
  }

  /** `Registration.create` once validation, extraction and the duplicate check passed. */
  method InsertAnswers(db: Db, event: Event, eventId: EventId, fields: seq<FormField>, formData: map<string, Value>,
                       now: Time, registrationId: string, tests: FieldTests)
    returns (r: Result<Registration, AdmissionError>)
    requires db.Valid() && eventId in db.events && db.events[eventId] == event && registrationId != ""
    requires Validation(formData, fields, tests) == Ok(map[])
    requires !Falsy(Picked(formData, fields, EmailSlot))
    requires !DuplicateFound(db.registrations, eventId, Picked(formData, fields, EmailSlot))
    modifies db
    ensures db.Valid()
    ensures r == Insert(old(db.registrations), event, eventId, formData, Picked(formData, fields, EmailSlot),
                        Picked(formData, fields, NameSlot), Picked(formData, fields, PhoneSlot), registrationId, now)
    ensures r.Ok? ==>
              && db.registrations == old(db.registrations) + [r.value]
              && db.events == old(db.events)[eventId := Counted(event, now)]
    ensures r.Err? ==> db.registrations == old(db.registrations) && db.events == old(db.events)
    ensures db.forms == old(db.forms) && db.sheets == old(db.sheets)
    ensures db.spreadsheets == old(db.spreadsheets) && db.nextEventId == old(db.nextEventId)
  {
    var email, name, phone := Picked(formData, fields, EmailSlot), Picked(formData, fields, NameSlot), Picked(formData, fields, PhoneSlot);
    r := Insert(db.registrations, event, eventId, formData, email, name, phone, registrationId, now);
    CleanAnswersInsert(db.registrations, event, eventId, fields, formData, now, registrationId, tests);
    if r.Ok? {
      RecordAdmission(db, event, r.value, now);
    }
  }

  /** Once validation, extraction and the duplicate check passed, the outcome is the insert's,
      and a successful insert stores a record the store invariant accepts. */
  lemma CleanAnswersInsert(regs: seq<Registration>, event: Event, eventId: EventId, fields: seq<FormField>,
                           formData: map<string, Value>, now: Time, id: string, tests: FieldTests)
    requires id != ""
    requires Validation(formData, fields, tests) == Ok(map[])
    requires !Falsy(Picked(formData, fields, EmailSlot))
    requires !DuplicateFound(regs, eventId, Picked(formData, fields, EmailSlot))
    ensures var created := Insert(regs, event, eventId, formData, Picked(formData, fields, EmailSlot),
                                  Picked(formData, fields, NameSlot), Picked(formData, fields, PhoneSlot), id, now);
            && AdmitAnswers(regs, event, eventId, fields, formData, now, id, tests) == created
            && (created.Ok? ==>
                  && created.value.eventId == eventId && ValidRegistration(created.value)
                  && !HasRegistrationId(regs, created.value.registrationId)
                  && !HasEventEmail(regs, eventId, created.value.email))
  {
    if AdmitAnswers(regs, event, eventId, fields, formData, now, id, tests).Ok? {
      AdmitAnswersMeaning(regs, event, eventId, fields, formData, now, id, tests);
    }
  }

  /** The insert and the counter update of an admitted registration. */
  method RecordAdmission(db: Db, event: Event, reg: Registration, now: Time)
    requires db.Valid() && reg.eventId in db.events && db.events[reg.eventId] == event && ValidRegistration(reg)
    requires !HasRegistrationId(db.registrations, reg.registrationId) && !HasEventEmail(db.registrations, reg.eventId, reg.email)
    modifies db
    ensures db.Valid()
    ensures db.registrations == old(db.registrations) + [reg]
    ensures db.events == old(db.events)[reg.eventId := Counted(event, now)]
    ensures db.forms == old(db.forms) && db.sheets == old(db.sheets)
    ensures db.spreadsheets == old(db.spreadsheets) && db.nextEventId == old(db.nextEventId)
  {
    AdmitKeepsConsistent(db.events, db.nextEventId, db.forms, db.registrations, db.sheets, db.spreadsheets, reg, event, now);
    db.registrations, db.events := db.registrations + [reg],
      db.events[reg.eventId := Counted(event, now)];
  }

  // ---------------------------------------------------------------------------------------------
  // Status changes

  const RegistrationNotFound := "Registration not found"

  /** The record after a status change at instant `now`: the new status, the trimmed note or
      nothing, and a stamp for approval or rejection, as the interface declares them. */
  function StatusUpdated(reg: Registration, status: RegistrationStatus, note: Option<string>, now: Time): Registration
  {
    reg.(status := status,
         statusNote := if note.Some? && note.value != "" then Some(Trim(note.value)) else None,
         approvedAt := if status == Approved then Some(now) else reg.approvedAt,
         rejectedAt := if status == Rejected then Some(now) else reg.rejectedAt,
         updatedAt := now)
  }

  /** A status change touches the status, the note, the matching stamp and the modification time,
      and nothing else. */
  lemma StatusUpdateMeaning(reg: Registration, status: RegistrationStatus, note: Option<string>, now: Time)
    ensures var u := StatusUpdated(reg, status, note, now);
            && u.status == status
            && (u.statusNote.Some? <==> note.Some? && note.value != "")
            && (u.approvedAt == Some(now) || u.approvedAt == reg.approvedAt)
            && (status == Approved ==> u.approvedAt == Some(now) && u.rejectedAt == reg.rejectedAt)
            && (status == Rejected ==> u.rejectedAt == Some(now) && u.approvedAt == reg.approvedAt)
            && (status == Pending ==> u.approvedAt == reg.approvedAt && u.rejectedAt == reg.rejectedAt)
            && u.(status := reg.status, statusNote := reg.statusNote, approvedAt := reg.approvedAt,
                  rejectedAt := reg.rejectedAt, updatedAt := reg.updatedAt) == reg
  {
  }

  /** The status change as the code stores it: the schema has no `approvedAt` or `rejectedAt`
      path, so strict mode drops the stamps the service assigns and `save()` stores only the
      status, the note and the modification time. */
  function StatusUpdatedAsWritten(reg: Registration, status: RegistrationStatus, note: Option<string>, now: Time): Registration
  {
    reg.(status := status,
         statusNote := if note.Some? && note.value != "" then Some(Trim(note.value)) else None,
         updatedAt := now)
  }

  /** As written, a status change never moves either stamp, and differs from the intended update
      in the stamps only; approving a registration that was never approved stores no
      `approvedAt`, where the intended update stores the instant. */
  lemma StampsDroppedAsWritten(reg: Registration, status: RegistrationStatus, note: Option<string>, now: Time)
    ensures var w := StatusUpdatedAsWritten(reg, status, note, now);
            && w.approvedAt == reg.approvedAt && w.rejectedAt == reg.rejectedAt
            && w == StatusUpdated(reg, status, note, now).(approvedAt := reg.approvedAt, rejectedAt := reg.rejectedAt)
    ensures status == Approved && reg.approvedAt.None? ==>
              && StatusUpdatedAsWritten(reg, status, note, now).approvedAt.None?
              && StatusUpdated(reg, status, note, now).approvedAt == Some(now)
  {
  }

  /** `updateRegistrationStatus` on the registration at position `index`; the store keeps the
      stamps, as the interface at `src/lib/models/Registration.ts` intends. */
  method UpdateRegistrationStatus(db: Db, index: nat, status: RegistrationStatus, note: Option<string>, now: Time)
    returns (r: Result<Registration, string>)
    requires db.Valid()
    modifies db
    ensures db.Valid()
    ensures index >= |old(db.registrations)| ==> r == Err(RegistrationNotFound) && db.registrations == old(db.registrations)
    ensures index < |old(db.registrations)| ==>
              && r == Ok(StatusUpdated(old(db.registrations)[index], status, note, now))
              && db.registrations == old(db.registrations)[index := r.value]
    ensures db.events == old(db.events) && db.forms == old(db.forms) && db.sheets == old(db.sheets)
    ensures db.spreadsheets == old(db.spreadsheets) && db.nextEventId == old(db.nextEventId)
  {
    if index >= |db.registrations| {
      return Err(RegistrationNotFound);
    }
    var reg := db.registrations[index];
    var updated := reg.(status := status);
    updated := updated.(statusNote := if note.Some? && note.value != "" then Some(Trim(note.value)) else None);
    if status == Approved {
      updated := updated.(approvedAt := Some(now));
    } else if status == Rejected {
      updated := updated.(rejectedAt := Some(now));
    }
    updated := updated.(updatedAt := now);
    assert updated == StatusUpdated(reg, status, note, now);
    ReplaceRegistrationKeepsConsistent(db.events, db.nextEventId, db.forms, db.registrations, db.sheets, db.spreadsheets,
                                       index, updated);
    db.registrations := db.registrations[index := updated];
    r := Ok(updated);
  }

  // ---------------------------------------------------------------------------------------------
  // Listing

  /** Registrations are listed twenty to a page unless the caller says otherwise. */
  const RegistrationPageSize := 20

  /** The `pagination` block of `getRegistrations` for `total` matching registrations. */
  function RegistrationPage(total: nat, page: Option<int>, limit: Option<int>): (p: Page)
    ensures p.limit == (if TruthyNumber(limit) then limit.value else RegistrationPageSize)
    ensures p.page == (if TruthyNumber(page) then page.value else 1)
    ensures p.skip == (p.page - 1) * p.limit
    ensures p.limit > 0 ==> (p.totalPages - 1) * p.limit < total <= p.totalPages * p.limit
  {
    Paginate(total, page, limit, RegistrationPageSize)
  }
}
