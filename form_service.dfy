/** Form versioning (`upsertForm`) and submission validation (`validateFormData`). */
module FormService {
  import opened Wrappers
  import opened Text
  import opened Timestamps
  import opened Patterns
  import opened EventModel
  import opened FormModel
  import opened RegistrationModel
  import opened SheetModel
  import opened Store

  // ---------------------------------------------------------------------------------------------
  // Validation
  // ---------------------------------------------------------------------------------------------

  /** The checks whose semantics the model leaves abstract: `new RegExp(pattern).test(text)`,
      `parseFloat(text) < min` and `parseFloat(text) > max`. */
  datatype FieldTests = FieldTests(
    patternMatches: (string, string) -> bool,
    lessThan: (string, int) -> bool,
    greaterThan: (string, int) -> bool)

  /** The validator's result object. */
  datatype ValidationResult = ValidationResult(isValid: bool, errors: map<string, string>)

  /** What one field contributes: nothing, an error message, or a thrown exception. */
  datatype FieldOutcome = NoError | FieldError(message: string) | Thrown(message: string)

  /** `String(value)`, the text a regular expression or `parseFloat` sees. */
  function AsText(v: Value): string
  {
    match v
    case Absent => "undefined"
    case Str(s) => s
    case List(items) => Join(items, ",")
  }

  /** `value.length`: UTF-16 code units of a string, entries of a list. */
  function ValueLength(v: Value): int
  {
    match v
    case Absent => 0
    case Str(s) => JsLength(s)
    case List(items) => |items|
  }

  const EmailMessage := "Invalid email format"
  const PhoneMessage := "Invalid phone number"
  /** The TypeError `value.replace(...)` raises on a list. */
  const ReplaceTypeError := "value.replace is not a function"

  function RequiredMessage(f: FormField): string
  {
    f.labelText + " is required"
  }

  /** The type-specific check (email or phone) as an optional message. */
  function TypeCheck(f: FormField, v: Value): Option<string>
  {
    if f.fieldType == Email && !IsEmail(AsText(v)) then Some(EmailMessage)
    else if f.fieldType == Phone && v.Str? && !IsPhone(StripSpacesAndHyphens(v.s)) then Some(PhoneMessage)
    else None
  }

  /** The five custom checks, in source order, each as an optional message. */
  function ConstraintChecks(f: FormField, c: Constraints, v: Value, tests: FieldTests): seq<Option<string>>
  {
    [MinLengthCheck(c, v), MaxLengthCheck(c, v), PatternCheck(f, c, v, tests), MinCheck(c, v, tests), MaxCheck(c, v, tests)]
  }

  function MinLengthCheck(c: Constraints, v: Value): Option<string>
  {
    if TruthyNumber(c.minLength) && ValueLength(v) < c.minLength.value
    then Some("Minimum " + IntToString(c.minLength.value) + " characters required") else None
  }

  function MaxLengthCheck(c: Constraints, v: Value): Option<string>
  {
    if TruthyNumber(c.maxLength) && ValueLength(v) > c.maxLength.value
    then Some("Maximum " + IntToString(c.maxLength.value) + " characters allowed") else None
  }

  function PatternCheck(f: FormField, c: Constraints, v: Value, tests: FieldTests): Option<string>
  {
    if c.pattern.Some? && c.pattern.value != "" && !tests.patternMatches(c.pattern.value, AsText(v))
    then Some("Invalid format for " + f.labelText) else None
  }

  function MinCheck(c: Constraints, v: Value, tests: FieldTests): Option<string>
  {
    if TruthyNumber(c.min) && tests.lessThan(AsText(v), c.min.value)
    then Some("Minimum value is " + IntToString(c.min.value)) else None
  }

  function MaxCheck(c: Constraints, v: Value, tests: FieldTests): Option<string>
  {
    if TruthyNumber(c.max) && tests.greaterThan(AsText(v), c.max.value)
    then Some("Maximum value is " + IntToString(c.max.value)) else None
  }

  /** Every check run on a truthy answer, in the order the source runs them. */
  function ChecksInOrder(f: FormField, v: Value, tests: FieldTests): seq<Option<string>>
  {
    [TypeCheck(f, v)] + (if f.validation.Some? then ConstraintChecks(f, f.validation.value, v, tests) else [])
  }

  /** The message of the last failing check: each failing check overwrites the one before. */
  function LastFailure(checks: seq<Option<string>>): Option<string>
  {
    if checks == [] then None
    else if checks[|checks| - 1].Some? then checks[|checks| - 1]
    else LastFailure(checks[..|checks| - 1])
  }

  /** `LastFailure` picks the failing check that no later check overrides, and finds none only
      when every check passed. */
  lemma {:induction false} LastFailureMeaning(checks: seq<Option<string>>)
    ensures LastFailure(checks).None? <==> forall k :: 0 <= k < |checks| ==> checks[k].None?
    ensures LastFailure(checks).Some? ==>
              exists k :: 0 <= k < |checks| && checks[k] == LastFailure(checks)
                          && forall j :: k < j < |checks| ==> checks[j].None?
  {
    if checks != [] && checks[|checks| - 1].None? {
      var init := checks[..|checks| - 1];
      LastFailureMeaning(init);
      assert forall k :: 0 <= k < |init| ==> init[k] == checks[k];
      if LastFailure(init).Some? {
        var k :| 0 <= k < |init| && init[k] == LastFailure(init) && forall j :: k < j < |init| ==> init[j].None?;
        assert checks[k] == LastFailure(checks);
      }
    }
  }

  /** The outcome of validating one field against its answer. */
  function CheckField(f: FormField, v: Value, tests: FieldTests): FieldOutcome
  {
    if f.required && Falsy(v) then FieldError(RequiredMessage(f))
    else if Falsy(v) then NoError
    else if f.fieldType == Phone && v.List? then Thrown(ReplaceTypeError)
    else match LastFailure(ChecksInOrder(f, v, tests))
      case None => NoError
      case Some(m) => FieldError(m)
  }

  /** The error map after the fields in order, or the exception that stopped the loop. */
  function Validation(formData: map<string, Value>, fields: seq<FormField>, tests: FieldTests): Result<map<string, string>, string>
  {
    if fields == [] then Ok(map[])
    else
      var f := fields[|fields| - 1];
      match Validation(formData, fields[..|fields| - 1], tests)
      case Err(e) => Err(e)
      case Ok(errors) =>
        match CheckField(f, Answer(formData, f.id), tests)
        case NoError => Ok(errors)
        case FieldError(m) => Ok(errors[f.id := m])
        case Thrown(m) => Err(m)
  }

  /** The error map after a field's checks: the last failure's message under the field's id, or
      the map as it was when every check passed. */
  function Recorded(errors: map<string, string>, id: string, failure: Option<string>): (r: map<string, string>)
    ensures failure.None? ==> r == errors
    ensures failure.Some? ==> r == errors[id := failure.value]
  {
    match failure
    case None => errors
    case Some(m) => errors[id := m]
  }

  /** One more check overwrites the field's entry when it fails and leaves the map otherwise. */
  lemma OneMoreCheck(errors: map<string, string>, id: string, done: seq<Option<string>>, check: Option<string>)
    ensures Recorded(errors, id, LastFailure(done + [check])) == Recorded(Recorded(errors, id, LastFailure(done)), id, check)
  {
    assert (done + [check])[..|done|] == done;
  }

  /** The checks in `checks` applied in turn, each overwriting the field's entry when it fails. */
  function RecordEach(m: map<string, string>, id: string, checks: seq<Option<string>>): map<string, string>
  {
    if checks == [] then m else Recorded(RecordEach(m, id, checks[..|checks| - 1]), id, checks[|checks| - 1])
  }

  /** Recording only the last failure of all the checks equals recording each failure in turn. */
  lemma {:induction false} RecordedAfter(errors: map<string, string>, id: string, done: seq<Option<string>>,
                                         more: seq<Option<string>>)
    ensures Recorded(errors, id, LastFailure(done + more)) == RecordEach(Recorded(errors, id, LastFailure(done)), id, more)
    decreases |more|
  {
    if more == [] {
      assert done + more == done;
    } else {
      var init := more[..|more| - 1];
      RecordedAfter(errors, id, done, init);
      OneMoreCheck(errors, id, done + init, more[|more| - 1]);
      assert done + more == (done + init) + [more[|more| - 1]];
    }
  }

  /** Runs the type and custom checks of one field with a truthy answer, overwriting the field's
      entry for every failing check. */
  method ApplyChecks(errors: map<string, string>, field: FormField, value: Value, tests: FieldTests)
    returns (result: map<string, string>)
    requires !Falsy(value) && !(field.fieldType == Phone && value.List?)
    ensures result == Recorded(errors, field.id, LastFailure(ChecksInOrder(field, value, tests)))
  {
    result := ApplyTypeCheck(errors, field, value);
    ghost var ran := [TypeCheck(field, value)];
    assert LastFailure(ran) == ran[0] by { assert ran[..0] == []; }
    if field.validation.Some? {
      var more := ConstraintChecks(field, field.validation.value, value, tests);
      result := ApplyConstraintChecks(result, field, field.validation.value, value, tests);
      RecordedAfter(errors, field.id, ran, more);
    }
  }

  /** The email or phone test of one field with a truthy answer. */
  method ApplyTypeCheck(errors: map<string, string>, field: FormField, value: Value) returns (result: map<string, string>)
    requires !Falsy(value) && !(field.fieldType == Phone && value.List?)
    ensures result == Recorded(errors, field.id, TypeCheck(field, value))
  {
    result := errors;
    if field.fieldType == Email {
      if !IsEmail(AsText(value)) {
        result := result[field.id := EmailMessage];
      }
    }
    if field.fieldType == Phone {
      if !IsPhone(StripSpacesAndHyphens(value.s)) {
        result := result[field.id := PhoneMessage];
      }
    }
  }

  /** The five custom checks in source order, each overwriting the field's entry when it fails. */
  method ApplyConstraintChecks(start: map<string, string>, field: FormField, c: Constraints, value: Value, tests: FieldTests)
    returns (result: map<string, string>)
    ensures result == RecordEach(start, field.id, ConstraintChecks(field, c, value, tests))
  {
    result := ApplyMinLength(start, field.id, c, value);
    result := ApplyMaxLength(result, field.id, c, value);
    result := ApplyPattern(result, field, c, value, tests);
    result := ApplyMin(result, field.id, c, value, tests);
    result := ApplyMax(result, field.id, c, value, tests);
    FiveInTurn(start, field.id, MinLengthCheck(c, value), MaxLengthCheck(c, value),
               PatternCheck(field, c, value, tests), MinCheck(c, value, tests), MaxCheck(c, value, tests));
  }

  /** Five checks recorded in turn, spelled out. */
  lemma FiveInTurn(m: map<string, string>, id: string,
                   a: Option<string>, b: Option<string>, c: Option<string>, d: Option<string>, e: Option<string>)
    ensures RecordEach(m, id, [a, b, c, d, e])
            == Recorded(Recorded(Recorded(Recorded(Recorded(m, id, a), id, b), id, c), id, d), id, e)
  {
    assert [a][..0] == [];
    assert RecordEach(m, id, []) == m;
    var m1 := RecordEach(m, id, [a]);
    assert m1 == Recorded(m, id, a);
    assert [a, b][..1] == [a];
    var m2 := RecordEach(m, id, [a, b]);
    assert m2 == Recorded(m1, id, b);
    assert [a, b, c][..2] == [a, b];
    var m3 := RecordEach(m, id, [a, b, c]);
    assert m3 == Recorded(m2, id, c);
    assert [a, b, c, d][..3] == [a, b, c];
    var m4 := RecordEach(m, id, [a, b, c, d]);
    assert m4 == Recorded(m3, id, d);
    assert [a, b, c, d, e][..4] == [a, b, c, d];
  }

  /** The `minLength` test: a shorter answer overwrites the field's entry. */
  method ApplyMinLength(errors: map<string, string>, id: string, c: Constraints, value: Value)
    returns (result: map<string, string>)
    ensures result == Recorded(errors, id, MinLengthCheck(c, value))
  {
    result := errors;
    if TruthyNumber(c.minLength) && ValueLength(value) < c.minLength.value {
      result := result[id := "Minimum " + IntToString(c.minLength.value) + " characters required"];
    }
  }

  /** The `maxLength` test: a longer answer overwrites the field's entry. */
  method ApplyMaxLength(errors: map<string, string>, id: string, c: Constraints, value: Value)
    returns (result: map<string, string>)
    ensures result == Recorded(errors, id, MaxLengthCheck(c, value))
  {
    result := errors;
    if TruthyNumber(c.maxLength) && ValueLength(value) > c.maxLength.value {
      result := result[id := "Maximum " + IntToString(c.maxLength.value) + " characters allowed"];
    }
  }

  /** The `pattern` test: a non-matching answer overwrites the field's entry. */
  method ApplyPattern(errors: map<string, string>, field: FormField, c: Constraints, value: Value, tests: FieldTests)
    returns (result: map<string, string>)
    ensures result == Recorded(errors, field.id, PatternCheck(field, c, value, tests))
  {
    result := errors;
    if c.pattern.Some? && c.pattern.value != "" && !tests.patternMatches(c.pattern.value, AsText(value)) {
      result := result[field.id := "Invalid format for " + field.labelText];
    }
  }

  /** The `min` test: a smaller answer overwrites the field's entry. */
  method ApplyMin(errors: map<string, string>, id: string, c: Constraints, value: Value, tests: FieldTests)
    returns (result: map<string, string>)
    ensures result == Recorded(errors, id, MinCheck(c, value, tests))
  {
    result := errors;
    if TruthyNumber(c.min) && tests.lessThan(AsText(value), c.min.value) {
      result := result[id := "Minimum value is " + IntToString(c.min.value)];
    }
  }

  /** The `max` test: a larger answer overwrites the field's entry. */
  method ApplyMax(errors: map<string, string>, id: string, c: Constraints, value: Value, tests: FieldTests)
    returns (result: map<string, string>)
    ensures result == Recorded(errors, id, MaxCheck(c, value, tests))
  {
    result := errors;
    if TruthyNumber(c.max) && tests.greaterThan(AsText(value), c.max.value) {
      result := result[id := "Maximum value is " + IntToString(c.max.value)];
    }
  }

  /** `FormService.validateFormData`: checks every field in schema order, filling the error map. */
  method ValidateFormData(formData: map<string, Value>, formFields: seq<FormField>, tests: FieldTests)
    returns (r: Result<ValidationResult, string>)
    ensures r.Ok? <==> Validation(formData, formFields, tests).Ok?
    ensures r.Ok? ==> r.value.errors == Validation(formData, formFields, tests).value
    ensures r.Ok? ==> (r.value.isValid <==> r.value.errors == map[])
    ensures r.Err? ==> r.error == Validation(formData, formFields, tests).error
  {
    var errors: map<string, string> := map[];
    var i := 0;
    while i < |formFields|
      invariant 0 <= i <= |formFields|
      invariant Validation(formData, formFields[..i], tests) == Ok(errors)
    {
      assert formFields[..i + 1][..i] == formFields[..i];
      var step := ValidateField(errors, formFields[i], Answer(formData, formFields[i].id), tests);
      if step.Err? {
        ErrPersists(formData, formFields, i + 1, tests);
        return Err(step.error);
      }
      errors := step.value;
      i := i + 1;
    }
    assert formFields[..i] == formFields;
    return Ok(ValidationResult(|errors.Keys| == 0, errors));
  }

  /** One pass of the loop: the required test, the skip of an empty optional answer, the phone
      `replace` on a list, then the type and custom checks. */
  method ValidateField(errors: map<string, string>, field: FormField, value: Value, tests: FieldTests)
    returns (r: Result<map<string, string>, string>)
    ensures r == match CheckField(field, value, tests)
                 case NoError => Ok(errors)
                 case FieldError(m) => Ok(errors[field.id := m])
                 case Thrown(m) => Err(m)
  {
    if field.required && (Falsy(value) || value == Str("")) {
      return Ok(errors[field.id := RequiredMessage(field)]);
    }
    if Falsy(value) {
      return Ok(errors);
    }
    if field.fieldType == Phone && value.List? {
      return Err(ReplaceTypeError);
    }
    var checked := ApplyChecks(errors, field, value, tests);
    return Ok(checked);
  }

  /** Once the loop has thrown, later fields do not change the outcome. */
  lemma {:induction false} ErrPersists(formData: map<string, Value>, fields: seq<FormField>, n: nat, tests: FieldTests)
    requires n <= |fields| && Validation(formData, fields[..n], tests).Err?
    ensures Validation(formData, fields, tests) == Validation(formData, fields[..n], tests)
    decreases |fields| - n
  {
    if n < |fields| {
      var m := |fields| - 1;
      assert fields[..m][..n] == fields[..n];
      ErrPersists(formData, fields[..m], n, tests);
    } else {
      assert fields[..n] == fields;
    }
  }

  predicate DistinctIds(fields: seq<FormField>)
  {
    forall i, j :: 0 <= i < j < |fields| ==> fields[i].id != fields[j].id
  }

  predicate IsFieldId(fields: seq<FormField>, id: string)
  {
    exists i :: 0 <= i < |fields| && fields[i].id == id
  }

  /** Every key of the error map is the id of some field of the schema. */
  lemma {:induction false} ErrorKeysAreFieldIds(formData: map<string, Value>, fields: seq<FormField>, tests: FieldTests)
    requires Validation(formData, fields, tests).Ok?
    ensures forall id :: id in Validation(formData, fields, tests).value ==> IsFieldId(fields, id)
  {
    if fields != [] {
      var init := fields[..|fields| - 1];
      ErrorKeysAreFieldIds(formData, init, tests);
      forall id | id in Validation(formData, fields, tests).value ensures IsFieldId(fields, id) {
        if id != fields[|fields| - 1].id {
          var i :| 0 <= i < |init| && init[i].id == id;
          assert fields[i].id == id;
        }
      }
    }
  }

  /** The loop throws exactly when some field's check throws (a list answer to a phone field). */
  lemma {:induction false} ValidationThrowsMeaning(formData: map<string, Value>, fields: seq<FormField>, tests: FieldTests)
    ensures Validation(formData, fields, tests).Err? <==>
              exists k :: 0 <= k < |fields| && CheckField(fields[k], Answer(formData, fields[k].id), tests).Thrown?
    ensures Validation(formData, fields, tests).Err? ==> Validation(formData, fields, tests).error == ReplaceTypeError
  {
    if fields != [] {
      var init := fields[..|fields| - 1];
      ValidationThrowsMeaning(formData, init, tests);
      assert forall k :: 0 <= k < |init| ==> init[k] == fields[k];
    }
  }

  /** With distinct field ids, a field has an entry exactly when its own checks fail, and the entry
      is its own message; errors on different fields accumulate independently. */
  lemma {:induction false} ErrorsPerField(formData: map<string, Value>, fields: seq<FormField>, tests: FieldTests)
    requires DistinctIds(fields)
    requires Validation(formData, fields, tests).Ok?
    ensures forall k :: 0 <= k < |fields| ==>
              var outcome := CheckField(fields[k], Answer(formData, fields[k].id), tests);
              && (fields[k].id in Validation(formData, fields, tests).value <==> outcome.FieldError?)
              && (outcome.FieldError? ==> Validation(formData, fields, tests).value[fields[k].id] == outcome.message)
  {
    if fields != [] {
      var n := |fields| - 1;
      var init := fields[..n];
      assert forall k :: 0 <= k < n ==> init[k] == fields[k];
      assert Validation(formData, init, tests).Ok?;
      ErrorsPerField(formData, init, tests);
      ErrorKeysAreFieldIds(formData, init, tests);
      assert !IsFieldId(init, fields[n].id);
    }
  }

  /** A required field with no answer (or an empty one) gets exactly the "is required" message. */
  lemma RequiredEmptyField(formData: map<string, Value>, fields: seq<FormField>, tests: FieldTests, k: nat)
    requires DistinctIds(fields) && k < |fields|
    requires Validation(formData, fields, tests).Ok?
    requires fields[k].required && Falsy(Answer(formData, fields[k].id))
    ensures fields[k].id in Validation(formData, fields, tests).value
    ensures Validation(formData, fields, tests).value[fields[k].id] == fields[k].labelText + " is required"
  {
    ErrorsPerField(formData, fields, tests);
  }

  /** An optional field with a falsy answer gets no entry. */
  lemma OptionalEmptyField(formData: map<string, Value>, fields: seq<FormField>, tests: FieldTests, k: nat)
    requires DistinctIds(fields) && k < |fields|
    requires Validation(formData, fields, tests).Ok?
    requires !fields[k].required && Falsy(Answer(formData, fields[k].id))
    ensures fields[k].id !in Validation(formData, fields, tests).value
  {
    ErrorsPerField(formData, fields, tests);
  }

  /** A bound of 0 is falsy and switches its check off, exactly as an absent bound does. */
  lemma ZeroBoundIgnored(c: Constraints, v: Value, tests: FieldTests)
    ensures MinLengthCheck(c.(minLength := Some(0)), v) == MinLengthCheck(c.(minLength := None), v) == None
    ensures MaxLengthCheck(c.(maxLength := Some(0)), v) == MaxLengthCheck(c.(maxLength := None), v) == None
    ensures MinCheck(c.(min := Some(0)), v, tests) == MinCheck(c.(min := None), v, tests) == None
    ensures MaxCheck(c.(max := Some(0)), v, tests) == MaxCheck(c.(max := None), v, tests) == None
  {
  }

  // ---------------------------------------------------------------------------------------------
  // Versioning
  // ---------------------------------------------------------------------------------------------

  datatype UpsertResult = UpsertResult(form: Form, warning: Option<string>)

  const EventNotFound := "Event not found"
  const NewVersionWarning := "Form updated. Changes will only apply to new registrations."

  /** `FormService.upsertForm`: retire-and-replace when the event has registrations, edit in place
      when it has none, create the first form (and set `hasForm`) when there is no active form. */
  method UpsertForm(db: Db, eventId: EventId, fields: seq<FormField>, now: Time)
    returns (r: Result<UpsertResult, string>)
    requires db.Valid()
    modifies db
    ensures db.Valid()
    ensures db.registrations == old(db.registrations) && db.sheets == old(db.sheets)
    ensures db.spreadsheets == old(db.spreadsheets) && db.nextEventId == old(db.nextEventId)
    ensures eventId !in old(db.events) ==> r == Err(EventNotFound) && db.forms == old(db.forms) && db.events == old(db.events)
    ensures eventId in old(db.events) ==>
      var stored := StoredFields(fields);
      var existing := ActiveForm(old(db.forms), eventId);
      var count := CountFor(old(db.registrations), eventId);
      if existing.Some? && count > 0 then
        // the old version is retired (and stays retired if the new one is refused)
        var retired := old(db.forms)[existing.value := old(db.forms)[existing.value].(isActive := false, updatedAt := now)];
        && db.events == old(db.events)
        && (FieldsError(stored).Some? ==> r == Err(FieldsError(stored).value) && db.forms == retired)
        && (FieldsError(stored).None? ==>
              && r == Ok(UpsertResult(NewForm(eventId, stored, now), Some(NewVersionWarning)))
              && db.forms == retired + [NewForm(eventId, stored, now)])
      else if existing.Some? then
        && db.events == old(db.events)
        && (FieldsError(stored).Some? ==> r == Err(FieldsError(stored).value) && db.forms == old(db.forms))
        && (FieldsError(stored).None? ==>
              var edited := old(db.forms)[existing.value].(fields := stored, updatedAt := now);
              && r == Ok(UpsertResult(edited, None))
              && db.forms == old(db.forms)[existing.value := edited])
      else
        && (FieldsError(stored).Some? ==> r == Err(FieldsError(stored).value) && db.forms == old(db.forms) && db.events == old(db.events))
        && (FieldsError(stored).None? ==>
              && r == Ok(UpsertResult(NewForm(eventId, stored, now), None))
              && db.forms == old(db.forms) + [NewForm(eventId, stored, now)]
              && db.events == old(db.events)[eventId := old(db.events)[eventId].(hasForm := true, updatedAt := now)])
  {
    if eventId !in db.events {
      return Err(EventNotFound);
    }
    var stored := StoredFields(fields);
    var existing := ActiveForm(db.forms, eventId);
    var registrationCount := CountFor(db.registrations, eventId);
    if existing.Some? && registrationCount > 0 {
      r := RetireAndReplace(db, eventId, existing.value, stored, now);
    } else if existing.Some? {
      r := EditInPlace(db, existing.value, stored, now);
    } else {
      r := CreateFirstForm(db, eventId, stored, now);
    }
  }

  /** The first branch: deactivate the active form, then create a new active version. */
  method RetireAndReplace(db: Db, eventId: EventId, k: nat, stored: seq<FormField>, now: Time)
    returns (r: Result<UpsertResult, string>)
    requires db.Valid() && eventId in db.events
    requires ActiveForm(db.forms, eventId) == Some(k)
    modifies db
    ensures db.Valid()
    ensures db.registrations == old(db.registrations) && db.sheets == old(db.sheets) && db.events == old(db.events)
    ensures db.spreadsheets == old(db.spreadsheets) && db.nextEventId == old(db.nextEventId)
    ensures var retired := old(db.forms)[k := old(db.forms)[k].(isActive := false, updatedAt := now)];
      && (FieldsError(stored).Some? ==> r == Err(FieldsError(stored).value) && db.forms == retired)
      && (FieldsError(stored).None? ==>
            && r == Ok(UpsertResult(NewForm(eventId, stored, now), Some(NewVersionWarning)))
            && db.forms == retired + [NewForm(eventId, stored, now)])
  {
    RetireKeepsConsistent(db.events, db.forms, k, now);
    db.forms := db.forms[k := db.forms[k].(isActive := false, updatedAt := now)];
    var invalid := FieldsError(stored);
    if invalid.Some? {
      return Err(invalid.value);
    }
    var newForm := NewForm(eventId, stored, now);
    AddActiveKeepsConsistent(db.events, db.forms, newForm);
    db.forms := db.forms + [newForm];
    return Ok(UpsertResult(newForm, Some(NewVersionWarning)));
  }

  /** The second branch: replace the active form's fields in place. */
  method EditInPlace(db: Db, k: nat, stored: seq<FormField>, now: Time)
    returns (r: Result<UpsertResult, string>)
    requires db.Valid() && k < |db.forms|
    modifies db
    ensures db.Valid()
    ensures db.registrations == old(db.registrations) && db.sheets == old(db.sheets) && db.events == old(db.events)
    ensures db.spreadsheets == old(db.spreadsheets) && db.nextEventId == old(db.nextEventId)
    ensures FieldsError(stored).Some? ==> r == Err(FieldsError(stored).value) && db.forms == old(db.forms)
    ensures FieldsError(stored).None? ==>
              var edited := old(db.forms)[k].(fields := stored, updatedAt := now);
              && r == Ok(UpsertResult(edited, None))
              && db.forms == old(db.forms)[k := edited]
  {
    var invalid := FieldsError(stored);
    if invalid.Some? {
      return Err(invalid.value);
    }
    var edited := db.forms[k].(fields := stored, updatedAt := now);
    EditKeepsConsistent(db.events, db.forms, k, edited);
    db.forms := db.forms[k := edited];
    return Ok(UpsertResult(edited, None));
  }

  /** The third branch: create the event's first form and set its `hasForm` flag. */
  method CreateFirstForm(db: Db, eventId: EventId, stored: seq<FormField>, now: Time)
    returns (r: Result<UpsertResult, string>)
    requires db.Valid() && eventId in db.events
    requires ActiveForm(db.forms, eventId) == None
    modifies db
    ensures db.Valid()
    ensures db.registrations == old(db.registrations) && db.sheets == old(db.sheets)
    ensures db.spreadsheets == old(db.spreadsheets) && db.nextEventId == old(db.nextEventId)
    ensures FieldsError(stored).Some? ==>
              r == Err(FieldsError(stored).value) && db.forms == old(db.forms) && db.events == old(db.events)
    ensures FieldsError(stored).None? ==>
              && r == Ok(UpsertResult(NewForm(eventId, stored, now), None))
              && db.forms == old(db.forms) + [NewForm(eventId, stored, now)]
              && db.events == old(db.events)[eventId := old(db.events)[eventId].(hasForm := true, updatedAt := now)]
  {
    var invalid := FieldsError(stored);
    if invalid.Some? {
      return Err(invalid.value);
    }
    var newForm := NewForm(eventId, stored, now);
    FirstFormKeepsConsistent(db.events, db.nextEventId, db.forms, db.registrations, db.sheets, db.spreadsheets, newForm, now);
    db.forms, db.events := db.forms + [newForm], db.events[eventId := db.events[eventId].(hasForm := true, updatedAt := now)];
    return Ok(UpsertResult(newForm, None));
  }

  /** Adding the first active form of an event and setting its flag keeps the store invariant. */
  lemma FirstFormKeepsConsistent(events: map<EventId, Event>, nextEventId: EventId, forms: seq<Form>,
                                 regs: seq<Registration>, sheets: map<EventId, SheetRecord>,
                                 spreadsheets: map<string, Spreadsheet>, f: Form, now: Time)
    requires Consistent(events, nextEventId, forms, regs, sheets, spreadsheets)
    requires f.eventId in events && f.isActive && ValidFields(f.fields)
    requires ActiveForm(forms, f.eventId) == None
    ensures Consistent(events[f.eventId := events[f.eventId].(hasForm := true, updatedAt := now)], nextEventId,
                       forms + [f], regs, sheets, spreadsheets)
  {
    var event := events[f.eventId].(hasForm := true, updatedAt := now);
    var events' := events[f.eventId := event];
    var forms' := forms + [f];
    assert EventsValid(events', nextEventId);
    assert FormsValid(forms', events') by {
      AddActiveKeepsConsistent(events, forms, f);
    }
    assert RegistrationsValid(regs, events') by {
      CountsKeepWhenFieldsChange(events, f.eventId, event, regs);
    }
    assert SheetsValid(sheets, events', spreadsheets);
  }

  /** Deactivating a form keeps the form invariants. */
  lemma RetireKeepsConsistent(events: map<EventId, Event>, forms: seq<Form>, k: nat, now: Time)
    requires FormsValid(forms, events) && k < |forms|
    ensures FormsValid(forms[k := forms[k].(isActive := false, updatedAt := now)], events)
  {
    var forms' := forms[k := forms[k].(isActive := false, updatedAt := now)];
    assert forall i :: 0 <= i < |forms| ==> forms'[i].eventId == forms[i].eventId;
    forall e | e in events ensures HasFormFor(forms', e) <==> HasFormFor(forms, e) {
      if HasFormFor(forms, e) {
        var i :| 0 <= i < |forms| && forms[i].eventId == e;
        assert forms'[i].eventId == e;
      }
    }
  }

  /** Replacing a form's fields by valid ones keeps the form invariants. */
  lemma EditKeepsConsistent(events: map<EventId, Event>, forms: seq<Form>, k: nat, edited: Form)
    requires FormsValid(forms, events) && k < |forms|
    requires edited.eventId == forms[k].eventId && edited.isActive == forms[k].isActive && ValidFields(edited.fields)
    ensures FormsValid(forms[k := edited], events)
  {
    var forms' := forms[k := edited];
    assert forall i :: 0 <= i < |forms| ==> forms'[i].eventId == forms[i].eventId;
    forall e | e in events ensures HasFormFor(forms', e) <==> HasFormFor(forms, e) {
      if HasFormFor(forms, e) {
        var i :| 0 <= i < |forms| && forms[i].eventId == e;
        assert forms'[i].eventId == e;
      }
    }
  }

  /** Appending an active form for an event that has none keeps the one-active-form rule. */
  lemma AddActiveKeepsConsistent(events: map<EventId, Event>, forms: seq<Form>, f: Form)
    requires FormsValid(forms, events)
    requires f.eventId in events && ValidFields(f.fields)
    requires forall i :: 0 <= i < |forms| ==> !IsActiveFor(forms[i], f.eventId)
    ensures AtMostOneActive(forms + [f])
    ensures forall i :: 0 <= i < |forms + [f]| ==> (forms + [f])[i].eventId in events && ValidFields((forms + [f])[i].fields)
    ensures forall e :: e in events && e != f.eventId ==> (HasFormFor(forms + [f], e) <==> HasFormFor(forms, e))
    ensures HasFormFor(forms + [f], f.eventId)
  {
    var forms' := forms + [f];
    assert forms'[|forms|] == f;
    forall e | e in events && e != f.eventId ensures HasFormFor(forms', e) <==> HasFormFor(forms, e) {
      if HasFormFor(forms', e) {
        var i :| 0 <= i < |forms'| && forms'[i].eventId == e;
        assert forms[i].eventId == e;
      }
      if HasFormFor(forms, e) {
        var i :| 0 <= i < |forms| && forms[i].eventId == e;
        assert forms'[i].eventId == e;
      }
    }
  }

  /** Changing an event's descriptive fields keeps the per-event counters right. */
  lemma CountsKeepWhenFieldsChange(events: map<EventId, Event>, e: EventId, event: Event, regs: seq<Registration>)
    requires e in events && event.totalRegistrations == events[e].totalRegistrations
    requires forall x :: x in events ==> events[x].totalRegistrations == CountFor(regs, x)
    ensures forall x :: x in events[e := event] ==> events[e := event][x].totalRegistrations == CountFor(regs, x)
  {
  }
}
