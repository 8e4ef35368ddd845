# Event registration pipeline, modelled in Dafny

This project models the registration pipeline of an event-management web application: coordinators
create events, attach a versioned registration form, publish the event (which provisions a Google
spreadsheet) and close it; participants submit answers that are validated against the active form,
admitted under the event's capacity and deadline rules, stored, and mirrored one row per
registration into the event's spreadsheet.

The persistence layer (MongoDB through Mongoose) and the Google Sheets service are one in-memory
store, the class `Store.Db`:

- `events`: a map from event id to `EventModel.Event`, with fresh ids handed out from `nextEventId`;
- `forms`: the sequence of `FormModel.Form` versions, each with `isActive` and ordered fields;
- `registrations`: the sequence of `RegistrationModel.Registration` records (a position stands for
  the document's `_id`);
- `sheets`: the per-event `SheetModel.SheetRecord` sync records (one per event, by construction);
- `spreadsheets`: a map from spreadsheet id to `SheetModel.Spreadsheet`, whose `rows` are the grid
  (row `k` is `rows[k - 1]`).

`Db.Valid()` is the store invariant `Store.Consistent`: every event satisfies the schema bounds,
every form belongs to an event and has non-empty valid fields, at most one form per event is
active, `hasForm` holds exactly for events that have a form, registration ids are unique, an
email registers at most once per event, each event's `totalRegistrations` equals its number of
registrations, and every sync record points at an existing spreadsheet of a non-draft event.
Every state-changing method preserves it.

Modules follow the source files: `EventModel`, `FormModel`, `RegistrationModel` and `SheetModel`
(the Mongoose schemas), `Store`, `FormService`, `RegistrationService`, `GoogleSheets` and
`EventService`; `Text`, `Patterns`, `Timestamps`, `Pagination` and `Wrappers` hold the JavaScript
string operations, the two fixed regular expressions, `Date.prototype.toISOString`, the listing
arithmetic and `Option`/`Result`.

The clock (`new Date()`), `Math.random`, `getFullYear`, the id Google gives a new spreadsheet,
the failure of a Google call and the outcome of the failure bookkeeping are parameters of the
methods. The custom `pattern` check and the `parseFloat` bounds of the validator are opaque
functions bundled in `FormService.FieldTests`.

`validateFormData` returns a result object, but a list-valued answer to a phone field reaches
`value.replace` at `src/services/formService.ts:112`, which throws a `TypeError` that stops the
whole loop; the model returns that as `Err` (`FormService.ValidationThrowsMeaning`). The three
defects listed under "## Findings" are each modelled twice, and the rest of the model uses the
corrected definitions.

The form route checks only that the submitted `fields` form a non-empty array
(`src/app/api/events/[eventId]/form/route.ts:89-102`) before `upsertForm` stores them, so a field
may reach the schema with a `type` outside the enum, with no `type`, or with no `order`.
`FormModel.FieldType` therefore has `Unlisted` and `MissingType` beside the ten listed kinds, a
field's `order` is optional, and `FormModel.FieldFault` refuses such a field as the field schema
does.

String lengths are JavaScript's: `Text.JsLength` counts UTF-16 code units, as `value.length` and
Mongoose's `minlength`/`maxlength` do, so a character outside the Basic Multilingual Plane counts
twice.

## Model

| member | source | states |
|---|---|---|
| Text.LeadingWhitespace | src/lib/models/Event.ts:37-43 | the count of leading characters the `trim` setter removes: all of them white space, and the next one is not |
| Text.TrailingWhitespace | src/lib/models/Event.ts:37-43 | the count of trailing characters `trim` removes: all white space, and the one before them is not |
| Text.TrimStartNoop | src/lib/models/Registration.ts:46-53 | a string not starting with white space is unchanged by the start half of `trim` |
| Text.TrimEndNoop | src/lib/models/Registration.ts:46-53 | a string not ending with white space is unchanged by the end half of `trim` |
| Text.Trim | src/lib/models/Event.ts:37-43 | `trim` keeps the characters between the leading and the trailing white space in order, drops only white space on either side, and leaves a result that neither starts nor ends with white space |
| Text.TrimNoWhitespace | src/lib/models/Registration.ts:46-53 | `trim` leaves a string without white space as it is |
| Text.LowerChar | src/lib/models/Registration.ts:49 | lower-casing a character neither creates nor removes white space |
| Text.Lower | src/lib/models/Registration.ts:49 | `toLowerCase` keeps the length and maps every character on its own |
| Text.NatToString | src/services/registrationService.ts:14-15 | `toString` of a natural number is a non-empty string of digits |
| Text.NatToStringValue | src/services/registrationService.ts:14-15 | reading the digits of `toString` back gives the number: the rendering loses nothing |
| Text.NatToStringLength | src/services/registrationService.ts:14-16 | a number below 10^w has at most w digits, so a draw below 1000000 needs no more than the six places `padStart(6, '0')` fills |
| Text.NatToStringWidth | src/services/registrationService.ts:14-16 | a number between 10^(w-1) and 10^w has exactly w digits |
| Text.JsLengthBounds | src/services/formService.ts:119-125 | `value.length` of a string is between its character count and twice that, so it is zero only for the empty string |
| Text.JsLength | src/services/formService.ts:119-125 | definition of `value.length`: one code unit per character and one more per character outside the Basic Multilingual Plane; its bounds and both cases are the lemmas around it |
| Text.JsLengthBmp | src/services/formService.ts:119-125 | without characters outside the Basic Multilingual Plane `value.length` is the character count |
| Text.JsLengthAstral | src/services/formService.ts:119-125 | a single character outside the Basic Multilingual Plane makes `value.length` exceed the character count |
| Text.JsLengthEmoji | src/lib/models/Event.ts:37-43 | two emoji are two characters and four code units |
| Text.PadStart | src/services/registrationService.ts:16 | `padStart` yields the longer of the string and the width |
| Text.PadStartMeaning | src/services/registrationService.ts:16 | `padStart` puts fill characters before the unchanged string, just enough to reach the width |
| Text.PadZerosValue | src/services/registrationService.ts:16 | padding digits with zeros keeps them digits and keeps their value |
| Text.LeadingZeroValue | src/services/registrationService.ts:16 | one leading zero does not change a digit string's value |
| Patterns.EmailPatternExact | src/services/formService.ts:103-108 | the email test accepts exactly the language of `^\S+@\S+\.\S+$`: a non-blank run, '@', a non-blank run, '.', a non-blank run |
| Patterns.IsEmail | src/services/formService.ts:103-108 | definition of the email test, as a decision procedure; `EmailPatternExact` proves it decides exactly the regular expression's language |
| Patterns.EmailPatternSound | src/services/formService.ts:104-105 | every string the email test accepts is in the regular expression's language |
| Patterns.EmailPatternComplete | src/services/formService.ts:104-105 | every string in the regular expression's language passes the email test |
| Patterns.EmailLower | src/lib/models/Registration.ts:49-51 | lower-casing an address that matches the email pattern keeps it matching |
| Patterns.StripSpacesAndHyphens | src/services/formService.ts:112 | `replace(/[\s-]/g, '')` leaves no white space and no hyphen and never lengthens the text |
| Patterns.StripSpacesAndHyphensAppend | src/services/formService.ts:112 | the global replacement works character by character: the image of a concatenation is the concatenation of the images, so the kept characters keep their order |
| Patterns.StripSpacesAndHyphensKeeps | src/services/formService.ts:112 | a string with neither white space nor a hyphen is left exactly as it is |
| Patterns.PhonePatternExact | src/services/formService.ts:110-115 | the phone test accepts exactly `^\+?[1-9]\d{9,14}$`: an optional '+', a digit 1–9, then 9 to 14 digits |
| Patterns.IsPhone | src/services/formService.ts:110-115 | definition of the phone test on the stripped value, as a decision procedure; `PhonePatternExact` proves it decides exactly the regular expression's language |
| Timestamps.CivilFromDays | src/lib/api/googleSheets.ts:193 | definition of the proleptic Gregorian date of a day count that `toISOString` prints; `CivilFromDaysRanges` and `EveOfEpochDate` state it |
| Timestamps.CivilFromDaysRanges | src/lib/api/googleSheets.ts:193 | every day count, before or after the epoch, falls on a month from 1 to 12 and a day from 1 to 31 |
| Timestamps.EveOfEpochDate | src/lib/api/googleSheets.ts:193 | day -1 is 31 December 1969 |
| Timestamps.IsoString | src/lib/api/googleSheets.ts:193-217 | definition of `Date.prototype.toISOString` as used for `submittedAt` and `updatedAt` in the synced row: `YYYY-MM-DDTHH:mm:ss.sssZ`, with the day and the millisecond of the day split by floored division; `IsoStringEpoch` and `IsoStringBeforeEpoch` state it at two instants |
| Timestamps.IsoStringEpoch | src/lib/api/googleSheets.ts:193 | the epoch renders as "1970-01-01T00:00:00.000Z" |
| Timestamps.IsoStringBeforeEpoch | src/lib/api/googleSheets.ts:193 | the millisecond before the epoch renders as "1969-12-31T23:59:59.999Z": the day and the time of day are floored, not truncated |
| EventModel.NameErrors | src/lib/models/Event.ts:37-43 | the stored name gets no error exactly when it has 3 to 200 UTF-16 code units |
| EventModel.DescriptionErrors | src/lib/models/Event.ts:44-50 | the description gets no error exactly when it has 10 to 5000 code units |
| EventModel.VenueErrors | src/lib/models/Event.ts:68-73 | the venue gets no error exactly when it is non-empty and at most 200 code units |
| EventModel.RequiredErrors | src/lib/models/Event.ts:99-103 | a required string path gets no error exactly when it is non-empty |
| EventModel.CapacityErrors | src/lib/models/Event.ts:78-82 | the capacity is either absent (null) or at least 1, or it gets an error |
| EventModel.SchemaErrors | src/lib/models/Event.ts:35-152 | `Event.create` finds no validation error exactly when the event satisfies every schema bound |
| EventModel.ValidEvent | src/lib/models/Event.ts:35-152 | definition of the schema bounds on a stored event (name 3-200 and description 10-5000 code units, required event time, venue and rules, venue at most 200, capacity at least 1 when set); `SchemaErrors` states that `Event.create` reports no error exactly when they hold |
| EventModel.RegistrationOpenMeaning | src/lib/models/Event.ts:165-172 | `isRegistrationOpen` holds iff the event is published, the deadline has not passed, and it has no capacity or fewer registrations than the capacity |
| EventModel.IsRegistrationOpen | src/lib/models/Event.ts:165-172 | definition of the `isRegistrationOpen` virtual, with the clock as a parameter; its meaning is `RegistrationOpenMeaning` |
| EventModel.CapacityFull | src/lib/models/Event.ts:168-169 | definition of `capacityFull`: a capacity is set and the count has reached it |
| FormModel.NewField | src/lib/models/Form.ts:38-85 | a new field has `required` false and `validation`, `options`, `defaultValue`, `conditionalLogic`, `placeholder` and `helpText` null |
| FormModel.NewForm | src/lib/models/Form.ts:104-107 | a new form is active and holds the given event and fields |
| FormModel.StoredFields | src/lib/models/Form.ts:48-52 | storing fields keeps their number and order and trims each label |
| FormModel.FieldFault | src/lib/models/Form.ts:38-85 | a stored field is refused exactly when its `id`, `type`, `label` or `order` is missing or its `type` is outside the ten-value enum |
| FormModel.FirstInvalidField | src/lib/models/Form.ts:38-85 | finds the first field the field schema refuses, and none exactly when every field passes |
| FormModel.FieldsError | src/lib/models/Form.ts:38-102 | saving a form raises no error exactly when it has at least one field and every field has its id, a listed type, its label and its order |
| RegistrationModel.NormalizeEmail | src/lib/models/Registration.ts:49-50 | definition of the `lowercase` and `trim` setters on the email path; `NormalizedEmailIsStored` states that an address matching the pattern is stored lower case, trimmed and still matching |
| RegistrationModel.NormalizedEmailIsStored | src/lib/models/Registration.ts:46-53 | the lowercased, trimmed form of an address that matches the email pattern is lower case, trimmed and still matches |
| RegistrationModel.CountFor | src/lib/models/Event.ts:133-138 | an event's registration count never exceeds the number of registrations |
| RegistrationModel.CountForAppend | src/services/registrationService.ts:120-134 | adding one registration adds one to its event's count and nothing to any other |
| RegistrationModel.CountForZero | src/services/eventService.ts:136-140 | an event's count is zero exactly when no registration belongs to it |
| RegistrationModel.CountForSameEvents | src/services/registrationService.ts:213-223 | rewriting registrations without moving any between events keeps every count |
| SheetModel.NewSheetRecord | src/lib/models/Sheet.ts:43-70 | a new sync record is pending, with no error, no sync times and both counters at 0 |
| Store.Consistent | src/lib/models/Registration.ts:117-119 | definition of the store invariant: the schema rules of every record, the unique indexes on `registrationId` and on `(email, eventId)`, at most one active form per event, `hasForm` and `totalRegistrations` agreeing with the stored forms and registrations, at most one sync record per event, each for a non-draft event and an existing spreadsheet; `Store.Db.Valid` holds it, and `AdmitKeepsConsistent`, `DeleteKeepsConsistent`, `PublishKeepsConsistent` and the other `KeepsConsistent` lemmas show each operation keeps it |
| Store.ActiveForm | src/services/formService.ts:32 | `Form.findOne({ eventId, isActive: true })`: the first active form of the event, and none only when the event has no active form |
| Store.ActiveFormUnique | src/lib/models/Form.ts:115-117 | with at most one active form per event, the active form found is the only one |
| Store.ReplaceRegistrationKeepsConsistent | src/lib/models/Registration.ts:117-119 | replacing a registration by a valid one with the same id, event and email keeps the unique indexes and counters |
| Store.SheetsChangeKeepsConsistent | src/lib/models/Sheet.ts:78 | changing sync records without re-pointing them, and adding spreadsheets, keeps the store invariant |
| FormService.LastFailureMeaning | src/services/formService.ts:102-141 | a field's recorded message is that of the last failing check, with every later check passing, and there is none only when every check passed |
| FormService.LastFailure | src/services/formService.ts:102-141 | definition of the overwrite chain: the last check that failed, or none; its meaning is `LastFailureMeaning` |
| FormService.TypeCheck | src/services/formService.ts:102-115 | definition of the email and phone checks on a truthy answer; `ApplyTypeCheck` ties the source's branches to it |
| FormService.CheckField | src/services/formService.ts:88-141 | definition of one field's outcome: the required message, nothing for an empty optional answer, the `TypeError` of a list phone answer, or the last failing check; `ApplyChecks` and `ErrorsPerField` state it |
| FormService.Recorded | src/services/formService.ts:105-106 | a failing check writes its message under the field's id, and a passing check leaves the errors as they were |
| FormService.OneMoreCheck | src/services/formService.ts:102-141 | running one more check after some checks records what recording the checks one at a time records |
| FormService.RecordedAfter | src/services/formService.ts:102-141 | running checks in two groups records the same errors as running them all, in order |
| FormService.ApplyChecks | src/services/formService.ts:102-141 | a truthy answer's errors entry is the message of its last failing check, in the order type check, minLength, maxLength, pattern, min, max, or is untouched |
| FormService.ApplyTypeCheck | src/services/formService.ts:102-115 | the email or phone check records "Invalid email format" or "Invalid phone number" exactly when the answer fails its pattern |
| FormService.ApplyConstraintChecks | src/services/formService.ts:118-141 | the five custom checks run in source order, each overwriting the entry when it fails |
| FormService.FiveInTurn | src/services/formService.ts:118-141 | recording five checks in turn is recording each after the one before |
| FormService.ConstraintChecks | src/services/formService.ts:118-141 | definition of the five custom checks in source order (minLength, maxLength, pattern, min, max); `ApplyConstraintChecks` and `FiveInTurn` state that they run in that order, each failure overwriting the one before |
| FormService.MinLengthCheck | src/services/formService.ts:119-121 | definition of the `minLength` check; `ApplyMinLength` states it |
| FormService.MaxLengthCheck | src/services/formService.ts:123-125 | definition of the `maxLength` check; `ApplyMaxLength` states it |
| FormService.PatternCheck | src/services/formService.ts:127-132 | definition of the custom `pattern` check; `ApplyPattern` states it |
| FormService.MinCheck | src/services/formService.ts:134-136 | definition of the numeric `min` check; `ApplyMin` states it |
| FormService.MaxCheck | src/services/formService.ts:138-140 | definition of the numeric `max` check; `ApplyMax` states it |
| FormService.ApplyMinLength | src/services/formService.ts:119-121 | a non-zero `minLength` above the answer's length (code units of a string, entries of a list) records "Minimum n characters required" |
| FormService.ApplyMaxLength | src/services/formService.ts:123-125 | a non-zero `maxLength` below the answer's length records "Maximum n characters allowed" |
| FormService.ApplyPattern | src/services/formService.ts:127-132 | a non-empty custom pattern the answer does not match records "Invalid format for <label>" |
| FormService.ApplyMin | src/services/formService.ts:134-136 | a non-zero `min` above the answer's value records "Minimum value is n" |
| FormService.ApplyMax | src/services/formService.ts:138-140 | a non-zero `max` below the answer's value records "Maximum value is n" |
| FormService.ValidateFormData | src/services/formService.ts:84-148 | the loop gives the error map of the per-field rules, or the exception a field throws, and `isValid` holds iff the map is empty |
| FormService.Validation | src/services/formService.ts:84-148 | definition of the whole validation as a fold of `CheckField` over the fields, stopping at a thrown error; `ValidateFormData`, `ErrorsPerField` and `ValidationThrowsMeaning` state its meaning |
| FormService.ValidateField | src/services/formService.ts:93-141 | one iteration: a required empty field records "<label> is required", an optional empty one nothing, otherwise its checks' last failure |
| FormService.ErrPersists | src/services/formService.ts:90-142 | once a field throws, no later field changes the outcome: the exception escapes the loop |
| FormService.ErrorKeysAreFieldIds | src/services/formService.ts:88-147 | every key of the error map is the id of a schema field |
| FormService.ValidationThrowsMeaning | src/services/formService.ts:110-115 | validation throws exactly when some field is a phone field answered with a list, and then with the `replace` TypeError |
| FormService.ErrorsPerField | src/services/formService.ts:88-147 | with distinct ids, a field has an entry exactly when its own checks fail, and the entry is its own message: errors on different fields accumulate independently |
| FormService.RequiredEmptyField | src/services/formService.ts:93-97 | a required field with no or an empty answer gets exactly "<label> is required" |
| FormService.OptionalEmptyField | src/services/formService.ts:99-100 | an optional field with a falsy answer gets no entry |
| FormService.ZeroBoundIgnored | src/services/formService.ts:119-140 | a bound of 0 behaves as no bound, because the test is on truthiness |
| FormService.UpsertForm | src/services/formService.ts:22-79 | a missing event gives "Event not found"; an active form on an event with registrations is retired and a new active version added with the warning; an active form on an event without registrations is edited in place with no warning; with no form a first active form is added and `hasForm` set; invalid fields are refused, and nothing else in the store changes |
| FormService.RetireAndReplace | src/services/formService.ts:37-51 | the old version is deactivated (and stays so when the new fields are refused), and the new active version is appended with the "only apply to new registrations" warning |
| FormService.EditInPlace | src/services/formService.ts:52-61 | the active form's fields are replaced in place, with a null warning |
| FormService.CreateFirstForm | src/services/formService.ts:62-78 | a first active form is appended and the event's `hasForm` becomes true |
| FormService.FirstFormKeepsConsistent | src/services/formService.ts:62-78 | adding an event's first form and setting its flag keeps the store invariant |
| FormService.RetireKeepsConsistent | src/services/formService.ts:39-40 | deactivating a form keeps at most one active form per event and every flag |
| FormService.EditKeepsConsistent | src/services/formService.ts:53-56 | replacing a form's fields by valid ones keeps the form rules |
| FormService.AddActiveKeepsConsistent | src/services/formService.ts:42-46 | adding an active form to an event without one keeps one active form per event and changes no other event's `hasForm` |
| FormService.CountsKeepWhenFieldsChange | src/services/formService.ts:70-72 | changing an event without touching its counter keeps every counter equal to the registrations |
| Pagination.CeilDiv | src/services/eventService.ts:59 | `Math.ceil(a / b)`: the least number of pages of `b` holding `a` items |
| Pagination.Paginate | src/services/eventService.ts:39-60 | page defaults to 1 and limit to the default when missing or 0, `skip = (page - 1) * limit`, and `totalPages` pages of `limit` just hold `total` |
| Pagination.PageOfItem | src/services/eventService.ts:39-60 | item k lies in the window of page `k / limit + 1`, and that page is between 1 and `totalPages` |
| Pagination.LastPageBound | src/services/eventService.ts:59 | a page holding an item is no later than the last page |
| RegistrationService.GenerateRegistrationId | src/services/registrationService.ts:12-18 | `REG-` + the year + `-` + six digits whose value is the random draw |
| RegistrationService.RegistrationIdShape | src/services/registrationService.ts:12-18 | for a four-digit year the id matches `REG-dddd-dddddd` |
| RegistrationService.RegistrationIdInjective | src/services/registrationService.ts:12-18 | within a year, different draws give different ids |
| RegistrationService.PickedMeaning | src/services/registrationService.ts:23-49 | a category takes the first truthy answer of a field feeding it, is falsy only when every such answer is, and is null when no field feeds it |
| RegistrationService.NameLike | src/services/registrationService.ts:36-37 | definition of the name test: the lower-cased label contains "name" or "team"; `ExtractQuickAccessFields` and `PickedMeaning` state the name slot it selects |
| RegistrationService.Picked | src/services/registrationService.ts:23-49 | definition of one quick-access slot, as the `if (!x) x = v` loop leaves it; `PickedMeaning` and `PickedNeverOverwritten` state its meaning |
| RegistrationService.PickedNeverOverwritten | src/services/registrationService.ts:31-45 | once a category holds a truthy value, later fields never overwrite it |
| RegistrationService.ExtractQuickAccessFields | src/services/registrationService.ts:23-49 | the scan picks email from email fields, name from labels mentioning "name" or "team", and phone from phone fields, first truthy answer winning |
| RegistrationService.InitialStatus | src/services/registrationService.ts:117 | the initial status is pending exactly when the event requires approval, approved otherwise |
| RegistrationService.AnswerChecksInOrder | src/services/registrationService.ts:87-111 | on the active form's fields: a thrown validation error fails with its message, else a non-empty error map fails with that map, else a falsy extracted email fails with "Email is required", else an earlier registration of that email fails with "You have already registered for this event", else the outcome is the insert |
| RegistrationService.AdmissionAnswerChecksInOrder | src/services/registrationService.ts:58-111 | once the event-level checks pass and the active form is found, the admission fails at the validation, error-map, email and duplicate checks in that order, each with its own error |
| RegistrationService.AdmissionChecksInOrder | src/services/registrationService.ts:58-84 | the event-level checks run in order (exists, published, deadline, capacity, active form), each failing with its own message once the earlier ones pass |
| RegistrationService.Admission | src/services/registrationService.ts:58-129 | definition of `createRegistration` as a function of the store: not found, then the event checks, then the answer checks, then the insert; the lemmas around it state each branch |
| RegistrationService.AdmitToEvent | src/services/registrationService.ts:64-84 | definition of the status, deadline, capacity and active-form checks; `AdmissionChecksInOrder` and `EventChecksAreRegistrationOpen` state them |
| RegistrationService.AdmitAnswers | src/services/registrationService.ts:87-129 | definition of the validation, extraction, email and duplicate checks before the insert; `AnswerChecksInOrder` states them |
| RegistrationService.EventChecksAreRegistrationOpen | src/services/registrationService.ts:64-77 | the three status, deadline and capacity checks pass exactly when `isRegistrationOpen` holds |
| RegistrationService.AdmittedRegistration | src/services/registrationService.ts:54-134 | an admitted registration comes from an open event with an active form, passed validation cleanly, carries the extracted email (normalised), name and phone, the given answers, the initial status, the given id, no row pointer, and is new in id and in (event, email) |
| RegistrationService.AdmissionReachesAnswers | src/services/registrationService.ts:80-97 | an admission passes the event checks and proceeds with the active form's fields |
| RegistrationService.AdmitAnswersMeaning | src/services/registrationService.ts:87-129 | once the form is known, success means clean validation, an extracted email, no duplicate, and the record built from them |
| RegistrationService.InsertMeaning | src/services/registrationService.ts:119-129 | the insert stores the normalised email, the trimmed name and phone, the answers, the given id (unused before), the initial status and no pointer |
| RegistrationService.Insert | src/services/registrationService.ts:113-129 | definition of `Registration.create` with its casts and the unique id; `InsertMeaning` states the stored record |
| RegistrationService.StoredText | src/services/registrationService.ts:120-129 | definition of the `String` cast with `trim` on the `name` and `phone` paths: absent stays null, a string is trimmed, a list fails the cast; `InsertMeaning` states the stored values |
| RegistrationService.DuplicateFound | src/services/registrationService.ts:103-111 | definition of the `findOne({ eventId, email })` test, with `$in` for a list answer; `DuplicateNeverAdmitted` states its effect |
| RegistrationService.PickedEmailMatches | src/services/registrationService.ts:87-101 | an email that passed validation matches the email pattern |
| RegistrationService.CleanValidationPassesEveryField | src/services/registrationService.ts:87-91 | an empty error map means every field passed its checks |
| RegistrationService.LastFieldClean | src/services/formService.ts:90-142 | a clean validation of fields is a clean validation of all but the last and a pass of the last |
| RegistrationService.LastFieldErrorRecorded | src/services/formService.ts:90-142 | a failure of the last field is always in the error map |
| RegistrationService.DuplicateNeverAdmitted | src/services/registrationService.ts:103-111 | an email already registered for the event is never admitted again |
| RegistrationService.AdmitAnswersFresh | src/lib/models/Registration.ts:119 | an admitted registration's (event, email) pair is not taken yet |
| RegistrationService.AdmissionReachesForm | src/services/registrationService.ts:79-87 | a successful admission found the event and its active form |
| RegistrationService.AdmissionRespectsCapacity | src/services/registrationService.ts:74-77 | an admission to an event with a capacity leaves the count at most the capacity |
| RegistrationService.Counted | src/services/registrationService.ts:131-134 | the event after an admission has one more registration and a new modification time, and is otherwise unchanged |
| RegistrationService.AdmitKeepsConsistent | src/services/registrationService.ts:120-134 | inserting a valid new registration and counting it keeps the store invariant |
| RegistrationService.AppendKeepsRegistrationsValid | src/lib/models/Registration.ts:117-119 | appending a registration that is new in id and in (event, email) keeps the registration rules and counters |
| RegistrationService.AppendKeepsUnique | src/lib/models/Registration.ts:117-119 | appending such a registration keeps both unique indexes |
| RegistrationService.CreateRegistration | src/services/registrationService.ts:54-142 | the store after `createRegistration`: on success exactly one registration appended and its event's count raised by 1; on any failure neither changes; nothing else changes |
| RegistrationService.AdmitToEventIn | src/services/registrationService.ts:64-134 | the checks after the event lookup, with the same store effect |
| RegistrationService.AdmitToForm | src/services/registrationService.ts:86-134 | the checks after the form lookup, with the same store effect |
| RegistrationService.InsertAnswers | src/services/registrationService.ts:113-134 | after clean checks, the create and the count update |
| RegistrationService.CleanAnswersInsert | src/services/registrationService.ts:86-129 | with clean validation, an email and no duplicate, admission is the insert, and its record is valid and new |
| RegistrationService.RecordAdmission | src/services/registrationService.ts:120-134 | appends the registration and raises its event's count by one |
| RegistrationService.StatusUpdateMeaning | src/services/registrationService.ts:213-223 | a status change sets the status and the note (or null), stamps `approvedAt` only on approval and `rejectedAt` only on rejection, and changes nothing else but the modification time |
| RegistrationService.StatusUpdated | src/services/registrationService.ts:213-223 | definition of the intended status change; `StatusUpdateMeaning` states it |
| RegistrationService.UpdateRegistrationStatus | src/services/registrationService.ts:200-223 | a missing registration gives "Registration not found"; otherwise only that registration changes, to its status-updated form with the stamp the interface declares (the corrected half of the third finding) |
| RegistrationService.StampsDroppedAsWritten | src/services/registrationService.ts:213-223 | as the schema stores it, a status change leaves `approvedAt` and `rejectedAt` as they were and otherwise equals the intended update; approving a never-approved registration stores no `approvedAt` where the intended update stores the instant |
| RegistrationService.StatusUpdatedAsWritten | src/services/registrationService.ts:213-223 | definition of the status change as the schema stores it, without the stamps; `StampsDroppedAsWritten` compares it with the intended one |
| RegistrationService.RegistrationPage | src/services/registrationService.ts:173-194 | the registrations listing pages by 20 unless told otherwise, with `skip` and `totalPages` as for events |
| GoogleSheets.HeaderRow | src/lib/api/googleSheets.ts:56-62 | the header is "Registration ID", "Submitted At", "Status", the field labels in order, "Last Updated": n + 4 cells |
| GoogleSheets.Labels | src/lib/api/googleSheets.ts:60 | one label per field, in order |
| GoogleSheets.ColumnName | src/lib/api/googleSheets.ts:128-133 | an A1 column name is a non-empty run of capital letters, one letter exactly for the first 26 columns |
| GoogleSheets.ColumnNameRoundTrip | src/lib/api/googleSheets.ts:128-133 | reading a column name back gives its column number |
| GoogleSheets.ColumnNameInjective | src/lib/api/googleSheets.ts:128-133 | distinct columns have distinct names |
| GoogleSheets.ColumnCodeAsWrittenAgrees | src/lib/api/googleSheets.ts:129 | up to the 23rd field, `String.fromCharCode(68 + i)` is the name of the field's column |
| GoogleSheets.ColumnCodeAsWritten | src/lib/api/googleSheets.ts:129-133 | definition of `String.fromCharCode(68 + i)` with its 16-bit truncation; `ColumnCodeAsWrittenAgrees` and `ColumnCodePastZ` compare it with A1 names |
| GoogleSheets.ColumnCodePastZ | src/lib/api/googleSheets.ts:129 | for the 24th field `String.fromCharCode(68 + i)` is '[', no column name, where the column is "AA" |
| GoogleSheets.ColumnMappingDomain | src/lib/api/googleSheets.ts:122-133 | the mapping's keys are the three fixed keys, `last_updated` and the field ids, and each names a column between A and the one after the last field |
| GoogleSheets.FieldMapping | src/lib/api/googleSheets.ts:122-131 | definition of the mapping after the fixed keys and the `forEach`, with A1 column names; its keys and values are the lemmas around it |
| GoogleSheets.ColumnMapping | src/lib/api/googleSheets.ts:122-133 | definition of the whole mapping, `last_updated` included; `ColumnMappingDomain`, `ColumnMappingOfField` and `ColumnMappingFixedKeys` state it |
| GoogleSheets.FieldMappingDomain | src/lib/api/googleSheets.ts:122-131 | after the `forEach`, the keys are the fixed keys and the field ids, within the first n + 3 columns |
| GoogleSheets.ColumnMappingOfField | src/lib/api/googleSheets.ts:128-131 | a field maps to column i + 4, the column under its label in the header |
| GoogleSheets.FieldMappingOfField | src/lib/api/googleSheets.ts:128-131 | field i gets column i + 4 unless a later field reuses its id |
| GoogleSheets.ColumnMappingFixedKeys | src/lib/api/googleSheets.ts:122-133 | `registration_id`, `submitted_at` and `status` keep A, B, C when no field reuses them, and `last_updated` is the column after the last field |
| GoogleSheets.FieldMappingFixedKeys | src/lib/api/googleSheets.ts:122-131 | a fixed key no field reuses keeps its column |
| GoogleSheets.BuildColumnMapping | src/lib/api/googleSheets.ts:122-133 | the `forEach` builds the column mapping |
| GoogleSheets.NewGrid | src/lib/api/googleSheets.ts:33-50 | the spreadsheet is titled "<event> - Registrations" with 1000 rows and n + 5 columns |
| GoogleSheets.CreateGrid | src/lib/api/googleSheets.ts:33-72 | the new grid holds the header row at A1 unless that write failed |
| GoogleSheets.CreateGoogleSheet | src/lib/api/googleSheets.ts:24-169 | success returns the id, the URL and the column mapping with the grid created; each failing step raises its message behind "Failed to create Google Sheet: " and leaves what it had created |
| GoogleSheets.HeaderOnEmptyGrid | src/lib/api/googleSheets.ts:65-72 | writing at A1 of an empty grid gives the one header row |
| GoogleSheets.ColumnALength | src/lib/api/googleSheets.ts:227-233 | reading column A counts up to the last row with a non-empty A cell |
| GoogleSheets.WriteRow | src/lib/api/googleSheets.ts:241-248 | writing at row k sets its first cells to the values and changes no other row |
| GoogleSheets.AppendBelowColumnA | src/lib/api/googleSheets.ts:227-248 | appending below column A leaves the rows above unchanged and the new row becomes the last one read |
| GoogleSheets.ColumnALengthAt | src/lib/api/googleSheets.ts:227-233 | the last non-empty A cell decides the reading |
| GoogleSheets.CellText | src/lib/api/googleSheets.ts:205-214 | a list answer is joined with ", ", a falsy one becomes "" |
| GoogleSheets.FieldCells | src/lib/api/googleSheets.ts:205-214 | one cell per active-form field, in schema order |
| GoogleSheets.SheetRowMatchesHeader | src/lib/api/googleSheets.ts:191-217 | the row is id, submission time, status, one cell per field, modification time, with the header's length, each answer under its field's label |
| GoogleSheets.SheetRow | src/lib/api/googleSheets.ts:191-217 | definition of the row `syncRegistrationToSheet` builds; `SheetRowMatchesHeader` and the `Row...` lemmas state its cells |
| GoogleSheets.RowFirstCells | src/lib/api/googleSheets.ts:191-195 | the row opens with the id, the submission time and the status |
| GoogleSheets.RowFieldCells | src/lib/api/googleSheets.ts:205-214 | the row's middle cells are the field cells |
| GoogleSheets.RowLastCell | src/lib/api/googleSheets.ts:217 | the row ends with the modification time |
| GoogleSheets.BuildRow | src/lib/api/googleSheets.ts:191-217 | the `push` loop builds that row |
| GoogleSheets.Succeeded | src/lib/api/googleSheets.ts:280-284 | after a write the record is `success`, `lastSyncedAt` is now, one more row was synced, nothing else changed |
| GoogleSheets.FailedOn | src/lib/api/googleSheets.ts:287-303 | on failure only the event's record changes, to `failed` with the message, or nothing when that update failed |
| GoogleSheets.SavePointer | src/lib/api/googleSheets.ts:235-237 | saving the pointer changes only the registration |
| GoogleSheets.SyncWithoutSheetRecord | src/lib/api/googleSheets.ts:183-188 | without a sync record the sync returns with no error and changes nothing |
| GoogleSheets.SyncSucceeded | src/lib/api/googleSheets.ts:174-285 | a successful sync wrote the row at the saved pointer (pointer unchanged), or below column A with that row saved on the registration, and recorded the success; nothing else changed |
| GoogleSheets.Sync | src/lib/api/googleSheets.ts:174-307 | definition of one sync as a function of the state; `SyncSucceeded`, `SyncFailure`, `SyncWithoutSheetRecord` and `SyncTwiceSameRow` state its outcomes |
| GoogleSheets.SyncRow | src/lib/api/googleSheets.ts:220-285 | definition of the sync once the row is built: the target row, the pointer save and the write |
| GoogleSheets.TargetRow | src/lib/api/googleSheets.ts:220-238 | definition of the target: the saved pointer when it is truthy, else the row below the last non-empty cell of column A |
| GoogleSheets.WriteAt | src/lib/api/googleSheets.ts:240-284 | definition of the write, the formatting request and the success bookkeeping; `WriteAtFailure` and `SyncSucceeded` state it |
| GoogleSheets.SyncFailure | src/lib/api/googleSheets.ts:198-306 | a failed sync rethrows the failing step's message (or "Form not found"), leaves the record as the failure bookkeeping left it, and a failed read or write leaves the grid alone |
| GoogleSheets.WriteAtFailure | src/lib/api/googleSheets.ts:240-306 | a write step fails only on the write or formatting call, rethrowing its message |
| GoogleSheets.SyncTwiceSameRow | src/lib/api/googleSheets.ts:220-238 | once a sync wrote row t, a later sync of that registration that writes, writes row t again |
| GoogleSheets.ConsistentSyncReady | src/lib/models/Registration.ts:97-100 | a stored registration in a consistent store can be synced |
| GoogleSheets.WriteAtIn | src/lib/api/googleSheets.ts:240-284 | the write step on the store |
| GoogleSheets.SyncRowIn | src/lib/api/googleSheets.ts:219-284 | the target row and the write on the store |
| GoogleSheets.RecordFailureIn | src/lib/api/googleSheets.ts:287-303 | the failure bookkeeping on the store |
| GoogleSheets.SavePointerIn | src/lib/api/googleSheets.ts:235-237 | the pointer save on the store |
| GoogleSheets.SyncRegistrationToSheet | src/lib/api/googleSheets.ts:174-307 | the store after `syncRegistrationToSheet` is the one the sync function describes, with the function's outcome, and only registrations, records and grids change |
| GoogleSheets.EventIndices | src/lib/api/googleSheets.ts:315 | `find({ eventId })` gives positions of the event's registrations, increasing |
| GoogleSheets.EventIndicesMeaning | src/lib/api/googleSheets.ts:315 | the positions are exactly those of the event's registrations, as many as it counts |
| GoogleSheets.InsertBySubmission | src/lib/api/googleSheets.ts:315 | inserting a position into a sorted list adds one element |
| GoogleSheets.InsertBySubmissionPermutes | src/lib/api/googleSheets.ts:315 | the insertion adds exactly that one position |
| GoogleSheets.InsertBySubmissionSorted | src/lib/api/googleSheets.ts:315 | the insertion keeps ascending `submittedAt` |
| GoogleSheets.InsertBySubmissionBound | src/lib/api/googleSheets.ts:315 | inserting a position submitted no earlier than `t` into positions submitted no earlier than `t` keeps that bound |
| GoogleSheets.SortedCons | src/lib/api/googleSheets.ts:315 | a sorted list stays sorted with a position in front submitted no later than any of it |
| GoogleSheets.SortBySubmission | src/lib/api/googleSheets.ts:315 | the sort keeps the number of positions |
| GoogleSheets.SortBySubmissionPermutes | src/lib/api/googleSheets.ts:315 | `sort({ submittedAt: 1 })` is a permutation |
| GoogleSheets.SortBySubmissionSorted | src/lib/api/googleSheets.ts:315 | the result is in ascending `submittedAt` order |
| GoogleSheets.SubmissionOrder | src/lib/api/googleSheets.ts:315 | the visiting order holds valid positions |
| GoogleSheets.SubmissionOrderMeaning | src/lib/api/googleSheets.ts:315-331 | the batch visits every registration of the event exactly once, in ascending submission time |
| GoogleSheets.ConsistentAllReady | src/lib/models/Registration.ts:97-100 | every registration of a consistent store can be synced |
| GoogleSheets.SyncKeepsAllReady | src/lib/api/googleSheets.ts:174-307 | a sync keeps every registration syncable, keeps the events that have sync records, and changes no registration but the one synced |
| GoogleSheets.WriteAtKeepsAllReady | src/lib/api/googleSheets.ts:241-307 | the write step leaves the registrations alone and keeps the records' spreadsheets |
| GoogleSheets.Batch | src/lib/api/googleSheets.ts:320-337 | the fold of the syncs over the visiting order keeps everything syncable, keeps the sync records' events and counts each sync once, as a success or a failure |
| GoogleSheets.BatchStep | src/lib/api/googleSheets.ts:320-327 | one more position adds one sync on the state the batch so far left, counted as a success when it returns normally and as a failure when it throws |
| GoogleSheets.BatchWithoutSheetRecord | src/lib/api/googleSheets.ts:320-327 | without a sync record nothing changes and every sync counts as a success |
| GoogleSheets.SyncWithoutFaultSucceeds | src/lib/api/googleSheets.ts:174-307 | with a sync record, an active form and no Google fault a sync returns normally |
| GoogleSheets.BatchWithoutFaults | src/lib/api/googleSheets.ts:320-327 | with a sync record, an active form and no Google fault every sync of the batch succeeds |
| GoogleSheets.BatchFrame | src/lib/api/googleSheets.ts:315-331 | the batch changes no registration outside the ones it visits |
| GoogleSheets.SyncNextInBatch | src/lib/api/googleSheets.ts:320-327 | one iteration extends the fold by the sync of the next position and counts its outcome |
| GoogleSheets.BatchSyncRegistrations | src/lib/api/googleSheets.ts:312-342 | the new registrations, sync records and grids are those of `Batch` over the event's registrations in submission order, `success` and `failed` count that fold's normal and thrown outcomes, `total` is the event's registration count and equals their sum; events and forms unchanged |
| EventService.StoredEvent | src/services/eventService.ts:82-99 | a created event is draft, has no form, no registrations, no sheet and no publish or close time, and keeps the approval flag |
| EventService.ApprovalDroppedAsWritten | src/lib/models/Event.ts:35-152 | with the schema as written the approval flag is lost and every registration is approved; with it kept, the first is pending |
| EventService.StoredEventAsWritten | src/lib/models/Event.ts:35-152 | definition of the event as the schema stores it, without the approval flag; `ApprovalDroppedAsWritten` compares it with the intended one |
| EventService.Creation | src/services/eventService.ts:85-96 | creation succeeds exactly when the stored event satisfies the schema, and otherwise fails with the schema's messages |
| EventService.CreatedEventMeaning | src/services/eventService.ts:85-96 | a created event has a trimmed name of 3–200 code units, a description of 10–5000 code units, a non-empty venue, a capacity of at least 1 if any, is draft with no form and no registrations, and is not open |
| EventService.AddEventKeepsConsistent | src/services/eventService.ts:85-96 | adding a valid event with no form and no registrations under a fresh id keeps the store invariant |
| EventService.CreateEvent | src/services/eventService.ts:82-99 | a valid input adds exactly one event under a fresh id; an invalid one changes nothing; nothing else changes |
| EventService.InsertEvent | src/services/eventService.ts:85-96 | the insert under the next fresh id |
| EventService.FormsWithout | src/services/eventService.ts:143 | `Form.deleteMany({ eventId })` never adds forms |
| EventService.FormsWithoutMeaning | src/services/eventService.ts:143 | what remains is exactly the forms of other events |
| EventService.FormsWithoutOneActive | src/services/eventService.ts:143 | removing forms keeps one active form per event |
| EventService.DeleteKeepsConsistent | src/services/eventService.ts:123-149 | deleting a draft without registrations and its forms keeps the store invariant |
| EventService.DeleteKeepsForms | src/services/eventService.ts:143-146 | the remaining forms still satisfy the form rules |
| EventService.DeleteEvent | src/services/eventService.ts:123-149 | a missing event, a non-draft or one with registrations fails with its own message and changes nothing; otherwise the event and its forms are removed and nothing else changes |
| EventService.PublishedEvent | src/services/eventService.ts:179-183 | publishing sets the status, `publishedAt` and `sheetId` and nothing else but the modification time |
| EventService.FirstSheetRecord | src/services/eventService.ts:186-194 | the first sync record is `success` with zero counters and the new sheet's id, URL and mapping |
| EventService.PublishKeepsConsistent | src/services/eventService.ts:179-194 | publishing with a record pointing at an existing spreadsheet keeps the store invariant |
| EventService.PublishEvent | src/services/eventService.ts:154-201 | only a draft with an active form is published, with the sheet record and grid; failures give "Event not found", "already published", "create a form", or the doubly prefixed provisioning message, and leave the event a draft with no record; the three early refusals touch no grid, and a provisioning failure leaves behind exactly the grid `createGoogleSheet` had made by then |
| EventService.ProvisionAndPublish | src/services/eventService.ts:175-200 | the `try` block: provision, then publish and record, or rewrap the failure; a failed create leaves the grids as they were, a failed header write leaves an empty grid at the new id, a failed formatting request leaves the grid with its header row |
| EventService.RecordPublication | src/services/eventService.ts:178-196 | saves the published event and creates its sync record |
| EventService.PublishedEventOpen | src/lib/models/Event.ts:165-172 | a published event is open exactly while its deadline has not passed and it has room |
| EventService.ClosedEvent | src/services/eventService.ts:209-219 | closing sets the status and `closedAt` and nothing else but the modification time |
| EventService.EventsChangeKeepsConsistent | src/services/eventService.ts:206-263 | changing events without changing counters, flags or a non-draft status back to draft keeps the invariant |
| EventService.CloseKeepsConsistent | src/services/eventService.ts:209-219 | closing any event keeps the invariant |
| EventService.DeadlinePassKeepsConsistent | src/services/eventService.ts:237-248 | the deadline pass keeps the invariant |
| EventService.CloseRegistrations | src/services/eventService.ts:206-226 | any existing event is closed whatever its status; a missing one gives "Event not found"; nothing else changes |
| EventService.ClosedEventAdmitsNoOne | src/services/registrationService.ts:64-67 | a closed event is never open and every submission to it fails as not open |
| EventService.AutoClosedMeaning | src/services/eventService.ts:231-263 | after the auto-close an event is still published exactly when registration was open; a published one that was not open is closed now; others are untouched |
| EventService.DeadlineClosed | src/services/eventService.ts:237-248 | definition of one event's change in the deadline pass |
| EventService.CapacityClosed | src/services/eventService.ts:251-262 | definition of one event's change in the capacity pass |
| EventService.AutoClosed | src/services/eventService.ts:231-263 | definition of the two passes on one event; `AutoClosedMeaning` and `AutoClosedIdempotent` state it |
| EventService.AutoClosedIdempotent | src/services/eventService.ts:231-263 | a second auto-close at the same time changes nothing |
| EventService.AutoCloseRegistrations | src/services/eventService.ts:231-263 | every event becomes its auto-closed form and nothing else changes |
| EventService.CloseAfterDeadline | src/services/eventService.ts:237-248 | the `updateMany` closes exactly the published events whose deadline is before now |
| EventService.CloseAtCapacity | src/services/eventService.ts:251-262 | the loop closes exactly the published events whose count reached their capacity |
| EventService.ClosedOutsideStep | src/services/eventService.ts:256-262 | each iteration takes one more event through the capacity test |
| EventService.CloseIfFull | src/services/eventService.ts:257-261 | one iteration closes the event when it is published and full, and leaves it otherwise |
| EventService.EventPage | src/services/eventService.ts:39-60 | the events listing pages by 10 unless told otherwise, `skip = (page - 1) * limit`, `totalPages = ceil(total / limit)` |

## Findings

| source | as written | input that shows it | evidently intended | confidence | as-written member | corrected member |
|---|---|---|---|---|---|---|
| src/lib/api/googleSheets.ts:129-133 | the column of field `i` is `String.fromCharCode(68 + i)` and `last_updated` gets `String.fromCharCode(68 + n)` | a form with 24 fields: field 24 is mapped to '[' (and with 23 fields `last_updated` is '['), while the header puts it in column AA | A1 column names, AA and on after Z | not executed | GoogleSheets.ColumnCodePastZ | GoogleSheets.ColumnMappingOfField |
| src/lib/models/Event.ts:35-152 | the event schema has no `requiresApproval` path, so `Event.create` in strict mode drops the flag the interface declares at line 13 | an event created with `requiresApproval: true`: every registration to it starts approved | the flag is stored and the first registration is pending | not executed | EventService.ApprovalDroppedAsWritten | EventService.StoredEvent |
| src/services/registrationService.ts:217-221 | `updateRegistrationStatus` assigns `approvedAt` or `rejectedAt` on the loaded document, but the registration schema (`src/lib/models/Registration.ts:28-114`) has no such paths, so in strict mode `save()` drops them; only the interface declares them, at lines 24-25 | approving a registration that was never approved: the stored record still has no `approvedAt` | the stamp is stored with the new status | not executed | RegistrationService.StampsDroppedAsWritten | RegistrationService.UpdateRegistrationStatus |

In every row the rest of the model uses the corrected definition: `GoogleSheets.ColumnMapping`
names columns A1-style, `EventService.CreateEvent` stores `EventService.StoredEvent`, which keeps
the flag, and `RegistrationService.UpdateRegistrationStatus` stores
`RegistrationService.StatusUpdated`, which keeps the stamp. `EventService.StoredEventAsWritten`,
`GoogleSheets.ColumnCodeAsWritten` and `RegistrationService.StatusUpdatedAsWritten` are the
as-written definitions the three as-written lemmas speak about.

## Left out

- Google API specifics: the header and status-colour formatting requests, the protected range and
  Drive sharing (`shareSheetWithCoordinator`) are foreign calls; only their possible failure is
  modelled, as a fault parameter.
- Grid limits: the 1000-row and n + 5 column sizes are recorded on the grid, but writing past them is
  not refused, because the Google service's resizing rules are not part of the source.
- Failures of `event.save()`, `Sheet.create`, `registration.save()` and `sheetInfo.save()` are not
  modelled: only the Google calls and the failure bookkeeping can fail.
- The async fire-and-forget sync after `createRegistration` and `updateRegistrationStatus`, the
  100 ms delay between batch items, console logging, and the race between `findOne` and `create`:
  the model is sequential and callers may run `GoogleSheets.SyncRegistrationToSheet` afterwards.
- GoogleSheets.FailedOn: does not claim that `failedSyncCount` increments, because `{ $inc: 1 }`
  inside a plain update document depends on Mongoose casting; the count left is a parameter.
- `updateEvent`, `getEventById`, `getFormByEventId` and the listings' filters, text and regex
  search, sorting and `lean()`: only the `pagination` arithmetic of the listings is modelled.
- The unused event lookup at the end of `updateRegistrationStatus`, and the status parameter's
  narrower TypeScript type: the model accepts any status.
- Lower-casing covers ASCII letters only; full Unicode case mapping is not modelled.
- `toISOString` is modelled for every time value; the `RangeError` outside the Date range is not.
- Answers are missing, strings or lists of strings; numeric and boolean answers are not modelled.
- Event dates: `createEvent` receives `eventDate` and `registrationDeadline` as strings or dates
  from the route, and the schema casts them to `Date`; the model's input already holds instants,
  so the schema's cast error for a malformed date string is not modelled.
- The event paths `coordinators`, `prizes` and `bannerUrl` (`src/lib/models/Event.ts:83-110`) are
  not part of the model's `Event` or of its creation input: `createEvent` stores whatever the
  caller spreads into them and no modelled operation reads them, so their trim setter and the
  coordinator entries' required and email-pattern validators are not modelled.
- The custom `pattern` check (`new RegExp`) and the `parseFloat` bounds are opaque functions; an
  invalid pattern that makes `new RegExp` throw is not modelled, and bounds are integers.
- Mongoose validation error messages are approximated in their wording; their presence and
  cause are exact.
- FormModel.FieldsError: reports the first refused path of the first refused field, where
  Mongoose's `ValidationError` lists every failing path of every field; whether an error is
  raised is exact.
- GoogleSheets.SortBySubmission: registrations with equal `submittedAt` keep their insertion order,
  a stable choice; MongoDB's `sort({ submittedAt: 1 })` leaves the order of such ties unspecified.
- The clock, `Math.random`, the calendar year and the new spreadsheet's id are parameters.
