/** The registration record, its status enumeration and the uniqueness indices. */
module RegistrationModel {
  import opened Wrappers
  import opened Text
  import opened Timestamps
  import opened Patterns
  import opened EventModel
  import opened FormModel

  datatype RegistrationStatus = Pending | Approved | Rejected

  /** The schema default: auto-approve. */
  const DefaultStatus := Approved

  function StatusName(s: RegistrationStatus): string
  {
    match s
    case Pending => "pending"
    case Approved => "approved"
    case Rejected => "rejected"
  }

  datatype Registration = Registration(
    registrationId: string,
    eventId: EventId,
    formData: map<string, Value>,
    email: string,
    name: Option<string>,
    phone: Option<string>,
    status: RegistrationStatus,
    statusNote: Option<string>,
    amountPaid: Option<int>,
    sheetRowNumber: Option<int>,
    lastSyncedAt: Option<Time>,
    submittedAt: Time,
    updatedAt: Time,
    approvedAt: Option<Time>,
    rejectedAt: Option<Time>)

  /** Mongoose's `lowercase` and `trim` setters on the email path. */
  function NormalizeEmail(s: string): string
  {
    Lower(Trim(s))
  }

  /** The email path's rules: lower case, trimmed and matching `^\S+@\S+\.\S+$`. */
  predicate StoredEmail(s: string)
  {
    IsEmail(s) && Lower(s) == s
  }

  /** An address that passes the pattern is stored in a form that still passes it. */
  lemma NormalizedEmailIsStored(s: string)
    requires IsEmail(s)
    ensures StoredEmail(NormalizeEmail(s))
    ensures Trim(NormalizeEmail(s)) == NormalizeEmail(s)
  {
    TrimNoWhitespace(s);
    EmailLower(s);
    var t := Lower(s);
    assert Lower(t) == t;
    TrimNoWhitespace(t);
  }

  /** Per-record schema rules. */
  predicate ValidRegistration(r: Registration)
  {
    && r.registrationId != ""
    && StoredEmail(r.email)
    && (r.amountPaid.Some? ==> r.amountPaid.value >= 0)
    && (r.sheetRowNumber.Some? ==> r.sheetRowNumber.value >= 1)
  }

  /** The unique index on `registrationId`. */
  predicate UniqueRegistrationIds(regs: seq<Registration>)
  {
    forall i, j :: 0 <= i < j < |regs| ==> regs[i].registrationId != regs[j].registrationId
  }

  /** The unique compound index on `(email, eventId)`. */
  predicate UniqueEventEmails(regs: seq<Registration>)
  {
    forall i, j :: 0 <= i < j < |regs| ==> regs[i].eventId != regs[j].eventId || regs[i].email != regs[j].email
  }

  predicate HasRegistrationId(regs: seq<Registration>, id: string)
  {
    exists i :: 0 <= i < |regs| && regs[i].registrationId == id
  }

  predicate HasEventEmail(regs: seq<Registration>, eventId: EventId, email: string)
  {
    exists i :: 0 <= i < |regs| && regs[i].eventId == eventId && regs[i].email == email
  }

  /** `Registration.countDocuments({ eventId })`. */
  function CountFor(regs: seq<Registration>, eventId: EventId): (n: nat)
    ensures n <= |regs|
  {
    if regs == [] then 0
    else CountFor(regs[..|regs| - 1], eventId) + (if regs[|regs| - 1].eventId == eventId then 1 else 0)
  }

  /** Appending one registration adds one to its own event's count and nothing to any other. */
  lemma CountForAppend(regs: seq<Registration>, r: Registration, eventId: EventId)
    ensures CountFor(regs + [r], eventId) == CountFor(regs, eventId) + (if r.eventId == eventId then 1 else 0)
  {
    assert (regs + [r])[..|regs|] == regs;
  }

  /** The count is zero exactly when no registration belongs to the event. */
  lemma {:induction false} CountForZero(regs: seq<Registration>, eventId: EventId)
    ensures CountFor(regs, eventId) == 0 <==> forall i :: 0 <= i < |regs| ==> regs[i].eventId != eventId
  {
    if regs != [] {
      var init := regs[..|regs| - 1];
      CountForZero(init, eventId);
      assert forall i :: 0 <= i < |init| ==> init[i] == regs[i];
    }
  }

  /** Changing records without changing their events keeps every count. */
  lemma {:induction false} CountForSameEvents(regs: seq<Registration>, regs': seq<Registration>, eventId: EventId)
    requires |regs'| == |regs|
    requires forall i :: 0 <= i < |regs| ==> regs'[i].eventId == regs[i].eventId
    ensures CountFor(regs', eventId) == CountFor(regs, eventId)
  {
    if regs != [] {
      CountForSameEvents(regs[..|regs| - 1], regs'[..|regs| - 1], eventId);
    }
  }
}
