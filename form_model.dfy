/** Form field definitions, forms, and the answers a submission carries. */
module FormModel {
  import opened Wrappers
  import opened Text
  import opened Timestamps
  import opened EventModel

  /** The ten field kinds the schema's enum admits, a `type` string outside the enum, and no `type`
      at all: the route passes the submitted fields through unchecked, so the last two reach the schema. */
  datatype FieldType =
    | TextField | Textarea | Email | Phone | Dropdown | Checkbox | Radio | Date | TimeField | Image
    | Unlisted(name: string)
    | MissingType

  /** Optional per-field constraints (`validation`); numbers are taken to be integers. */
  datatype Constraints = Constraints(
    minLength: Option<int>,
    maxLength: Option<int>,
    pattern: Option<string>,
    min: Option<int>,
    max: Option<int>)

  datatype ConditionOperator = Equals | NotEquals | ContainsValue

  datatype Condition = ShowIf(fieldId: string, operator: ConditionOperator, value: string)

  datatype FormField = FormField(
    id: string,
    fieldType: FieldType,
    labelText: string,
    placeholder: Option<string>,
    helpText: Option<string>,
    required: bool,
    validation: Option<Constraints>,
    options: Option<seq<string>>,
    defaultValue: Option<string>,
    conditionalLogic: Option<Condition>,
    order: Option<int>)

  /** A versioned form of an event; at most one form per event is active. */
  datatype Form = Form(eventId: EventId, fields: seq<FormField>, isActive: bool, updatedAt: Time)

  /** A submitted answer: missing (`undefined`/`null`), a string, or a list of strings (checkboxes). */
  datatype Value = Absent | Str(s: string) | List(items: seq<string>)

  /** JavaScript falsiness of an answer: missing or the empty string (a list is always truthy). */
  predicate Falsy(v: Value)
  {
    v.Absent? || v == Str("")
  }

  /** `formData[id]`. */
  function Answer(formData: map<string, Value>, id: string): Value
  {
    if id in formData then formData[id] else Absent
  }

  /** A field built from its required parts, every other path at its schema default. */
  function NewField(id: string, fieldType: FieldType, labelText: string, order: int): (f: FormField)
    ensures f.id == id && f.fieldType == fieldType && f.labelText == labelText && f.order == Some(order)
    ensures !f.required
    ensures f.validation == None && f.options == None && f.defaultValue == None && f.conditionalLogic == None
    ensures f.placeholder == None && f.helpText == None
  {
    FormField(id, fieldType, labelText, None, None, false, None, None, None, None, Some(order))
  }

  /** A form as `Form.create` stores it: active unless told otherwise. */
  function NewForm(eventId: EventId, fields: seq<FormField>, now: Time): (f: Form)
    ensures f.isActive && f.eventId == eventId && f.fields == fields
  {
    Form(eventId, fields, true, now)
  }

  /** The field as stored: Mongoose's `trim` setter runs on the label. */
  function StoredField(f: FormField): FormField
  {
    f.(labelText := Trim(f.labelText))
  }

  function StoredFields(fields: seq<FormField>): (r: seq<FormField>)
    ensures |r| == |fields|
    ensures forall i :: 0 <= i < |fields| ==> r[i] == StoredField(fields[i])
  {
    seq(|fields|, i requires 0 <= i < |fields| => StoredField(fields[i]))
  }

  /** The `type` path holds one of the enum's ten values. */
  predicate ListedType(t: FieldType)
  {
    !t.Unlisted? && !t.MissingType?
  }

  /** The path of a stored field that the field schema refuses first, in schema order, if any:
      `id`, `type` and `label` are required (an empty string counts as missing), `type` must be
      in the enum, and `order` is required. */
  function FieldFault(f: FormField): (r: Option<string>)
    ensures r.None? <==> f.id != "" && ListedType(f.fieldType) && f.labelText != "" && f.order.Some?
  {
    if f.id == "" then Some("Path `id` is required.")
    else if f.fieldType.MissingType? then Some("Path `type` is required.")
    else if f.fieldType.Unlisted? then Some("`" + f.fieldType.name + "` is not a valid enum value for path `type`.")
    else if f.labelText == "" then Some("Path `label` is required.")
    else if f.order.None? then Some("Path `order` is required.")
    else None
  }

  /** The stored field passes the field schema's validators. */
  predicate ValidField(f: FormField)
  {
    FieldFault(f).None?
  }

  /** The form schema's rules on stored fields: at least one field, each one valid. */
  predicate ValidFields(fields: seq<FormField>)
  {
    |fields| > 0 && forall i :: 0 <= i < |fields| ==> ValidField(fields[i])
  }

  /** The index of the first invalid field, if any. */
  function FirstInvalidField(fields: seq<FormField>): (r: Option<nat>)
    ensures r.None? <==> forall i :: 0 <= i < |fields| ==> ValidField(fields[i])
    ensures r.Some? ==>
              && r.value < |fields| && !ValidField(fields[r.value])
              && forall i :: 0 <= i < r.value ==> ValidField(fields[i])
  {
    if fields == [] then None
    else if !ValidField(fields[0]) then Some(0)
    else match FirstInvalidField(fields[1..])
      case None => None
      case Some(k) => Some(k + 1)
  }

  /** The error `Form.create` or `save` raises for stored fields, or None when they are valid. */
  function FieldsError(fields: seq<FormField>): (r: Option<string>)
    ensures r.None? <==> ValidFields(fields)
  {
    if |fields| == 0 then Some("Form validation failed: fields: Form must have at least one field")
    else match FirstInvalidField(fields)
      case None => None
      case Some(k) =>
        var message := FieldFault(fields[k]).value;
        Some("Form validation failed: fields." + NatToString(k) + ": " + message)
  }
}
