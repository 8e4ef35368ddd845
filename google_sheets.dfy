/** Mirroring registrations into an event's spreadsheet (`googleSheets.ts`), with the Google
    service abstracted to the row grids held by the store. */
module GoogleSheets {
  import opened Wrappers
  import opened Text
  import opened Timestamps
  import opened EventModel
  import opened FormModel
  import opened RegistrationModel
  import opened SheetModel
  import opened Store

  // ---------------------------------------------------------------------------------------------
  // Header row and column names

  /** The header row: three fixed columns, one per field label in schema order, then the
      modification time. */
  function HeaderRow(fields: seq<FormField>): (h: seq<string>)
    ensures |h| == |fields| + 4
    ensures h[0] == "Registration ID" && h[1] == "Submitted At" && h[2] == "Status"
    ensures forall i :: 0 <= i < |fields| ==> h[3 + i] == fields[i].labelText
    ensures h[|fields| + 3] == "Last Updated"
  {
    ["Registration ID", "Submitted At", "Status"] + Labels(fields) + ["Last Updated"]
  }

  function Labels(fields: seq<FormField>): (r: seq<string>)
    ensures |r| == |fields| && forall i :: 0 <= i < |fields| ==> r[i] == fields[i].labelText
  {
    seq(|fields|, i requires 0 <= i < |fields| => fields[i].labelText)
  }

  predicate IsUpperLetter(c: char)
  {
    'A' <= c <= 'Z'
  }

  /** The A1-notation name of the `k`-th column (1 is "A", 26 is "Z", 27 is "AA"): bijective
      base 26. */
  function ColumnName(k: nat): (s: string)
    requires k >= 1
    ensures |s| >= 1 && forall i :: 0 <= i < |s| ==> IsUpperLetter(s[i])
    ensures k <= 26 <==> |s| == 1
  {
    if k <= 26 then [(64 + k) as char]
    else ColumnName((k - 1) / 26) + [(65 + (k - 1) % 26) as char]
  }

  /** The column number an A1 column name denotes. */
  function ColumnNumber(s: string): int
  {
    if s == [] then 0 else ColumnNumber(s[..|s| - 1]) * 26 + (s[|s| - 1] as int - 64)
  }

  /** Reading a column name back gives its number, so distinct columns get distinct names. */
  lemma {:induction false} ColumnNameRoundTrip(k: nat)
    requires k >= 1
    ensures ColumnNumber(ColumnName(k)) == k
  {
    if k > 26 {
      var s := ColumnName(k);
      assert s[..|s| - 1] == ColumnName((k - 1) / 26);
      ColumnNameRoundTrip((k - 1) / 26);
    }
  }

  lemma ColumnNameInjective(a: nat, b: nat)
    requires a >= 1 && b >= 1 && ColumnName(a) == ColumnName(b)
    ensures a == b
  {
    ColumnNameRoundTrip(a);
    ColumnNameRoundTrip(b);
  }

  /** `String.fromCharCode(68 + i)`, the UTF-16 code unit the source uses as the column letter of
      the field at index `i`. */
  function ColumnCodeAsWritten(i: nat): int
  {
    (68 + i) % 0x1_0000
  }

  /** Up to the 23rd field the source's letter is the A1 name of column `i + 4`. */
  lemma ColumnCodeAsWrittenAgrees(i: nat)
    requires i <= 22
    ensures ColumnName(i + 4) == [ColumnCodeAsWritten(i) as char]
  {
  }

  /** From the 24th field on (index 23) the source's letter is no column name at all: it is '[',
      where the sheet's column 27 is "AA". */
  lemma ColumnCodePastZ()
    ensures ColumnCodeAsWritten(23) == '[' as int && !('A' as int <= ColumnCodeAsWritten(23) <= 'Z' as int)
    ensures ColumnName(27) == "AA"
  {
  }

  const ReservedKeys: set<string> := {"registration_id", "submitted_at", "status", "last_updated"}

  /** The mapping before the field columns are added. */
  function BaseMapping(): map<string, string>
  {
    map["registration_id" := "A", "submitted_at" := "B", "status" := "C"]
  }

  /** The mapping after the `forEach` over `fields`: field `i` gets column `i + 4`. */
  function FieldMapping(fields: seq<FormField>): map<string, string>
  {
    if fields == [] then BaseMapping()
    else FieldMapping(fields[..|fields| - 1])[fields[|fields| - 1].id := ColumnName(|fields| + 3)]
  }

  /** The full column mapping: the field columns, then `last_updated` after the last field. */
  function ColumnMapping(fields: seq<FormField>): map<string, string>
  {
    FieldMapping(fields)["last_updated" := ColumnName(|fields| + 4)]
  }

  predicate IsFieldIdIn(fields: seq<FormField>, id: string)
  {
    exists i :: 0 <= i < |fields| && fields[i].id == id
  }

  /** The mapping's keys are the three fixed keys, `last_updated` and the field ids; every column
      it names lies between A and the column after the last field. */
  lemma {:induction false} ColumnMappingDomain(fields: seq<FormField>)
    ensures forall key :: key in ColumnMapping(fields) <==> key in ReservedKeys || IsFieldIdIn(fields, key)
    ensures forall key :: key in ColumnMapping(fields) ==> 1 <= ColumnNumber(ColumnMapping(fields)[key]) <= |fields| + 4
  {
    FieldMappingDomain(fields);
    ColumnNameRoundTrip(|fields| + 4);
  }

  lemma {:induction false} FieldMappingDomain(fields: seq<FormField>)
    ensures forall key :: key in FieldMapping(fields) <==> key in ReservedKeys - {"last_updated"} || IsFieldIdIn(fields, key)
    ensures forall key :: key in FieldMapping(fields) ==> 1 <= ColumnNumber(FieldMapping(fields)[key]) <= |fields| + 3
  {
    if fields == [] {
      assert ColumnNumber("A") == 1 && ColumnNumber("B") == 2 && ColumnNumber("C") == 3;
    } else {
      var init := fields[..|fields| - 1];
      FieldMappingDomain(init);
      ColumnNameRoundTrip(|fields| + 3);
      assert forall i :: 0 <= i < |init| ==> init[i] == fields[i];
      forall key ensures key in FieldMapping(fields) <==> key in ReservedKeys - {"last_updated"} || IsFieldIdIn(fields, key) {
        if IsFieldIdIn(fields, key) && key != fields[|fields| - 1].id {
          var i :| 0 <= i < |fields| && fields[i].id == key;
          assert IsFieldIdIn(init, key);
        }
      }
    }
  }

  /** A field whose id no later field repeats, and that is not `last_updated`, is mapped to the
      column whose header is its label. */
  lemma {:induction false} ColumnMappingOfField(fields: seq<FormField>, i: nat)
    requires i < |fields| && fields[i].id != "last_updated"
    requires forall j :: i < j < |fields| ==> fields[j].id != fields[i].id
    ensures fields[i].id in ColumnMapping(fields)
    ensures ColumnMapping(fields)[fields[i].id] == ColumnName(i + 4)
    ensures ColumnNumber(ColumnMapping(fields)[fields[i].id]) == i + 4 && HeaderRow(fields)[i + 3] == fields[i].labelText
  {
    FieldMappingOfField(fields, i);
    ColumnNameRoundTrip(i + 4);
  }

  lemma {:induction false} FieldMappingOfField(fields: seq<FormField>, i: nat)
    requires i < |fields|
    requires forall j :: i < j < |fields| ==> fields[j].id != fields[i].id
    ensures fields[i].id in FieldMapping(fields) && FieldMapping(fields)[fields[i].id] == ColumnName(i + 4)
  {
    if i < |fields| - 1 {
      var init := fields[..|fields| - 1];
      FieldMappingOfField(init, i);
    }
  }

  /** The fixed keys keep A, B and C when no field id reuses them, and `last_updated` is always
      the column after the last field. */
  lemma {:induction false} ColumnMappingFixedKeys(fields: seq<FormField>)
    ensures ColumnMapping(fields)["last_updated"] == ColumnName(|fields| + 4)
    ensures !IsFieldIdIn(fields, "registration_id") ==>
              "registration_id" in ColumnMapping(fields) && ColumnMapping(fields)["registration_id"] == "A"
    ensures !IsFieldIdIn(fields, "submitted_at") ==>
              "submitted_at" in ColumnMapping(fields) && ColumnMapping(fields)["submitted_at"] == "B"
    ensures !IsFieldIdIn(fields, "status") ==> "status" in ColumnMapping(fields) && ColumnMapping(fields)["status"] == "C"
  {
    FieldMappingFixedKeys(fields);
  }

  lemma {:induction false} FieldMappingFixedKeys(fields: seq<FormField>)
    ensures forall key :: key in BaseMapping() && !IsFieldIdIn(fields, key) ==> key in FieldMapping(fields) && FieldMapping(fields)[key] == BaseMapping()[key]
  {
    if fields != [] {
      var init := fields[..|fields| - 1];
      FieldMappingFixedKeys(init);
      forall key | key in BaseMapping() && !IsFieldIdIn(fields, key)
        ensures key in FieldMapping(fields) && FieldMapping(fields)[key] == BaseMapping()[key]
      {
        assert !IsFieldIdIn(init, key) by {
          forall i | 0 <= i < |init| ensures init[i].id != key {
            assert init[i] == fields[i];
          }
        }
        assert fields[|fields| - 1].id != key;
      }
    }
  }

  /** Builds the column mapping as the source's `forEach` does. */
  method BuildColumnMapping(fields: seq<FormField>) returns (m: map<string, string>)
    ensures m == ColumnMapping(fields)
  {
    m := map["registration_id" := "A", "submitted_at" := "B", "status" := "C"];
    for i := 0 to |fields|
      invariant m == FieldMapping(fields[..i])
    {
      assert fields[..i + 1][..i] == fields[..i];
      m := m[fields[i].id := ColumnName(i + 4)];
    }
    assert fields[..|fields|] == fields;
    m := m["last_updated" := ColumnName(|fields| + 4)];
  }

  // ---------------------------------------------------------------------------------------------
  // Provisioning

  /** Where provisioning the spreadsheet can fail: the creation itself, writing the header row,
      or a later formatting request. */
  datatype ProvisionFault = NoProvisionFault | CreateFailed(message: string) | HeaderWriteFailed(message: string) | FormatFailed(message: string)

  datatype ProvisionedSheet = ProvisionedSheet(sheetId: string, sheetUrl: string, columnMapping: map<string, string>)

  const SheetCreationPrefix := "Failed to create Google Sheet: "

  function SheetUrl(sheetId: string): string
  {
    "https://docs.google.com/spreadsheets/d/" + sheetId
  }

  /** The grid as created: 1000 rows and five more columns than fields. */
  function NewGrid(eventName: string, fields: seq<FormField>, rows: seq<seq<string>>): (g: Spreadsheet)
    ensures g.title == eventName + " - Registrations" && g.rowCount == 1000 && g.columnCount == |fields| + 5 && g.rows == rows
  {
    Spreadsheet(eventName + " - Registrations", 1000, |fields| + 5, rows)
  }

  /** The new spreadsheet, with the header row written at A1 unless that write failed. */
  method CreateGrid(eventName: string, fields: seq<FormField>, headerFailed: bool) returns (grid: Spreadsheet)
    ensures grid == NewGrid(eventName, fields, if headerFailed then [] else [HeaderRow(fields)])
  {
    grid := NewGrid(eventName, fields, []);
    if !headerFailed {
      var headers := HeaderRow(fields);
      HeaderOnEmptyGrid(headers);
      grid := grid.(rows := WriteRow(grid.rows, 1, headers));
    }
  }

  /** `createGoogleSheet`: creates the spreadsheet `sheetId` with the header row and returns its id,
      URL and column mapping; a failing step leaves what was created so far and raises the step's
      message behind "Failed to create Google Sheet: ". */
  method CreateGoogleSheet(db: Db, eventName: string, fields: seq<FormField>, sheetId: string, fault: ProvisionFault)
    returns (r: Result<ProvisionedSheet, string>)
    requires db.Valid()
    modifies db
    ensures db.Valid()
    ensures db.events == old(db.events) && db.forms == old(db.forms) && db.registrations == old(db.registrations)
    ensures db.sheets == old(db.sheets) && db.nextEventId == old(db.nextEventId)
    ensures fault.CreateFailed? ==> r == Err(SheetCreationPrefix + fault.message) && db.spreadsheets == old(db.spreadsheets)
    ensures fault.HeaderWriteFailed? ==>
              r == Err(SheetCreationPrefix + fault.message) && db.spreadsheets == old(db.spreadsheets)[sheetId := NewGrid(eventName, fields, [])]
    ensures fault.FormatFailed? ==>
              && r == Err(SheetCreationPrefix + fault.message)
              && db.spreadsheets == old(db.spreadsheets)[sheetId := NewGrid(eventName, fields, [HeaderRow(fields)])]
    ensures fault.NoProvisionFault? ==>
              && r == Ok(ProvisionedSheet(sheetId, SheetUrl(sheetId), ColumnMapping(fields)))
              && db.spreadsheets == old(db.spreadsheets)[sheetId := NewGrid(eventName, fields, [HeaderRow(fields)])]
  {
    if fault.CreateFailed? {
      return Err(SheetCreationPrefix + fault.message);
    }
    var grid := CreateGrid(eventName, fields, fault.HeaderWriteFailed?);
    SheetsChangeKeepsConsistent(db.events, db.nextEventId, db.forms, db.registrations, db.sheets, db.spreadsheets,
                                db.sheets, db.spreadsheets[sheetId := grid]);
    db.spreadsheets := db.spreadsheets[sheetId := grid];
    if fault.NoProvisionFault? {
      var mapping := BuildColumnMapping(fields);
      r := Ok(ProvisionedSheet(sheetId, SheetUrl(sheetId), mapping));
    } else {
      r := Err(SheetCreationPrefix + fault.message);
    }
  }

  // ---------------------------------------------------------------------------------------------
  // Rows of the grid

  /** Writing at A1 of an empty grid gives a grid of that one row. */
  lemma HeaderOnEmptyGrid(headers: seq<string>)
    ensures WriteRow([], 1, headers) == [headers]
  {
  }

  /** The cell in column A of a row; a short row has an empty one. */
  function CellA(row: seq<string>): string
  {
    if |row| > 0 then row[0] else ""
  }

  /** `values.get('A:A')` and the length of what it returns: the number of the last row whose A
      cell is non-empty. */
  function ColumnALength(rows: seq<seq<string>>): (n: nat)
    ensures n <= |rows|
    ensures n > 0 ==> CellA(rows[n - 1]) != ""
    ensures forall k :: n <= k < |rows| ==> CellA(rows[k]) == ""
  {
    if rows == [] then 0
    else if CellA(rows[|rows| - 1]) != "" then |rows|
    else ColumnALength(rows[..|rows| - 1])
  }

  /** Writes `values` from column A of row `k` (1-based): cells beyond them keep their contents,
      and rows up to `k` that did not exist become empty first. */
  function WriteRow(rows: seq<seq<string>>, k: int, values: seq<string>): (r: seq<seq<string>>)
    requires k >= 1
    ensures |r| == if k > |rows| then k else |rows|
    ensures forall i :: 0 <= i < |r| && i != k - 1 ==> r[i] == (if i < |rows| then rows[i] else [])
    ensures |r[k - 1]| >= |values| && r[k - 1][..|values|] == values
    ensures k - 1 < |rows| ==> r[k - 1][|values|..] == (if |rows[k - 1]| > |values| then rows[k - 1][|values|..] else [])
  {
    var padded := if k > |rows| then rows + seq(k - |rows|, _ => []) else rows;
    var old_ := padded[k - 1];
    padded[k - 1 := if |old_| > |values| then values + old_[|values|..] else values]
  }

  /** Appending below the last row with an id leaves the rows above untouched and makes the new
      row the last one in column A. */
  lemma AppendBelowColumnA(rows: seq<seq<string>>, values: seq<string>)
    requires |values| > 0 && values[0] != ""
    ensures var k := ColumnALength(rows) + 1;
            var r := WriteRow(rows, k, values);
            && r[..k - 1] == rows[..k - 1]
            && ColumnALength(r) == k
  {
    var k := ColumnALength(rows) + 1;
    var r := WriteRow(rows, k, values);
    assert CellA(r[k - 1]) == values[0];
    ColumnALengthAt(r, k);
  }

  /** The last non-empty A cell determines the reading. */
  lemma ColumnALengthAt(rows: seq<seq<string>>, k: nat)
    requires 1 <= k <= |rows| && CellA(rows[k - 1]) != ""
    requires forall i :: k <= i < |rows| ==> CellA(rows[i]) == ""
    ensures ColumnALength(rows) == k
  {
  }

  // ---------------------------------------------------------------------------------------------
  // The synced row

  /** A cell for an answer: a list joined with ", ", a falsy answer as the empty string. */
  function CellText(v: Value): (c: string)
    ensures Falsy(v) ==> c == ""
    ensures v.List? ==> c == Join(v.items, ", ")
    ensures v.Str? ==> c == v.s
  {
    match v
    case Absent => ""
    case Str(s) => s
    case List(items) => Join(items, ", ")
  }

  /** One cell per field, in schema order. */
  function FieldCells(formData: map<string, Value>, fields: seq<FormField>): (r: seq<string>)
    ensures |r| == |fields| && forall i :: 0 <= i < |fields| ==> r[i] == CellText(Answer(formData, fields[i].id))
  {
    if fields == [] then []
    else FieldCells(formData, fields[..|fields| - 1]) + [CellText(Answer(formData, fields[|fields| - 1].id))]
  }

  function RowHead(reg: Registration): seq<string>
  {
    [reg.registrationId, IsoString(reg.submittedAt), StatusName(reg.status)]
  }

  /** The row synced for a registration under the active form's fields. */
  function SheetRow(reg: Registration, fields: seq<FormField>): seq<string>
  {
    RowHead(reg) + FieldCells(reg.formData, fields) + [IsoString(reg.updatedAt)]
  }

  /** The row lines up with the header: same length, and each field's answer sits under the
      field's label. */
  lemma SheetRowMatchesHeader(reg: Registration, fields: seq<FormField>)
    ensures |SheetRow(reg, fields)| == |HeaderRow(fields)| == |fields| + 4
    ensures SheetRow(reg, fields)[0] == reg.registrationId
    ensures SheetRow(reg, fields)[1] == IsoString(reg.submittedAt)
    ensures SheetRow(reg, fields)[2] == StatusName(reg.status)
    ensures forall i :: 0 <= i < |fields| ==>
              && HeaderRow(fields)[3 + i] == fields[i].labelText
              && SheetRow(reg, fields)[3 + i] == CellText(Answer(reg.formData, fields[i].id))
    ensures SheetRow(reg, fields)[|fields| + 3] == IsoString(reg.updatedAt)
  {
    RowFirstCells(reg, fields);
    RowFieldCells(reg, fields);
    RowLastCell(reg, fields);
    forall i | 0 <= i < |fields| ensures SheetRow(reg, fields)[3 + i] == CellText(Answer(reg.formData, fields[i].id)) {
      assert SheetRow(reg, fields)[3 + i] == FieldCells(reg.formData, fields)[i];
    }
  }

  lemma RowFirstCells(reg: Registration, fields: seq<FormField>)
    ensures SheetRow(reg, fields)[0] == reg.registrationId
    ensures SheetRow(reg, fields)[1] == IsoString(reg.submittedAt)
    ensures SheetRow(reg, fields)[2] == StatusName(reg.status)
  {
  }

  lemma RowFieldCells(reg: Registration, fields: seq<FormField>)
    ensures |SheetRow(reg, fields)| == |fields| + 4
    ensures forall i :: 0 <= i < |fields| ==> SheetRow(reg, fields)[3 + i] == FieldCells(reg.formData, fields)[i]
  {
  }

  lemma RowLastCell(reg: Registration, fields: seq<FormField>)
    ensures SheetRow(reg, fields)[|fields| + 3] == IsoString(reg.updatedAt)
  {
  }

  /** Builds the row with `push`, one cell per field in schema order. */
  method BuildRow(reg: Registration, fields: seq<FormField>) returns (row: seq<string>)
    ensures row == SheetRow(reg, fields)
  {
    var cells: seq<string> := [];
    for i := 0 to |fields|
      invariant cells == FieldCells(reg.formData, fields[..i])
    {
      assert fields[..i + 1][..i] == fields[..i];
      var value := Answer(reg.formData, fields[i].id);
      if value.List? {
        cells := cells + [Join(value.items, ", ")];
      } else {
        cells := cells + [if Falsy(value) then "" else value.s];
      }
    }
    assert fields[..|fields|] == fields;
    row := [reg.registrationId, IsoString(reg.submittedAt), StatusName(reg.status)] + cells + [IsoString(reg.updatedAt)];
  }

  // ---------------------------------------------------------------------------------------------
  // Syncing one registration

  /** Where a sync can fail: reading column A, writing the row, or the formatting request after it. */
  datatype SyncFault = NoSyncFault | ReadFailed(message: string) | WriteFailed(message: string) | FormatFailed(message: string)

  /** Whether the failure record was written, and the failure count it left. */
  datatype FailureRecord = NotRecorded | Recorded(failedSyncCount: nat)

  datatype SyncDone = NoSheetRecord | WroteRow(row: int)

  /** The part of the store a sync touches. */
  datatype SyncState = SyncState(registrations: seq<Registration>, sheets: map<EventId, SheetRecord>,
                                 spreadsheets: map<string, Spreadsheet>)

  datatype SyncResult = SyncResult(outcome: Result<SyncDone, string>, state: SyncState)

  const FormNotFound := "Form not found"

  /** The sheet record after a successful write at instant `now`. */
  function Succeeded(info: SheetRecord, now: Time): (r: SheetRecord)
    ensures r.lastSyncStatus == SyncSuccess && r.lastSyncedAt == Some(now) && r.totalRowsSynced == info.totalRowsSynced + 1
    ensures r == info.(lastSyncStatus := r.lastSyncStatus, lastSyncedAt := r.lastSyncedAt, totalRowsSynced := r.totalRowsSynced)
  {
    info.(lastSyncStatus := SyncSuccess, lastSyncedAt := Some(now), totalRowsSynced := info.totalRowsSynced + 1)
  }

  /** The sheet records after a failure with `message`, depending on whether the failure record
      was written. */
  function FailedOn(sheets: map<EventId, SheetRecord>, eventId: EventId, message: string, record: FailureRecord)
    : (r: map<EventId, SheetRecord>)
    ensures r.Keys == sheets.Keys && forall e :: e in sheets ==> r[e].sheetId == sheets[e].sheetId
    ensures forall e :: e in sheets && e != eventId ==> r[e] == sheets[e]
    ensures record.NotRecorded? ==> r == sheets
    ensures record.Recorded? && eventId in sheets ==>
              && r[eventId].lastSyncStatus == SyncFailed && r[eventId].lastSyncError == Some(message)
              && r[eventId].failedSyncCount == record.failedSyncCount
              && r[eventId].totalRowsSynced == sheets[eventId].totalRowsSynced
  {
    match record
    case NotRecorded => sheets
    case Recorded(count) =>
      if eventId in sheets
      then sheets[eventId := sheets[eventId].(lastSyncStatus := SyncFailed, lastSyncError := Some(message), failedSyncCount := count)]
      else sheets
  }

  function Failure(st: SyncState, eventId: EventId, message: string, record: FailureRecord): SyncResult
  {
    SyncResult(Err(message), st.(sheets := FailedOn(st.sheets, eventId, message, record)))
  }

  /** The row a registration is written to: its saved pointer, or the row after the last one in
      column A. */
  function TargetRow(reg: Registration, rows: seq<seq<string>>): int
  {
    if TruthyNumber(reg.sheetRowNumber) then reg.sheetRowNumber.value else ColumnALength(rows) + 1
  }

  /** Preconditions of `Sync` that the store invariant provides. */
  predicate SyncReady(st: SyncState, eventId: EventId, index: nat)
  {
    && index < |st.registrations|
    && (st.registrations[index].sheetRowNumber.Some? ==> st.registrations[index].sheetRowNumber.value >= 1)
    && (eventId in st.sheets ==> st.sheets[eventId].sheetId in st.spreadsheets)
  }

  /** `syncRegistrationToSheet` for the registration at `index`, as a function of the state before. */
  function Sync(forms: seq<Form>, st: SyncState, eventId: EventId, index: nat, now: Time, fault: SyncFault,
                record: FailureRecord): SyncResult
    requires SyncReady(st, eventId, index)
  {
    if eventId !in st.sheets then SyncResult(Ok(NoSheetRecord), st)
    else
      match ActiveForm(forms, eventId)
      case None => Failure(st, eventId, FormNotFound, record)
      case Some(k) => SyncRow(st, eventId, index, SheetRow(st.registrations[index], forms[k].fields), now, fault, record)
  }

  /** The sync once the row is built: find the target row (reading column A and saving the pointer
      when there is none yet), then write. */
  function SyncRow(st: SyncState, eventId: EventId, index: nat, row: seq<string>, now: Time, fault: SyncFault,
                   record: FailureRecord): SyncResult
    requires SyncReady(st, eventId, index) && eventId in st.sheets
  {
    var reg := st.registrations[index];
    if TruthyNumber(reg.sheetRowNumber) then WriteAt(st, eventId, reg.sheetRowNumber.value, row, now, fault, record)
    else if fault.ReadFailed? then Failure(st, eventId, fault.message, record)
    else
      var target := ColumnALength(st.spreadsheets[st.sheets[eventId].sheetId].rows) + 1;
      WriteAt(SavePointer(st, index, target, now), eventId, target, row, now, fault, record)
  }

  /** `registration.save()` after setting the pointer; the timestamps plugin moves `updatedAt`. */
  function SavePointer(st: SyncState, index: nat, target: int, now: Time): (s: SyncState)
    requires index < |st.registrations|
    ensures |s.registrations| == |st.registrations| && s.sheets == st.sheets && s.spreadsheets == st.spreadsheets
  {
    st.(registrations := st.registrations[index := st.registrations[index].(sheetRowNumber := Some(target), updatedAt := now)])
  }

  /** The write of the row at `target`, the formatting request and the success bookkeeping. */
  function WriteAt(st: SyncState, eventId: EventId, target: int, row: seq<string>, now: Time, fault: SyncFault,
                   record: FailureRecord): SyncResult
    requires eventId in st.sheets && st.sheets[eventId].sheetId in st.spreadsheets && target >= 1
  {
    if fault.WriteFailed? then Failure(st, eventId, fault.message, record)
    else
      var info := st.sheets[eventId];
      var grid := st.spreadsheets[info.sheetId];
      var st2 := st.(spreadsheets := st.spreadsheets[info.sheetId := grid.(rows := WriteRow(grid.rows, target, row))]);
      if fault.FormatFailed? then Failure(st2, eventId, fault.message, record)
      else SyncResult(Ok(WroteRow(target)), st2.(sheets := st2.sheets[eventId := Succeeded(info, now)]))
  }

  /** Without a sheet record the sync does nothing and reports no error. */
  lemma SyncWithoutSheetRecord(forms: seq<Form>, st: SyncState, eventId: EventId, index: nat, now: Time,
                               fault: SyncFault, record: FailureRecord)
    requires SyncReady(st, eventId, index) && eventId !in st.sheets
    ensures Sync(forms, st, eventId, index, now, fault, record) == SyncResult(Ok(NoSheetRecord), st)
  {
  }

  /** A successful sync wrote the registration's row at its target row, left the pointer on the
      registration, and recorded the success with one more synced row; nothing else changed. */
  lemma SyncSucceeded(forms: seq<Form>, st: SyncState, eventId: EventId, index: nat, now: Time,
                      fault: SyncFault, record: FailureRecord, res: SyncResult)
    requires SyncReady(st, eventId, index)
    requires res == Sync(forms, st, eventId, index, now, fault, record)
    requires res.outcome.Ok? && res.outcome.value.WroteRow?
    ensures eventId in st.sheets && ActiveForm(forms, eventId).Some? && (fault.NoSyncFault? || fault.ReadFailed?)
    ensures
      var t := res.outcome.value.row;
      var info := st.sheets[eventId];
      var reg := st.registrations[index];
      var rows := st.spreadsheets[info.sheetId].rows;
      && t == TargetRow(reg, rows) && t >= 1
      && (TruthyNumber(reg.sheetRowNumber) ==> t == reg.sheetRowNumber.value && res.state.registrations == st.registrations)
      && (!TruthyNumber(reg.sheetRowNumber) ==>
            && t == ColumnALength(rows) + 1
            && res.state.registrations == st.registrations[index := reg.(sheetRowNumber := Some(t), updatedAt := now)])
      && res.state.spreadsheets == st.spreadsheets[info.sheetId := st.spreadsheets[info.sheetId].(
           rows := WriteRow(rows, t, SheetRow(reg, forms[ActiveForm(forms, eventId).value].fields)))]
      && res.state.sheets == st.sheets[eventId := Succeeded(info, now)]
  {
  }

  /** A failed sync raises the failing step's message (or "Form not found") and leaves the sheet
      records as the failure bookkeeping left them; a write that succeeded before the failure
      stays in the grid. */
  lemma SyncFailure(forms: seq<Form>, st: SyncState, eventId: EventId, index: nat, now: Time,
                    fault: SyncFault, record: FailureRecord, res: SyncResult)
    requires SyncReady(st, eventId, index)
    requires res == Sync(forms, st, eventId, index, now, fault, record)
    requires res.outcome.Err?
    ensures eventId in st.sheets
    ensures res.outcome.error == FormNotFound || (!fault.NoSyncFault? && res.outcome.error == fault.message)
    ensures ActiveForm(forms, eventId).None? ==> res.outcome.error == FormNotFound && res.state.registrations == st.registrations
    ensures res.state.sheets == FailedOn(st.sheets, eventId, res.outcome.error, record)
    ensures fault.ReadFailed? || fault.WriteFailed? || ActiveForm(forms, eventId).None? ==> res.state.spreadsheets == st.spreadsheets
  {
    if eventId in st.sheets && ActiveForm(forms, eventId).Some? {
      var reg := st.registrations[index];
      var row := SheetRow(reg, forms[ActiveForm(forms, eventId).value].fields);
      assert res == SyncRow(st, eventId, index, row, now, fault, record);
      if TruthyNumber(reg.sheetRowNumber) {
        WriteAtFailure(st, eventId, reg.sheetRowNumber.value, row, now, fault, record, res);
      } else if !fault.ReadFailed? {
        var target := ColumnALength(st.spreadsheets[st.sheets[eventId].sheetId].rows) + 1;
        WriteAtFailure(SavePointer(st, index, target, now), eventId, target, row, now, fault, record, res);
      }
    }
  }

  lemma WriteAtFailure(st: SyncState, eventId: EventId, target: int, row: seq<string>, now: Time, fault: SyncFault,
                       record: FailureRecord, res: SyncResult)
    requires eventId in st.sheets && st.sheets[eventId].sheetId in st.spreadsheets && target >= 1
    requires res == WriteAt(st, eventId, target, row, now, fault, record) && res.outcome.Err?
    ensures (fault.WriteFailed? || fault.FormatFailed?) && res.outcome.error == fault.message
    ensures res.state.sheets == FailedOn(st.sheets, eventId, res.outcome.error, record)
    ensures res.state.registrations == st.registrations
    ensures fault.WriteFailed? ==> res.state.spreadsheets == st.spreadsheets
  {
  }

  /** The row pointer makes a repeated sync idempotent in placement: once a sync wrote row `t`,
      any later sync of the same registration that writes, writes row `t` again. */
  lemma SyncTwiceSameRow(forms: seq<Form>, st: SyncState, eventId: EventId, index: nat, now: Time,
                         fault: SyncFault, record: FailureRecord, first: SyncResult,
                         forms': seq<Form>, eventId': EventId, now': Time, fault': SyncFault, record': FailureRecord,
                         second: SyncResult)
    requires SyncReady(st, eventId, index)
    requires first == Sync(forms, st, eventId, index, now, fault, record)
    requires first.outcome.Ok? && first.outcome.value.WroteRow?
    requires SyncReady(first.state, eventId', index)
    requires second == Sync(forms', first.state, eventId', index, now', fault', record')
    requires second.outcome.Ok? && second.outcome.value.WroteRow?
    ensures second.outcome.value.row == first.outcome.value.row
  {
    SyncSucceeded(forms, st, eventId, index, now, fault, record, first);
    var t := first.outcome.value.row;
    assert first.state.registrations[index].sheetRowNumber == Some(t);
    SyncSucceeded(forms', first.state, eventId', index, now', fault', record', second);
  }

  /** A stored registration and store satisfy the preconditions of a sync. */
  lemma ConsistentSyncReady(events: map<EventId, Event>, nextEventId: EventId, forms: seq<Form>, st: SyncState,
                            eventId: EventId, index: nat)
    requires Consistent(events, nextEventId, forms, st.registrations, st.sheets, st.spreadsheets)
    requires index < |st.registrations|
    ensures SyncReady(st, eventId, index)
  {
    assert ValidRegistration(st.registrations[index]);
  }

  /** The write step: on the grid of the event's spreadsheet, then the sheet record. */
  method WriteAtIn(db: Db, eventId: EventId, target: int, row: seq<string>, now: Time, fault: SyncFault, record: FailureRecord)
    returns (r: Result<SyncDone, string>)
    requires db.Valid() && eventId in db.sheets && target >= 1
    modifies db
    ensures db.Valid()
    ensures var res := WriteAt(SyncState(old(db.registrations), old(db.sheets), old(db.spreadsheets)), eventId, target, row,
                               now, fault, record);
            r == res.outcome && SyncState(db.registrations, db.sheets, db.spreadsheets) == res.state
    ensures db.sheets.Keys == old(db.sheets.Keys) && db.registrations == old(db.registrations)
    ensures db.events == old(db.events) && db.forms == old(db.forms) && db.nextEventId == old(db.nextEventId)
  {
    var info := db.sheets[eventId];
    if fault.WriteFailed? {
      r := RecordFailureIn(db, eventId, fault.message, record);
      return;
    }
    var grid := db.spreadsheets[info.sheetId];
    var spreadsheets := db.spreadsheets[info.sheetId := grid.(rows := WriteRow(grid.rows, target, row))];
    var sheets := if fault.FormatFailed? then FailedOn(db.sheets, eventId, fault.message, record)
                  else db.sheets[eventId := Succeeded(info, now)];
    SheetsChangeKeepsConsistent(db.events, db.nextEventId, db.forms, db.registrations, db.sheets, db.spreadsheets,
                                sheets, spreadsheets);
    db.sheets, db.spreadsheets := sheets, spreadsheets;
    r := if fault.FormatFailed? then Err(fault.message) else Ok(WroteRow(target));
  }

  /** The step after the row is built: the target row, then the write. */
  method SyncRowIn(db: Db, eventId: EventId, index: nat, row: seq<string>, now: Time, fault: SyncFault, record: FailureRecord)
    returns (r: Result<SyncDone, string>)
    requires db.Valid() && index < |db.registrations| && eventId in db.sheets
    requires SyncReady(SyncState(db.registrations, db.sheets, db.spreadsheets), eventId, index)
    modifies db
    ensures db.Valid()
    ensures var res := SyncRow(SyncState(old(db.registrations), old(db.sheets), old(db.spreadsheets)), eventId, index, row,
                               now, fault, record);
            r == res.outcome && SyncState(db.registrations, db.sheets, db.spreadsheets) == res.state
    ensures db.sheets.Keys == old(db.sheets.Keys) && |db.registrations| == |old(db.registrations)|
    ensures db.events == old(db.events) && db.forms == old(db.forms) && db.nextEventId == old(db.nextEventId)
  {
    var reg := db.registrations[index];
    if TruthyNumber(reg.sheetRowNumber) {
      r := WriteAtIn(db, eventId, reg.sheetRowNumber.value, row, now, fault, record);
      return;
    }
    if fault.ReadFailed? {
      r := RecordFailureIn(db, eventId, fault.message, record);
      return;
    }
    var target := ColumnALength(db.spreadsheets[db.sheets[eventId].sheetId].rows) + 1;
    SavePointerIn(db, index, target, now);
    r := WriteAtIn(db, eventId, target, row, now, fault, record);
  }

  /** The failure bookkeeping on the event's sync record. */
  method RecordFailureIn(db: Db, eventId: EventId, message: string, record: FailureRecord)
    returns (r: Result<SyncDone, string>)
    requires db.Valid()
    modifies db
    ensures db.Valid()
    ensures var res := Failure(SyncState(old(db.registrations), old(db.sheets), old(db.spreadsheets)), eventId, message, record);
            r == res.outcome && SyncState(db.registrations, db.sheets, db.spreadsheets) == res.state
    ensures db.sheets.Keys == old(db.sheets.Keys) && db.registrations == old(db.registrations)
    ensures db.events == old(db.events) && db.forms == old(db.forms) && db.nextEventId == old(db.nextEventId)
  {
    var sheets := FailedOn(db.sheets, eventId, message, record);
    SheetsChangeKeepsConsistent(db.events, db.nextEventId, db.forms, db.registrations, db.sheets, db.spreadsheets,
                                sheets, db.spreadsheets);
    db.sheets := sheets;
    r := Err(message);
  }

  /** `registration.save()` with the new row pointer. */
  method SavePointerIn(db: Db, index: nat, target: int, now: Time)
    requires db.Valid() && index < |db.registrations| && target >= 1
    modifies db
    ensures db.Valid()
    ensures SyncState(db.registrations, db.sheets, db.spreadsheets)
            == SavePointer(SyncState(old(db.registrations), old(db.sheets), old(db.spreadsheets)), index, target, now)
    ensures db.events == old(db.events) && db.forms == old(db.forms) && db.nextEventId == old(db.nextEventId)
  {
    var saved := db.registrations[index].(sheetRowNumber := Some(target), updatedAt := now);
    ReplaceRegistrationKeepsConsistent(db.events, db.nextEventId, db.forms, db.registrations, db.sheets, db.spreadsheets,
                                       index, saved);
    db.registrations := db.registrations[index := saved];
  }

  /** `syncRegistrationToSheet`: reads the sheet record and the active form, builds the row,
      chooses the target row (saving it on the registration when new), writes the row and does
      the success or failure bookkeeping. */
  method SyncRegistrationToSheet(db: Db, eventId: EventId, index: nat, now: Time, fault: SyncFault, record: FailureRecord)
    returns (r: Result<SyncDone, string>)
    requires db.Valid() && index < |db.registrations|
    modifies db
    ensures db.Valid()
    ensures SyncReady(SyncState(old(db.registrations), old(db.sheets), old(db.spreadsheets)), eventId, index)
    ensures var res := Sync(old(db.forms), SyncState(old(db.registrations), old(db.sheets), old(db.spreadsheets)),
                            eventId, index, now, fault, record);
            r == res.outcome && SyncState(db.registrations, db.sheets, db.spreadsheets) == res.state
    ensures eventId !in old(db.sheets) ==> r == Ok(NoSheetRecord)
    ensures db.sheets.Keys == old(db.sheets.Keys) && |db.registrations| == |old(db.registrations)|
    ensures db.events == old(db.events) && db.forms == old(db.forms) && db.nextEventId == old(db.nextEventId)
  {
    ConsistentSyncReady(db.events, db.nextEventId, db.forms, SyncState(db.registrations, db.sheets, db.spreadsheets),
                        eventId, index);
    if eventId !in db.sheets {
      return Ok(NoSheetRecord);
    }
    var k := ActiveForm(db.forms, eventId);
    if k.None? {
      r := RecordFailureIn(db, eventId, FormNotFound, record);
      return;
    }
    var row := BuildRow(db.registrations[index], db.forms[k.value].fields);
    assert Sync(db.forms, SyncState(db.registrations, db.sheets, db.spreadsheets), eventId, index, now, fault, record)
        == SyncRow(SyncState(db.registrations, db.sheets, db.spreadsheets), eventId, index, row, now, fault, record);
    r := SyncRowIn(db, eventId, index, row, now, fault, record);
  }

  // ---------------------------------------------------------------------------------------------
  // Batch sync

  /** Positions of the event's registrations, in insertion order. */
  function EventIndices(regs: seq<Registration>, eventId: EventId): (r: seq<nat>)
    ensures forall k :: 0 <= k < |r| ==> r[k] < |regs| && regs[r[k]].eventId == eventId
    ensures forall j, k :: 0 <= j < k < |r| ==> r[j] < r[k]
  {
    if regs == [] then []
    else
      var init := regs[..|regs| - 1];
      EventIndices(init, eventId) + (if regs[|regs| - 1].eventId == eventId then [|regs| - 1] else [])
  }

  /** The event's positions are exactly those holding its registrations, as many as it counts. */
  lemma {:induction false} EventIndicesMeaning(regs: seq<Registration>, eventId: EventId)
    ensures |EventIndices(regs, eventId)| == CountFor(regs, eventId)
    ensures forall i :: 0 <= i < |regs| ==> (i in EventIndices(regs, eventId) <==> regs[i].eventId == eventId)
  {
    if regs != [] {
      var init := regs[..|regs| - 1];
      EventIndicesMeaning(init, eventId);
      assert forall i :: 0 <= i < |init| ==> init[i] == regs[i];
    }
  }

  predicate InBounds(regs: seq<Registration>, s: seq<nat>)
  {
    forall k :: 0 <= k < |s| ==> s[k] < |regs|
  }

  /** `sort({ submittedAt: 1 })`: non-decreasing submission times. */
  predicate BySubmission(regs: seq<Registration>, s: seq<nat>)
    requires InBounds(regs, s)
  {
    forall j, k :: 0 <= j < k < |s| ==> regs[s[j]].submittedAt <= regs[s[k]].submittedAt
  }

  /** Places `x` after every position submitted no later than it. */
  function InsertBySubmission(regs: seq<Registration>, s: seq<nat>, x: nat): (r: seq<nat>)
    requires InBounds(regs, s) && x < |regs|
    ensures InBounds(regs, r) && |r| == |s| + 1
  {
    if s == [] then [x]
    else if regs[x].submittedAt < regs[s[0]].submittedAt then [x] + s
    else [s[0]] + InsertBySubmission(regs, s[1..], x)
  }

  lemma {:induction false} InsertBySubmissionPermutes(regs: seq<Registration>, s: seq<nat>, x: nat)
    requires InBounds(regs, s) && x < |regs|
    ensures multiset(InsertBySubmission(regs, s, x)) == multiset(s) + multiset{x}
  {
    if s != [] && regs[x].submittedAt >= regs[s[0]].submittedAt {
      InsertBySubmissionPermutes(regs, s[1..], x);
      assert s == [s[0]] + s[1..];
    }
  }

  lemma {:induction false} InsertBySubmissionSorted(regs: seq<Registration>, s: seq<nat>, x: nat)
    requires InBounds(regs, s) && x < |regs| && BySubmission(regs, s)
    ensures BySubmission(regs, InsertBySubmission(regs, s, x))
  {
    if s == [] {
    } else if regs[x].submittedAt < regs[s[0]].submittedAt {
      assert NoEarlierThan(regs, regs[x].submittedAt, s) by {
        forall k | 0 <= k < |s| ensures regs[x].submittedAt <= regs[s[k]].submittedAt {
          if k > 0 {
            assert regs[s[0]].submittedAt <= regs[s[k]].submittedAt;
          }
        }
      }
      SortedCons(regs, x, s);
    } else {
      var tail := s[1..];
      assert InBounds(regs, tail);
      assert BySubmission(regs, tail) by {
        forall j, k | 0 <= j < k < |tail| ensures regs[tail[j]].submittedAt <= regs[tail[k]].submittedAt {
          assert tail[j] == s[j + 1] && tail[k] == s[k + 1];
        }
      }
      InsertBySubmissionSorted(regs, tail, x);
      assert NoEarlierThan(regs, regs[s[0]].submittedAt, tail) by {
        forall k | 0 <= k < |tail| ensures regs[s[0]].submittedAt <= regs[tail[k]].submittedAt {
          assert tail[k] == s[k + 1];
        }
      }
      InsertBySubmissionBound(regs, tail, x, regs[s[0]].submittedAt);
      SortedCons(regs, s[0], InsertBySubmission(regs, tail, x));
    }
  }

  /** No position in `s` was submitted before `t`. */
  predicate NoEarlierThan(regs: seq<Registration>, t: Time, s: seq<nat>)
    requires InBounds(regs, s)
  {
    forall k :: 0 <= k < |s| ==> t <= regs[s[k]].submittedAt
  }

  /** Inserting a position submitted no earlier than `t` keeps the lower bound `t`. */
  lemma {:induction false} InsertBySubmissionBound(regs: seq<Registration>, s: seq<nat>, x: nat, t: Time)
    requires InBounds(regs, s) && x < |regs| && NoEarlierThan(regs, t, s) && t <= regs[x].submittedAt
    ensures NoEarlierThan(regs, t, InsertBySubmission(regs, s, x))
  {
    if s != [] && regs[x].submittedAt >= regs[s[0]].submittedAt {
      var tail := s[1..];
      assert InBounds(regs, tail);
      assert NoEarlierThan(regs, t, tail) by {
        forall k | 0 <= k < |tail| ensures t <= regs[tail[k]].submittedAt {
          assert tail[k] == s[k + 1];
        }
      }
      InsertBySubmissionBound(regs, tail, x, t);
      var r := [s[0]] + InsertBySubmission(regs, tail, x);
      assert InsertBySubmission(regs, s, x) == r;
    }
  }

  /** A sorted sequence stays sorted with a position in front submitted no later than any of it. */
  lemma SortedCons(regs: seq<Registration>, a: nat, rest: seq<nat>)
    requires InBounds(regs, rest) && a < |regs| && BySubmission(regs, rest)
    requires NoEarlierThan(regs, regs[a].submittedAt, rest)
    ensures InBounds(regs, [a] + rest) && BySubmission(regs, [a] + rest)
  {
    var r := [a] + rest;
    assert InBounds(regs, r);
    forall j, k | 0 <= j < k < |r| ensures regs[r[j]].submittedAt <= regs[r[k]].submittedAt {
      assert r[k] == rest[k - 1];
      if j > 0 {
        assert r[j] == rest[j - 1];
      }
    }
  }

  /** Insertion sort of positions by submission time, stable for equal times. */
  function SortBySubmission(regs: seq<Registration>, s: seq<nat>): (r: seq<nat>)
    requires InBounds(regs, s)
    ensures InBounds(regs, r) && |r| == |s|
  {
    if s == [] then []
    else InsertBySubmission(regs, SortBySubmission(regs, s[..|s| - 1]), s[|s| - 1])
  }

  lemma {:induction false} SortBySubmissionPermutes(regs: seq<Registration>, s: seq<nat>)
    requires InBounds(regs, s)
    ensures multiset(SortBySubmission(regs, s)) == multiset(s)
  {
    if s != [] {
      var init := s[..|s| - 1];
      assert InBounds(regs, init);
      SortBySubmissionPermutes(regs, init);
      InsertBySubmissionPermutes(regs, SortBySubmission(regs, init), s[|s| - 1]);
      assert s == init + [s[|s| - 1]];
    }
  }

  lemma {:induction false} SortBySubmissionSorted(regs: seq<Registration>, s: seq<nat>)
    requires InBounds(regs, s)
    ensures BySubmission(regs, SortBySubmission(regs, s))
  {
    if s != [] {
      var init := s[..|s| - 1];
      assert InBounds(regs, init);
      SortBySubmissionSorted(regs, init);
      InsertBySubmissionSorted(regs, SortBySubmission(regs, init), s[|s| - 1]);
    }
  }

  /** The order the batch visits: the event's registrations by submission time. */
  function SubmissionOrder(regs: seq<Registration>, eventId: EventId): (r: seq<nat>)
    ensures InBounds(regs, r)
  {
    SortBySubmission(regs, EventIndices(regs, eventId))
  }

  /** The batch visits each of the event's registrations exactly once, in submission order. */
  lemma SubmissionOrderMeaning(regs: seq<Registration>, eventId: EventId)
    ensures |SubmissionOrder(regs, eventId)| == CountFor(regs, eventId)
    ensures BySubmission(regs, SubmissionOrder(regs, eventId))
    ensures forall i :: 0 <= i < |regs| ==> (i in SubmissionOrder(regs, eventId) <==> regs[i].eventId == eventId)
    ensures forall j, k :: 0 <= j < k < |SubmissionOrder(regs, eventId)| ==>
              SubmissionOrder(regs, eventId)[j] != SubmissionOrder(regs, eventId)[k]
  {
    var order := SubmissionOrder(regs, eventId);
    var idx := EventIndices(regs, eventId);
    EventIndicesMeaning(regs, eventId);
    SortBySubmissionPermutes(regs, idx);
    SortBySubmissionSorted(regs, idx);
    SameMultisetMembers(order, idx);
    DistinctFromMultiset(idx, order);
  }

  /** Two sequences with the same multiset have the same length and the same members. */
  lemma SameMultisetMembers(a: seq<nat>, b: seq<nat>)
    requires multiset(a) == multiset(b)
    ensures |a| == |b|
    ensures forall x :: x in a <==> x in b
  {
    assert |a| == |multiset(a)|;
    forall x ensures x in a <==> x in b {
      assert x in a <==> x in multiset(a);
      assert x in b <==> x in multiset(b);
    }
  }

  /** A sequence with the multiset of a strictly increasing one has no repeated element. */
  lemma DistinctFromMultiset(idx: seq<nat>, order: seq<nat>)
    requires forall j, k :: 0 <= j < k < |idx| ==> idx[j] < idx[k]
    requires multiset(order) == multiset(idx)
    ensures forall j, k :: 0 <= j < k < |order| ==> order[j] != order[k]
  {
    StrictlyIncreasingCounts(idx);
    forall j, k | 0 <= j < k < |order| ensures order[j] != order[k] {
      if order[j] == order[k] {
        TwoOccurrences(order, j, k);
        assert false;
      }
    }
  }

  lemma {:induction false} StrictlyIncreasingCounts(s: seq<nat>)
    requires forall j, k :: 0 <= j < k < |s| ==> s[j] < s[k]
    ensures forall x :: multiset(s)[x] <= 1
  {
    if s != [] {
      var init := s[..|s| - 1];
      StrictlyIncreasingCounts(init);
      assert s == init + [s[|s| - 1]];
      assert s[|s| - 1] !in init;
    }
  }

  lemma {:induction false} TwoOccurrences(s: seq<nat>, j: nat, k: nat)
    requires j < k < |s| && s[j] == s[k]
    ensures multiset(s)[s[j]] >= 2
  {
    assert s == s[..k] + [s[k]] + s[k + 1..];
    assert s[j] in s[..k];
    assert multiset(s) == multiset(s[..k]) + multiset{s[k]} + multiset(s[k + 1..]);
  }

  /** The sync preconditions for every position at once; the store invariant provides them. */
  predicate AllReady(st: SyncState, eventId: EventId)
  {
    && (forall i :: 0 <= i < |st.registrations| && st.registrations[i].sheetRowNumber.Some? ==>
          st.registrations[i].sheetRowNumber.value >= 1)
    && (eventId in st.sheets ==> st.sheets[eventId].sheetId in st.spreadsheets)
  }

  lemma ConsistentAllReady(events: map<EventId, Event>, nextEventId: EventId, forms: seq<Form>, st: SyncState,
                           eventId: EventId)
    requires Consistent(events, nextEventId, forms, st.registrations, st.sheets, st.spreadsheets)
    ensures AllReady(st, eventId)
  {
    forall i | 0 <= i < |st.registrations| && st.registrations[i].sheetRowNumber.Some?
      ensures st.registrations[i].sheetRowNumber.value >= 1
    {
      assert ValidRegistration(st.registrations[i]);
    }
  }

  /** A sync keeps every position ready, keeps the sheet records' events, and changes no
      registration but its own. */
  lemma SyncKeepsAllReady(forms: seq<Form>, st: SyncState, eventId: EventId, index: nat, now: Time,
                          fault: SyncFault, record: FailureRecord)
    requires AllReady(st, eventId) && index < |st.registrations|
    ensures var s := Sync(forms, st, eventId, index, now, fault, record).state;
            && AllReady(s, eventId)
            && |s.registrations| == |st.registrations| && s.sheets.Keys == st.sheets.Keys
            && forall j :: 0 <= j < |st.registrations| && j != index ==> s.registrations[j] == st.registrations[j]
  {
    if eventId in st.sheets && ActiveForm(forms, eventId).Some? {
      var reg := st.registrations[index];
      var row := SheetRow(reg, forms[ActiveForm(forms, eventId).value].fields);
      assert Sync(forms, st, eventId, index, now, fault, record) == SyncRow(st, eventId, index, row, now, fault, record);
      if TruthyNumber(reg.sheetRowNumber) {
        WriteAtKeepsAllReady(st, eventId, reg.sheetRowNumber.value, row, now, fault, record);
      } else if !fault.ReadFailed? {
        var target := ColumnALength(st.spreadsheets[st.sheets[eventId].sheetId].rows) + 1;
        var st' := SavePointer(st, index, target, now);
        assert AllReady(st', eventId);
        WriteAtKeepsAllReady(st', eventId, target, row, now, fault, record);
      }
    }
  }

  lemma WriteAtKeepsAllReady(st: SyncState, eventId: EventId, target: int, row: seq<string>, now: Time, fault: SyncFault,
                             record: FailureRecord)
    requires AllReady(st, eventId) && eventId in st.sheets && st.sheets[eventId].sheetId in st.spreadsheets && target >= 1
    ensures var s := WriteAt(st, eventId, target, row, now, fault, record).state;
            AllReady(s, eventId) && s.registrations == st.registrations && s.sheets.Keys == st.sheets.Keys
  {
  }

  /** The sync faults and failure bookkeeping of the `i`-th sync of a batch: none when absent. */
  function FaultAt(faults: seq<SyncFault>, i: nat): SyncFault
  {
    if i < |faults| then faults[i] else NoSyncFault
  }

  function RecordAt(records: seq<FailureRecord>, i: nat): FailureRecord
  {
    if i < |records| then records[i] else NotRecorded
  }

  /** The state and the counts after a batch over some positions. */
  datatype BatchRun = BatchRun(state: SyncState, success: nat, failed: nat)

  /** The batch as a fold: the positions of `order` synced in turn, each on the state the sync
      before it left, every `Ok` outcome counted as a success and every error as a failure. */
  function Batch(forms: seq<Form>, st: SyncState, eventId: EventId, order: seq<nat>, now: Time,
                 faults: seq<SyncFault>, records: seq<FailureRecord>): (b: BatchRun)
    requires AllReady(st, eventId) && InBounds(st.registrations, order)
    ensures AllReady(b.state, eventId)
    ensures |b.state.registrations| == |st.registrations| && b.state.sheets.Keys == st.sheets.Keys
    ensures b.success + b.failed == |order|
    decreases |order|
  {
    if order == [] then BatchRun(st, 0, 0)
    else
      var n := |order| - 1;
      assert InBounds(st.registrations, order[..n]);
      var prev := Batch(forms, st, eventId, order[..n], now, faults, records);
      SyncKeepsAllReady(forms, prev.state, eventId, order[n], now, FaultAt(faults, n), RecordAt(records, n));
      var res := Sync(forms, prev.state, eventId, order[n], now, FaultAt(faults, n), RecordAt(records, n));
      if res.outcome.Ok? then BatchRun(res.state, prev.success + 1, prev.failed)
      else BatchRun(res.state, prev.success, prev.failed + 1)
  }

  /** Without a sheet record every sync returns quietly: nothing changes and all count as
      successes. */
  lemma {:induction false} BatchWithoutSheetRecord(forms: seq<Form>, st: SyncState, eventId: EventId, order: seq<nat>,
                                                   now: Time, faults: seq<SyncFault>, records: seq<FailureRecord>)
    requires AllReady(st, eventId) && InBounds(st.registrations, order) && eventId !in st.sheets
    ensures Batch(forms, st, eventId, order, now, faults, records) == BatchRun(st, |order|, 0)
  {
    if order != [] {
      var n := |order| - 1;
      assert InBounds(st.registrations, order[..n]);
      BatchWithoutSheetRecord(forms, st, eventId, order[..n], now, faults, records);
    }
  }

  /** With a sheet record, an active form and no Google fault, every sync of the batch succeeds. */
  lemma {:induction false} BatchWithoutFaults(forms: seq<Form>, st: SyncState, eventId: EventId, order: seq<nat>,
                                              now: Time, records: seq<FailureRecord>)
    requires AllReady(st, eventId) && InBounds(st.registrations, order)
    requires eventId in st.sheets && ActiveForm(forms, eventId).Some?
    ensures Batch(forms, st, eventId, order, now, [], records).success == |order|
    ensures Batch(forms, st, eventId, order, now, [], records).failed == 0
  {
    if order != [] {
      var n := |order| - 1;
      assert InBounds(st.registrations, order[..n]);
      BatchWithoutFaults(forms, st, eventId, order[..n], now, records);
      BatchStep(forms, st, eventId, order, now, [], records, n);
      assert order[..n + 1] == order;
      var prev := Batch(forms, st, eventId, order[..n], now, [], records);
      SyncWithoutFaultSucceeds(forms, prev.state, eventId, order[n], now, RecordAt(records, n));
    }
  }

  /** With a sheet record, an active form and no Google fault, a sync writes its row. */
  lemma SyncWithoutFaultSucceeds(forms: seq<Form>, st: SyncState, eventId: EventId, index: nat, now: Time,
                                 record: FailureRecord)
    requires SyncReady(st, eventId, index) && eventId in st.sheets && ActiveForm(forms, eventId).Some?
    ensures Sync(forms, st, eventId, index, now, NoSyncFault, record).outcome.Ok?
  {
    var reg := st.registrations[index];
    var row := SheetRow(reg, forms[ActiveForm(forms, eventId).value].fields);
    assert Sync(forms, st, eventId, index, now, NoSyncFault, record) == SyncRow(st, eventId, index, row, now, NoSyncFault, record);
  }

  /** The batch over the first `i + 1` positions is the batch over the first `i`, then one sync. */
  lemma BatchStep(forms: seq<Form>, st: SyncState, eventId: EventId, order: seq<nat>, now: Time,
                  faults: seq<SyncFault>, records: seq<FailureRecord>, i: nat)
    requires AllReady(st, eventId) && InBounds(st.registrations, order) && i < |order|
    ensures InBounds(st.registrations, order[..i]) && InBounds(st.registrations, order[..i + 1])
    ensures var prev := Batch(forms, st, eventId, order[..i], now, faults, records);
            && SyncReady(prev.state, eventId, order[i])
            && var res := Sync(forms, prev.state, eventId, order[i], now, FaultAt(faults, i), RecordAt(records, i));
               Batch(forms, st, eventId, order[..i + 1], now, faults, records)
               == if res.outcome.Ok? then BatchRun(res.state, prev.success + 1, prev.failed)
                  else BatchRun(res.state, prev.success, prev.failed + 1)
  {
    var o := order[..i + 1];
    assert InBounds(st.registrations, order[..i]);
    assert InBounds(st.registrations, o);
    assert o[..|o| - 1] == order[..i] && o[|o| - 1] == order[i];
    var prev := Batch(forms, st, eventId, order[..i], now, faults, records);
    assert order[i] < |prev.state.registrations|;
  }

  /** The batch changes no registration outside the positions it visits. */
  lemma {:induction false} BatchFrame(forms: seq<Form>, st: SyncState, eventId: EventId, order: seq<nat>, now: Time,
                                      faults: seq<SyncFault>, records: seq<FailureRecord>, j: nat)
    requires AllReady(st, eventId) && InBounds(st.registrations, order)
    requires j < |st.registrations| && j !in order
    ensures Batch(forms, st, eventId, order, now, faults, records).state.registrations[j] == st.registrations[j]
  {
    if order != [] {
      var n := |order| - 1;
      assert InBounds(st.registrations, order[..n]);
      assert j !in order[..n] && j != order[n];
      BatchFrame(forms, st, eventId, order[..n], now, faults, records, j);
      var prev := Batch(forms, st, eventId, order[..n], now, faults, records);
      SyncKeepsAllReady(forms, prev.state, eventId, order[n], now, FaultAt(faults, n), RecordAt(records, n));
    }
  }

  /** Counts from a batch run. */
  datatype BatchCounts = BatchCounts(total: nat, success: nat, failed: nat)

  /** `batchSyncRegistrations`: syncs every registration of the event in submission order; a
      failing sync is counted and the batch goes on. `faults[i]` and `records[i]` describe the
      `i`-th sync's Google calls and failure bookkeeping (none when absent). The new store and
      the counts are those of the fold `Batch` over `SubmissionOrder`. */
  method BatchSyncRegistrations(db: Db, eventId: EventId, now: Time, faults: seq<SyncFault>, records: seq<FailureRecord>)
    returns (counts: BatchCounts)
    requires db.Valid()
    modifies db
    ensures db.Valid()
    ensures AllReady(SyncState(old(db.registrations), old(db.sheets), old(db.spreadsheets)), eventId)
    ensures var b := Batch(old(db.forms), SyncState(old(db.registrations), old(db.sheets), old(db.spreadsheets)), eventId,
                           SubmissionOrder(old(db.registrations), eventId), now, faults, records);
            && SyncState(db.registrations, db.sheets, db.spreadsheets) == b.state
            && counts.success == b.success && counts.failed == b.failed
    ensures counts.total == CountFor(old(db.registrations), eventId)
    ensures counts.success + counts.failed == counts.total
    ensures db.events == old(db.events) && db.forms == old(db.forms) && db.nextEventId == old(db.nextEventId)
  {
    ghost var st0 := SyncState(db.registrations, db.sheets, db.spreadsheets);
    ConsistentAllReady(db.events, db.nextEventId, db.forms, st0, eventId);
    var order := SubmissionOrder(db.registrations, eventId);
    SubmissionOrderMeaning(db.registrations, eventId);
    var success, failed := 0, 0;
    for i := 0 to |order|
      invariant db.Valid()
      invariant db.events == old(db.events) && db.forms == old(db.forms) && db.nextEventId == old(db.nextEventId)
      invariant InBounds(st0.registrations, order[..i])
      invariant Batch(db.forms, st0, eventId, order[..i], now, faults, records)
                == BatchRun(SyncState(db.registrations, db.sheets, db.spreadsheets), success, failed)
    {
      success, failed := SyncNextInBatch(db, st0, eventId, order, i, now, faults, records, success, failed);
    }
    assert order[..|order|] == order;
    counts := BatchCounts(|order|, success, failed);
  }

  /** One iteration of the batch: the sync of `order[i]`, counted. */
  method SyncNextInBatch(db: Db, ghost st0: SyncState, eventId: EventId, order: seq<nat>, i: nat, now: Time,
                         faults: seq<SyncFault>, records: seq<FailureRecord>, success: nat, failed: nat)
    returns (success': nat, failed': nat)
    requires db.Valid() && AllReady(st0, eventId) && InBounds(st0.registrations, order) && i < |order|
    requires InBounds(st0.registrations, order[..i])
    requires Batch(db.forms, st0, eventId, order[..i], now, faults, records)
             == BatchRun(SyncState(db.registrations, db.sheets, db.spreadsheets), success, failed)
    modifies db
    ensures db.Valid()
    ensures db.events == old(db.events) && db.forms == old(db.forms) && db.nextEventId == old(db.nextEventId)
    ensures InBounds(st0.registrations, order[..i + 1])
    ensures Batch(db.forms, st0, eventId, order[..i + 1], now, faults, records)
            == BatchRun(SyncState(db.registrations, db.sheets, db.spreadsheets), success', failed')
  {
    BatchStep(db.forms, st0, eventId, order, now, faults, records, i);
    ghost var before := SyncState(db.registrations, db.sheets, db.spreadsheets);
    var r := SyncRegistrationToSheet(db, eventId, order[i], now, FaultAt(faults, i), RecordAt(records, i));
    ghost var res := Sync(db.forms, before, eventId, order[i], now, FaultAt(faults, i), RecordAt(records, i));
    assert r == res.outcome && SyncState(db.registrations, db.sheets, db.spreadsheets) == res.state;
    if r.Ok? {
      success', failed' := success + 1, failed;
    } else {
      success', failed' := success, failed + 1;
    }
  }
}
