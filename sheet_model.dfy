/** The per-event sync record and the abstract spreadsheet it points at. */
module SheetModel {
  import opened Wrappers
  import opened Timestamps

  datatype SyncStatus = SyncSuccess | SyncFailed | SyncPending

  /** The sync record of one event (the `eventId` is the key it is stored under). */
  datatype SheetRecord = SheetRecord(
    sheetId: string,
    sheetUrl: string,
    columnMapping: map<string, string>,
    lastSyncStatus: SyncStatus,
    lastSyncError: Option<string>,
    lastSyncedAt: Option<Time>,
    nextSyncAt: Option<Time>,
    totalRowsSynced: nat,
    failedSyncCount: nat)

  /** A record with every path at its schema default. */
  function NewSheetRecord(sheetId: string, sheetUrl: string, columnMapping: map<string, string>): (r: SheetRecord)
    ensures r.lastSyncStatus == SyncPending
    ensures r.lastSyncError == None && r.lastSyncedAt == None && r.nextSyncAt == None
    ensures r.totalRowsSynced == 0 && r.failedSyncCount == 0
    ensures r.sheetId == sheetId && r.sheetUrl == sheetUrl && r.columnMapping == columnMapping
  {
    SheetRecord(sheetId, sheetUrl, columnMapping, SyncPending, None, None, None, 0, 0)
  }

  /** One spreadsheet with its single tab; row k (1-based) is `rows[k - 1]`. */
  datatype Spreadsheet = Spreadsheet(title: string, rowCount: nat, columnCount: nat, rows: seq<seq<string>>)
}
