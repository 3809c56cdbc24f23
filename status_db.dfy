/** Document status as the application reads and writes it: a view of a
    `pdf_documents` row (processing, ready or error, with page progress),
    and the writers that turn such a value back into a row update. */
module StatusDb {
  import opened Text
  import opened Errors
  import DB = Database

  /** The `meta` part of a status value. */
  datatype Meta = Meta(originalName: string, uploadedAt: int)

  /** `DocumentStatusValue`: a ready document always has a page count. */
  datatype StatusValue =
    | Processing(processedPages: int, totalPages: Option<int>, meta: Option<Meta>)
    | Ready(processedPages: int, total: int, meta: Option<Meta>)
    | Failed(processedPages: int, totalPages: Option<int>, error: string, meta: Option<Meta>)

  const NotFound := "Document not found"
  const UnknownError := "Unknown error"
  const RetrieveFailed := "Failed to retrieve status"

  /** `getStatus` after the lookup: `found` is what `getPdfDocument` returned
      or threw. A lookup failure is reported, never thrown. */
  function StatusOf(found: Result<Option<DB.Row>, ErrorValue>): StatusValue {
    match found
    case Err(_) => Failed(0, None, RetrieveFailed, None)
    case Ok(None) => Failed(0, None, NotFound, None)
    case Ok(Some(row)) =>
      var meta := Some(Meta(row.originalName, row.uploadedAt));
      match row.status
      case Ready =>
        Ready(row.processedPages, if row.totalPages.None? || row.totalPages.value == 0 then 0 else row.totalPages.value, meta)
      case Error =>
        Failed(row.processedPages, row.totalPages,
               if row.error.None? || row.error.value == "" then UnknownError else row.error.value, meta)
      case Processing =>
        Processing(row.processedPages, row.totalPages, meta)
  }

  /** The status column for a value. */
  function Kind(v: StatusValue): DB.DocStatus {
    match v
    case Processing(_, _, _) => DB.Processing
    case Ready(_, _, _) => DB.Ready
    case Failed(_, _, _, _) => DB.Error
  }

  /** The `updates` `setStatus` builds: the processed count, the page count
      unless it is null or 0, and the message only for an error value. */
  function UpdatesOf(v: StatusValue): DB.Updates {
    var total := match v
                 case Ready(_, t, _) => Some(t)
                 case Processing(_, t, _) => t
                 case Failed(_, t, _, _) => t;
    DB.Updates(if v.Failed? then Some(v.error) else None,
               Some(v.processedPages),
               if total.None? || total.value == 0 then None else total)
  }

  /** The table after `setStatus(docId, v)` succeeds. */
  function Written(rows: map<string, DB.Row>, docId: string, v: StatusValue): map<string, DB.Row> {
    DB.UpdatedRows(rows, docId, Kind(v), UpdatesOf(v))
  }

  /** What reading back a written value gives: the same status and processed
      count; a null or 0 page count comes back null (0 when ready); an empty
      error message comes back as "Unknown error"; the meta is the row's. */
  function ReadBack(v: StatusValue, row: DB.Row): StatusValue {
    var meta := Some(Meta(row.originalName, row.uploadedAt));
    match v
    case Processing(p, t, _) => Processing(p, if t == Some(0) then None else t, meta)
    case Ready(p, t, _) => Ready(p, t, meta)
    case Failed(p, t, e, _) => Failed(p, if t == Some(0) then None else t, if e == "" then UnknownError else e, meta)
  }

  /** Writing a status and reading it back gives `ReadBack`. */
  lemma WriteThenRead(rows: map<string, DB.Row>, docId: string, v: StatusValue)
    requires docId in rows
    ensures StatusOf(Ok(Some(Written(rows, docId, v)[docId]))) == ReadBack(v, rows[docId])
  {
    var row := Written(rows, docId, v)[docId];
    match v
    case Processing(p, t, _) =>
      assert row.totalPages == (if t == Some(0) then None else t);
    case Ready(p, t, _) =>
    case Failed(p, t, e, _) =>
      assert row.totalPages == (if t == Some(0) then None else t);
  }

  /** So status and processed count always round-trip, and so does the page
      count except that 0 and null are both read back as null. */
  lemma RoundTrip(rows: map<string, DB.Row>, docId: string, v: StatusValue)
    requires docId in rows
    ensures var r := StatusOf(Ok(Some(Written(rows, docId, v)[docId])));
            && Kind(r) == Kind(v) && r.processedPages == v.processedPages
            && (v.Ready? ==> r.total == v.total)
            && (!v.Ready? && v.totalPages != Some(0) ==> r.totalPages == v.totalPages)
            && (!v.Ready? && v.totalPages == Some(0) ==> r.totalPages.None?)
            && (v.Failed? && v.error != "" ==> r.error == v.error)
  {
    WriteThenRead(rows, docId, v);
  }

  /** `meta` is never stored: values that differ only in it write the same rows. */
  lemma MetaNotStored(rows: map<string, DB.Row>, docId: string, v: StatusValue, meta: Option<Meta>)
    ensures Written(rows, docId, v.(meta := meta)) == Written(rows, docId, v)
  {
  }

  /** Only an error value stores a message; any other status clears it. */
  lemma ErrorOnlyForFailed(rows: map<string, DB.Row>, docId: string, v: StatusValue)
    requires docId in rows
    ensures !v.Failed? ==> Written(rows, docId, v)[docId].error.None?
    ensures v.Failed? && v.error != "" ==> Written(rows, docId, v)[docId].error == Some(v.error)
  {
  }

  /** The lookup's outcomes: an unknown document, a lookup failure, and the
      defaults for a ready row without a count and an error row without a message. */
  lemma StatusCases(row: DB.Row, e: ErrorValue)
    ensures StatusOf(Ok(None)) == Failed(0, None, NotFound, None)
    ensures StatusOf(Err(e)) == Failed(0, None, RetrieveFailed, None)
    ensures row.status == DB.Ready && row.totalPages.None? ==> StatusOf(Ok(Some(row))).total == 0
    ensures row.status == DB.Error && row.error.None? ==> StatusOf(Ok(Some(row))).error == UnknownError
    ensures Kind(StatusOf(Ok(Some(row)))) == row.status
    ensures StatusOf(Ok(Some(row))).meta == Some(Meta(row.originalName, row.uploadedAt))
  {
  }

  /** `getStatus`: never throws. */
  method GetStatus(table: DB.PdfTable, docId: string, fault: Option<ErrorValue>) returns (v: StatusValue)
    ensures fault.Some? ==> v == Failed(0, None, RetrieveFailed, None)
    ensures fault.None? && docId !in table.rows ==> v == Failed(0, None, NotFound, None)
    ensures fault.None? && docId in table.rows ==> v == StatusOf(Ok(Some(table.rows[docId])))
  {
    var found := table.Get(docId, fault);
    v := StatusOf(found);
  }

  /** `setStatus`: one update of the row; a failure is rethrown. */
  method SetStatus(table: DB.PdfTable, docId: string, v: StatusValue, fault: Option<ErrorValue>)
    returns (thrown: Option<ErrorValue>)
    requires table.Valid()
    modifies table
    ensures table.Valid()
    ensures fault.Some? ==> thrown == fault && table.rows == old(table.rows)
    ensures fault.None? ==> thrown.None? && table.rows == Written(old(table.rows), docId, v)
  {
    thrown := table.Update(docId, Kind(v), UpdatesOf(v), fault);
  }

  /** `setProcessing`, with its defaults of 0 pages processed of an unknown count. */
  method SetProcessing(table: DB.PdfTable, docId: string, fault: Option<ErrorValue>,
                       processedPages: int := 0, totalPages: Option<int> := None, meta: Option<Meta> := None)
    returns (thrown: Option<ErrorValue>)
    requires table.Valid()
    modifies table
    ensures table.Valid()
    ensures fault.Some? ==> thrown == fault && table.rows == old(table.rows)
    ensures fault.None? ==>
              thrown.None? && table.rows == Written(old(table.rows), docId, Processing(processedPages, totalPages, meta))
  {
    thrown := SetStatus(table, docId, Processing(processedPages, totalPages, meta), fault);
  }

  method SetReady(table: DB.PdfTable, docId: string, fault: Option<ErrorValue>,
                  processedPages: int, totalPages: int, meta: Option<Meta> := None)
    returns (thrown: Option<ErrorValue>)
    requires table.Valid()
    modifies table
    ensures table.Valid()
    ensures fault.Some? ==> thrown == fault && table.rows == old(table.rows)
    ensures fault.None? ==>
              thrown.None? && table.rows == Written(old(table.rows), docId, Ready(processedPages, totalPages, meta))
  {
    thrown := SetStatus(table, docId, Ready(processedPages, totalPages, meta), fault);
  }

  /** `setError`, with the same defaults as `setProcessing`. */
  method SetError(table: DB.PdfTable, docId: string, fault: Option<ErrorValue>, error: string,
                  processedPages: int := 0, totalPages: Option<int> := None, meta: Option<Meta> := None)
    returns (thrown: Option<ErrorValue>)
    requires table.Valid()
    modifies table
    ensures table.Valid()
    ensures fault.Some? ==> thrown == fault && table.rows == old(table.rows)
    ensures fault.None? ==>
              thrown.None? && table.rows == Written(old(table.rows), docId, Failed(processedPages, totalPages, error, meta))
  {
    thrown := SetStatus(table, docId, Failed(processedPages, totalPages, error, meta), fault);
  }

  /** The state a fresh row is in: `setProcessing` with its defaults leaves it as it is. */
  lemma ProcessingKeepsNewRow(rows: map<string, DB.Row>, docId: string, originalName: string, fileSize: int,
                              blobUrl: string, uploadedAt: int, meta: Option<Meta>)
    ensures var t := DB.Inserted(rows, docId, originalName, fileSize, blobUrl, uploadedAt);
            Written(t, docId, Processing(0, None, meta)) == t
  {
    var t := DB.Inserted(rows, docId, originalName, fileSize, blobUrl, uploadedAt);
    assert DB.Updated(t[docId], DB.Processing, UpdatesOf(Processing(0, None, meta))) == t[docId];
  }
}
