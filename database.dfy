/** The `pdf_documents` table: one row per uploaded PDF, keyed by `doc_id`,
    holding its name, size, storage URL and processing status. The table is
    a map in a class; a failing database call is a `fault` parameter, and
    the clock (`NOW()`) is the `uploadedAt` value the caller passes. */
module Database {
  import opened Text
  import opened Errors

  datatype DocStatus = Processing | Ready | Error

  datatype Row = Row(docId: string, originalName: string, fileSize: int, blobUrl: string,
                     status: DocStatus, error: Option<string>, processedPages: int,
                     totalPages: Option<int>, uploadedAt: int)

  /** The optional fields of a status update; None is a missing property. */
  datatype Updates = Updates(error: Option<string>, processedPages: Option<int>, totalPages: Option<int>)

  /** What PostgreSQL throws for a second row with the same primary key. */
  const DuplicateKey := NewError("duplicate key value violates unique constraint \"pdf_documents_pkey\"")

  /** Every row is stored under its own `docId`. */
  ghost predicate Keyed(rows: map<string, Row>) {
    forall id :: id in rows ==> rows[id].docId == id
  }

  /** A fresh row: processing, no pages processed, no page count, no error. */
  function NewRow(docId: string, originalName: string, fileSize: int, blobUrl: string, uploadedAt: int): Row {
    Row(docId, originalName, fileSize, blobUrl, Processing, None, 0, None, uploadedAt)
  }

  /** `updates.error || null`: an absent or empty message stores NULL. */
  function ErrorColumn(e: Option<string>): Option<string> {
    if e.None? || e.value == "" then None else e
  }

  /** `updates.processedPages || 0`. */
  function ProcessedColumn(p: Option<int>): int {
    if p.None? || p.value == 0 then 0 else p.value
  }

  /** `updates.totalPages || null`: an absent or zero count stores NULL. */
  function TotalColumn(t: Option<int>): Option<int> {
    if t.None? || t.value == 0 then None else t
  }

  /** The row after `UPDATE … SET status, error, processed_pages, total_pages`. */
  function Updated(row: Row, status: DocStatus, u: Updates): Row {
    row.(status := status, error := ErrorColumn(u.error), processedPages := ProcessedColumn(u.processedPages),
         totalPages := TotalColumn(u.totalPages))
  }

  function Inserted(rows: map<string, Row>, docId: string, originalName: string, fileSize: int,
                    blobUrl: string, uploadedAt: int): map<string, Row> {
    rows[docId := NewRow(docId, originalName, fileSize, blobUrl, uploadedAt)]
  }

  /** `UPDATE … WHERE doc_id = docId`: no row matches an unknown id. */
  function UpdatedRows(rows: map<string, Row>, docId: string, status: DocStatus, u: Updates): map<string, Row> {
    if docId in rows then rows[docId := Updated(rows[docId], status, u)] else rows
  }

  function Deleted(rows: map<string, Row>, docId: string): map<string, Row> {
    rows - {docId}
  }

  // ---------------------------------------------------------------------------
  // The listing `ORDER BY uploaded_at DESC`

  predicate NewestFirst(list: seq<Row>) {
    forall i, j :: 0 <= i < j < |list| ==> list[i].uploadedAt >= list[j].uploadedAt
  }

  predicate DistinctIds(list: seq<Row>) {
    forall i, j :: 0 <= i < j < |list| ==> list[i].docId != list[j].docId
  }

  function Ids(list: seq<Row>): set<string> {
    set i | 0 <= i < |list| :: list[i].docId
  }

  /** `list` holds every row of the table once, newest first. */
  ghost predicate ListingOf(rows: map<string, Row>, list: seq<Row>) {
    && DistinctIds(list)
    && (forall i :: 0 <= i < |list| ==> list[i].docId in rows && rows[list[i].docId] == list[i])
    && Ids(list) == rows.Keys
    && NewestFirst(list)
  }

  /** Where a row goes in a newest-first list: after every strictly newer row. */
  function Position(r: Row, list: seq<Row>): (p: nat)
    ensures p <= |list|
  {
    if list == [] || list[0].uploadedAt <= r.uploadedAt then 0 else 1 + Position(r, list[1..])
  }

  lemma {:induction false} PositionSplits(r: Row, list: seq<Row>)
    ensures forall i :: 0 <= i < Position(r, list) ==> list[i].uploadedAt > r.uploadedAt
    ensures Position(r, list) < |list| ==> list[Position(r, list)].uploadedAt <= r.uploadedAt
  {
    if list != [] && list[0].uploadedAt > r.uploadedAt {
      PositionSplits(r, list[1..]);
      forall i | 0 < i < Position(r, list) ensures list[i].uploadedAt > r.uploadedAt {
        assert list[i] == list[1..][i - 1];
      }
    }
  }

  function InsertNewest(r: Row, list: seq<Row>): seq<Row> {
    list[..Position(r, list)] + [r] + list[Position(r, list)..]
  }

  /** Where everything lands: the row at its position, the rows before it
      in place, the rows after it one further on. */
  lemma InsertShape(r: Row, list: seq<Row>)
    ensures var p, l := Position(r, list), InsertNewest(r, list);
            && |l| == |list| + 1 && l[p] == r
            && (forall i :: 0 <= i < p ==> l[i] == list[i])
            && (forall i :: p < i < |l| ==> l[i] == list[i - 1])
  {
  }

  /** Inserting keeps the list newest first. */
  lemma InsertOrdered(r: Row, list: seq<Row>)
    requires NewestFirst(list)
    ensures NewestFirst(InsertNewest(r, list))
  {
    var p, l := Position(r, list), InsertNewest(r, list);
    InsertShape(r, list);
    PositionSplits(r, list);
    forall i, j | 0 <= i < j < |l| ensures l[i].uploadedAt >= l[j].uploadedAt {
      if i == p && j > p {
        assert list[j - 1].uploadedAt <= list[p].uploadedAt;
      }
    }
  }

  /** Inserting adds exactly the row's id. */
  lemma InsertIds(r: Row, list: seq<Row>)
    ensures Ids(InsertNewest(r, list)) == Ids(list) + {r.docId}
  {
    var p, l := Position(r, list), InsertNewest(r, list);
    InsertShape(r, list);
    forall id | id in Ids(l) ensures id in Ids(list) + {r.docId} {
      var i :| 0 <= i < |l| && l[i].docId == id;
      if i < p {
        assert list[i].docId == id;
      } else if i > p {
        assert list[i - 1].docId == id;
      }
    }
    forall id | id in Ids(list) ensures id in Ids(l) {
      var i :| 0 <= i < |list| && list[i].docId == id;
      if i < p {
        assert l[i].docId == id;
      } else {
        assert l[i + 1].docId == id;
      }
    }
    assert l[p].docId == r.docId;
  }

  /** Inserting a row with a new id keeps the ids distinct. */
  lemma InsertDistinct(r: Row, list: seq<Row>)
    requires DistinctIds(list) && r.docId !in Ids(list)
    ensures DistinctIds(InsertNewest(r, list))
  {
    var p, l := Position(r, list), InsertNewest(r, list);
    InsertShape(r, list);
    forall i, j | 0 <= i < j < |l| ensures l[i].docId != l[j].docId {
      if i == p {
        assert l[j].docId == list[j - 1].docId;
      } else if j == p {
        assert l[i].docId == list[i].docId;
      } else {
        var i', j' := if i < p then i else i - 1, if j < p then j else j - 1;
        assert l[i] == list[i'] && l[j] == list[j'];
      }
    }
  }

  /** Every entry is the inserted row or an entry from before. */
  lemma InsertMembers(r: Row, list: seq<Row>)
    ensures forall i :: 0 <= i < |InsertNewest(r, list)| ==>
              InsertNewest(r, list)[i] == r || InsertNewest(r, list)[i] in list
  {
    InsertShape(r, list);
  }

  /** After some of the table's rows are listed: the rows still `left` and
      the listed ids split the table's keys. */
  ghost predicate Partial(rows: map<string, Row>, list: seq<Row>, left: map<string, Row>) {
    && left.Keys <= rows.Keys
    && (forall id :: id in left ==> left[id] == rows[id])
    && Ids(list) !! left.Keys && Ids(list) + left.Keys == rows.Keys
    && DistinctIds(list) && NewestFirst(list)
    && (forall i :: 0 <= i < |list| ==> list[i].docId in rows && rows[list[i].docId] == list[i])
  }

  lemma PartialStep(rows: map<string, Row>, list: seq<Row>, left: map<string, Row>, id: string)
    requires Keyed(rows) && Partial(rows, list, left) && id in left
    ensures Partial(rows, InsertNewest(rows[id], list), left - {id})
  {
    var row := rows[id];
    var l := InsertNewest(row, list);
    InsertOrdered(row, list);
    InsertIds(row, list);
    InsertDistinct(row, list);
    InsertMembers(row, list);
    forall i | 0 <= i < |l| ensures l[i].docId in rows && rows[l[i].docId] == l[i] {
      if l[i] != row {
        var k :| 0 <= k < |list| && list[k] == l[i];
      }
    }
  }

  /** A list with distinct ids is as long as its set of ids. */
  lemma {:induction false} DistinctIdsCount(list: seq<Row>)
    requires DistinctIds(list)
    ensures |Ids(list)| == |list|
  {
    if list != [] {
      var init := list[..|list| - 1];
      assert DistinctIds(init) by {
        forall i, j | 0 <= i < j < |init| ensures init[i].docId != init[j].docId {
          assert init[i] == list[i] && init[j] == list[j];
        }
      }
      DistinctIdsCount(init);
      assert Ids(list) == Ids(init) + {list[|list| - 1].docId} by {
        forall id | id in Ids(list) ensures id in Ids(init) + {list[|list| - 1].docId} {
          var i :| 0 <= i < |list| && list[i].docId == id;
          if i < |list| - 1 {
            assert init[i] == list[i];
          }
        }
        forall id | id in Ids(init) ensures id in Ids(list) {
          var i :| 0 <= i < |init| && init[i].docId == id;
          assert list[i] == init[i];
        }
      }
      assert list[|list| - 1].docId !in Ids(init) by {
        forall i | 0 <= i < |init| ensures init[i].docId != list[|list| - 1].docId {
          assert init[i] == list[i];
        }
      }
    }
  }

  /** A listing has exactly one entry per row of the table. */
  lemma ListingLength(rows: map<string, Row>, list: seq<Row>)
    requires ListingOf(rows, list)
    ensures |list| == |rows|
  {
    DistinctIdsCount(list);
    assert |rows.Keys| == |rows|;
  }

  // ---------------------------------------------------------------------------
  // The table

  class PdfTable {
    var rows: map<string, Row>

    ghost predicate Valid()
      reads this
    {
      Keyed(rows)
    }

    constructor ()
      ensures rows == map[] && Valid()
    {
      rows := map[];
    }

    /** `createPdfDocument`: inserts a processing row; a taken `docId` violates
        the primary key, and any failure is rethrown with the table unchanged. */
    method Create(docId: string, originalName: string, fileSize: int, blobUrl: string, uploadedAt: int,
                  fault: Option<ErrorValue>) returns (thrown: Option<ErrorValue>)
      requires Valid()
      modifies this
      ensures Valid()
      ensures fault.Some? ==> thrown == fault && rows == old(rows)
      ensures fault.None? && docId in old(rows) ==> thrown == Some(DuplicateKey) && rows == old(rows)
      ensures fault.None? && docId !in old(rows) ==>
                thrown.None? && rows == Inserted(old(rows), docId, originalName, fileSize, blobUrl, uploadedAt)
    {
      if fault.Some? {
        return fault;
      }
      if docId in rows {
        return Some(DuplicateKey);
      }
      rows := Inserted(rows, docId, originalName, fileSize, blobUrl, uploadedAt);
      thrown := None;
    }

    /** `getPdfDocument`: the row, or null for an unknown id. */
    method Get(docId: string, fault: Option<ErrorValue>) returns (r: Result<Option<Row>, ErrorValue>)
      ensures fault.Some? ==> r == Err(fault.value)
      ensures fault.None? && docId in rows ==> r == Ok(Some(rows[docId]))
      ensures fault.None? && docId !in rows ==> r == Ok(None)
    {
      if fault.Some? {
        return Err(fault.value);
      }
      if docId in rows {
        r := Ok(Some(rows[docId]));
      } else {
        r := Ok(None);
      }
    }

    /** `getAllPdfDocuments`: every row once, newest upload first. */
    method GetAll(fault: Option<ErrorValue>) returns (r: Result<seq<Row>, ErrorValue>)
      requires Valid()
      ensures fault.Some? ==> r == Err(fault.value)
      ensures fault.None? ==> r.Ok? && ListingOf(rows, r.value)
    {
      if fault.Some? {
        return Err(fault.value);
      }
      var list: seq<Row> := [];
      var left := rows;
      while left != map[]
        invariant Partial(rows, list, left)
        decreases |left|
      {
        var id :| id in left;
        PartialStep(rows, list, left, id);
        list := InsertNewest(rows[id], list);
        left := left - {id};
      }
      assert left.Keys == {};
      r := Ok(list);
    }

    /** `updatePdfDocumentStatus`: sets the status and the three progress
        columns of that one row, with JavaScript's falsy values stored as
        NULL (error, total) or 0 (processed). */
    method Update(docId: string, status: DocStatus, u: Updates, fault: Option<ErrorValue>)
      returns (thrown: Option<ErrorValue>)
      requires Valid()
      modifies this
      ensures Valid()
      ensures fault.Some? ==> thrown == fault && rows == old(rows)
      ensures fault.None? ==> thrown.None? && rows == UpdatedRows(old(rows), docId, status, u)
    {
      if fault.Some? {
        return fault;
      }
      rows := UpdatedRows(rows, docId, status, u);
      thrown := None;
    }

    /** `deletePdfDocument`: false for an unknown id, else the row is removed and true. */
    method Delete(docId: string, fault: Option<ErrorValue>) returns (r: Result<bool, ErrorValue>)
      requires Valid()
      modifies this
      ensures Valid()
      ensures fault.Some? ==> r == Err(fault.value) && rows == old(rows)
      ensures fault.None? ==> r == Ok(docId in old(rows)) && rows == Deleted(old(rows), docId)
    {
      if fault.Some? {
        return Err(fault.value);
      }
      if docId !in rows {
        assert Deleted(rows, docId) == rows;
        return Ok(false);
      }
      rows := Deleted(rows, docId);
      r := Ok(true);
    }
  }

  // ---------------------------------------------------------------------------
  // What the operations do to the table

  /** A created row reads back as processing, 0 of unknown pages, no error,
      with the given name, size, URL and time; no other row changes. */
  lemma CreatedRow(rows: map<string, Row>, docId: string, originalName: string, fileSize: int,
                   blobUrl: string, uploadedAt: int, other: string)
    requires Keyed(rows) && docId !in rows
    ensures var t := Inserted(rows, docId, originalName, fileSize, blobUrl, uploadedAt);
            && Keyed(t) && t.Keys == rows.Keys + {docId}
            && t[docId].status == Processing && t[docId].processedPages == 0
            && t[docId].totalPages.None? && t[docId].error.None?
            && t[docId].originalName == originalName && t[docId].fileSize == fileSize
            && t[docId].blobUrl == blobUrl && t[docId].uploadedAt == uploadedAt
            && (other in rows ==> t[other] == rows[other])
  {
  }

  /** An update changes only the named row, and in it only the status and the
      three progress columns; an unknown id changes nothing. */
  lemma UpdateTouchesOnlyThatRow(rows: map<string, Row>, docId: string, status: DocStatus, u: Updates, other: string)
    requires Keyed(rows)
    ensures var t := UpdatedRows(rows, docId, status, u);
            && Keyed(t) && t.Keys == rows.Keys
            && (docId !in rows ==> t == rows)
            && (other != docId && other in rows ==> t[other] == rows[other])
            && (docId in rows ==>
                  && t[docId].status == status
                  && t[docId].docId == rows[docId].docId
                  && t[docId].originalName == rows[docId].originalName
                  && t[docId].fileSize == rows[docId].fileSize
                  && t[docId].blobUrl == rows[docId].blobUrl
                  && t[docId].uploadedAt == rows[docId].uploadedAt)
  {
  }

  /** The falsy coercions: a stored error is a non-empty given message, a
      stored page count a non-zero given count, and the processed count is
      the given one or 0. */
  lemma UpdateCoercions(row: Row, status: DocStatus, u: Updates)
    ensures var r := Updated(row, status, u);
            && (r.error.Some? <==> u.error.Some? && u.error.value != "")
            && (r.error.Some? ==> r.error == u.error)
            && (r.totalPages.Some? <==> u.totalPages.Some? && u.totalPages.value != 0)
            && (r.totalPages.Some? ==> r.totalPages == u.totalPages)
            && r.processedPages == (if u.processedPages.Some? then u.processedPages.value else 0)
  {
  }

  /** Repeating an update changes nothing more. */
  lemma UpdateIdempotent(rows: map<string, Row>, docId: string, status: DocStatus, u: Updates)
    ensures UpdatedRows(UpdatedRows(rows, docId, status, u), docId, status, u) == UpdatedRows(rows, docId, status, u)
  {
  }

  /** A delete removes that row and no other. */
  lemma DeleteRemovesOnly(rows: map<string, Row>, docId: string, other: string)
    requires Keyed(rows)
    ensures var t := Deleted(rows, docId);
            && Keyed(t) && docId !in t && t.Keys == rows.Keys - {docId}
            && (docId !in rows ==> t == rows)
            && (other != docId && other in rows ==> t[other] == rows[other])
  {
  }
}
