/** Ingestion of an uploaded PDF: the row created on upload, then the
    pipeline download → parse → chunk → embed → upsert, which records its
    progress in the document's status. Storage, the PDF parser, the
    embedding service and the vector index are outcomes given as parameters;
    the chunker is the modelled one. */
module Ingest {
  import opened Text
  import opened Errors
  import DB = Database
  import StatusDb
  import Chunking

  /** The uploaded `File`: its name and size. */
  datatype File = File(name: string, size: int)

  datatype Upload = Upload(docId: string, blobUrl: string)

  datatype IngestResult = IngestResult(docId: string, totalPages: int)

  datatype Embedding = Embedding(vector: seq<real>)

  /** What is upserted per chunk. */
  datatype VectorRecord = VectorRecord(id: string, docId: string, pageStart: int, pageEnd: int,
                                       chunkIndex: nat, text: string, vector: seq<real>)

  /** `fetch(blobUrl)`: a response (with `ok` and `statusText`), or an error
      thrown by the request or by reading its body. */
  datatype Download = Fetched(ok: bool, statusText: string) | FetchThrew(error: ErrorValue)

  /** Which of the four status writes of `parseAndIndex` throw: the first
      `setProcessing`, the one with the page count, `setReady`, and the
      `setError` of the `catch`. */
  datatype WriteFaults = WriteFaults(started: Option<ErrorValue>, counted: Option<ErrorValue>,
                                     ready: Option<ErrorValue>, failed: Option<ErrorValue>)

  /** The outcomes of the external steps of one ingestion. */
  datatype Steps = Steps(download: Download, parsed: Result<seq<Chunking.PageText>, ErrorValue>,
                         embedded: Result<seq<Embedding>, ErrorValue>, upserted: Option<ErrorValue>,
                         faults: WriteFaults)

  /** What one ingestion does: its result, the status values it writes, in
      order, and the records it hands to the vector index. */
  datatype Ingestion = Ingestion(result: Result<IngestResult, ErrorValue>, writes: seq<StatusDb.StatusValue>,
                                 sent: seq<VectorRecord>)

  const IngestFallback := "Unknown error during ingestion"

  /** What reading `vector` of a missing embedding throws in Node. */
  const VectorMissing := "Cannot read properties of undefined (reading 'vector')"

  function DownloadError(statusText: string): ErrorValue {
    NewError("Failed to download PDF from blob storage: " + statusText)
  }

  /** The chunks of the parsed pages, with the chunker's default sizes. */
  function ChunksOf(docId: string, pages: seq<Chunking.PageText>): seq<Chunking.Chunk> {
    Chunking.Final(docId, pages, Chunking.DefaultTargetChars, Chunking.DefaultOverlapChars).results
  }

  /** `chunks.map((c, i) => ({ …c, vector: embeddings[i].vector }))`: throws
      when there are fewer embeddings than chunks. */
  function VectorRecords(chunks: seq<Chunking.Chunk>, embeddings: seq<Embedding>): Result<seq<VectorRecord>, ErrorValue> {
    if |embeddings| < |chunks| then Err(NewError(VectorMissing))
    else Ok(seq(|chunks|, i requires 0 <= i < |chunks| =>
              VectorRecord(chunks[i].id, chunks[i].docId, chunks[i].pageStart, chunks[i].pageEnd,
                           chunks[i].chunkIndex, chunks[i].text, embeddings[i].vector)))
  }

  /** The `catch`: the error status with the thrown message (or the
      fallback), then the rethrow. When `setError` itself throws, its error
      is what escapes and nothing more is written. */
  function Fail(e: ErrorValue, failed: Option<ErrorValue>, writes: seq<StatusDb.StatusValue>,
                sent: seq<VectorRecord>): Ingestion {
    if failed.Some? then Ingestion(Err(failed.value), writes, sent)
    else Ingestion(Err(e), writes + [StatusDb.Failed(0, None, MessageOr(e, IngestFallback), None)], sent)
  }

  /** The download succeeded and the parser returned pages. */
  predicate PagesParsed(steps: Steps) {
    steps.download.Fetched? && steps.download.ok && steps.parsed.Ok?
  }

  /** The chunks an ingestion embeds: those of the parsed pages, if any. */
  function ChunksFor(docId: string, steps: Steps): seq<Chunking.Chunk> {
    if steps.parsed.Ok? then ChunksOf(docId, steps.parsed.value) else []
  }

  /** `parseAndIndex` on the given step outcomes, once the parsed pages
      (if any) have been cut into `chunks`. */
  function Outcome(docId: string, steps: Steps, chunks: seq<Chunking.Chunk>): Ingestion {
    var f := steps.faults;
    var start := StatusDb.Processing(0, None, None);
    if f.started.Some? then Fail(f.started.value, f.failed, [], [])
    else
      match steps.download
      case FetchThrew(e) => Fail(e, f.failed, [start], [])
      case Fetched(ok, statusText) =>
        if !ok then Fail(DownloadError(statusText), f.failed, [start], [])
        else
          match steps.parsed
          case Err(e) => Fail(e, f.failed, [start], [])
          case Ok(pages) =>
            if f.counted.Some? then Fail(f.counted.value, f.failed, [start], [])
            else
              var counted := [start, StatusDb.Processing(0, Some(|pages|), None)];
              match steps.embedded
              case Err(e) => Fail(e, f.failed, counted, [])
              case Ok(embeddings) =>
                match VectorRecords(chunks, embeddings)
                case Err(e) => Fail(e, f.failed, counted, [])
                case Ok(records) =>
                  if steps.upserted.Some? then Fail(steps.upserted.value, f.failed, counted, records)
                  else if f.ready.Some? then Fail(f.ready.value, f.failed, counted, records)
                  else Ingestion(Ok(IngestResult(docId, |pages|)), counted + [StatusDb.Ready(|pages|, |pages|, None)], records)
  }

  /** `parseAndIndex` on the given step outcomes, with the modelled chunker. */
  function Run(docId: string, steps: Steps): Ingestion {
    Outcome(docId, steps, ChunksFor(docId, steps))
  }

  /** Every step succeeded: the progress writes, the download, the parser
      and the embedder, there is an embedding per chunk, and the upsert and
      the `ready` write went through. */
  predicate Succeeded(docId: string, steps: Steps) {
    && steps.faults.started.None? && steps.faults.counted.None? && steps.faults.ready.None?
    && PagesParsed(steps)
    && steps.embedded.Ok? && |steps.embedded.value| >= |ChunksOf(docId, steps.parsed.value)|
    && steps.upserted.None?
  }

  /** The progress writes that succeed before a failing ingestion gives up:
      none when the first one throws, the start alone when the download, the
      parse or the page-count write fails, and both otherwise. */
  function Progress(steps: Steps): seq<StatusDb.StatusValue> {
    if steps.faults.started.Some? then []
    else if !PagesParsed(steps) || steps.faults.counted.Some? then [StatusDb.Processing(0, None, None)]
    else [StatusDb.Processing(0, None, None), StatusDb.Processing(0, Some(|steps.parsed.value|), None)]
  }

  /** The table after a sequence of status writes to one document. */
  function Applied(rows: map<string, DB.Row>, docId: string, writes: seq<StatusDb.StatusValue>): (r: map<string, DB.Row>)
    ensures r.Keys == rows.Keys
  {
    if writes == [] then rows
    else StatusDb.Written(Applied(rows, docId, writes[..|writes| - 1]), docId, writes[|writes| - 1])
  }

  // ---------------------------------------------------------------------------
  // The operations

  /** `saveUploadedPdf`: `docId` is the fresh UUID and `now` the time of the
      insert; `blob` is what the upload returns or throws, and the faults are
      the database calls' failures. Nothing is caught. */
  method SaveUploadedPdf(table: DB.PdfTable, docId: string, file: File, blob: Result<string, ErrorValue>, now: int,
                         initFault: Option<ErrorValue>, createFault: Option<ErrorValue>,
                         statusFault: Option<ErrorValue>)
    returns (r: Result<Upload, ErrorValue>)
    requires table.Valid()
    modifies table
    ensures table.Valid()
    ensures r.Ok? <==> initFault.None? && blob.Ok? && createFault.None? && docId !in old(table.rows) && statusFault.None?
    ensures r.Ok? ==> r.value == Upload(docId, blob.value)
    ensures initFault.Some? ==> r == Err(initFault.value)
    ensures initFault.None? && blob.Err? ==> r == Err(blob.error)
    ensures initFault.None? && blob.Ok? && createFault.Some? ==> r == Err(createFault.value)
    ensures initFault.None? && blob.Ok? && createFault.None? && docId in old(table.rows) ==> r == Err(DB.DuplicateKey)
    ensures initFault.None? && blob.Ok? && createFault.None? && docId !in old(table.rows) && statusFault.Some?
            ==> r == Err(statusFault.value)
    ensures initFault.None? && blob.Ok? && createFault.None? && docId !in old(table.rows)
            ==> table.rows == DB.Inserted(old(table.rows), docId, file.name, file.size, blob.value, now)
    ensures !(initFault.None? && blob.Ok? && createFault.None? && docId !in old(table.rows))
            ==> table.rows == old(table.rows)
  {
    if initFault.Some? {
      return Err(initFault.value);
    }
    if blob.Err? {
      return Err(blob.error);
    }
    var blobUrl := blob.value;
    ghost var before := table.rows;
    var thrown := table.Create(docId, file.name, file.size, blobUrl, now, createFault);
    if thrown.Some? {
      return Err(thrown.value);
    }
    StatusDb.ProcessingKeepsNewRow(before, docId, file.name, file.size, blobUrl, now,
                                   Some(StatusDb.Meta(file.name, now)));
    thrown := StatusDb.SetProcessing(table, docId, statusFault, 0, None, Some(StatusDb.Meta(file.name, now)));
    if thrown.Some? {
      return Err(thrown.value);
    }
    r := Ok(Upload(docId, blobUrl));
  }

  /** `parseAndIndex`: returns what `Run` says, makes the status writes it
      lists (a write that throws changes nothing), and runs the chunker. */
  method ParseAndIndex(table: DB.PdfTable, docId: string, blobUrl: string, steps: Steps)
    returns (r: Result<IngestResult, ErrorValue>, writes: seq<StatusDb.StatusValue>, sent: seq<VectorRecord>)
    requires table.Valid()
    modifies table
    ensures table.Valid()
    ensures Ingestion(r, writes, sent) == Run(docId, steps)
    ensures table.rows == Applied(old(table.rows), docId, writes)
  {
    ghost var rows0 := table.rows;
    var thrown := StatusDb.SetProcessing(table, docId, steps.faults.started);
    writes := [];
    if thrown.None? {
      var start := StatusDb.Processing(0, None, None);
      AppliedSnoc(rows0, docId, [], start);
      writes := [start];
      if steps.download.FetchThrew? {
        thrown := Some(steps.download.error);
      } else if !steps.download.ok {
        thrown := Some(DownloadError(steps.download.statusText));
      } else if steps.parsed.Err? {
        thrown := Some(steps.parsed.error);
      }
    }
    if thrown.None? {
      r, writes, sent := IndexPages(table, docId, steps, rows0, writes);
    } else {
      FailsBeforeParse(docId, steps, [], thrown.value, writes);
      RunIsOutcome(docId, steps, []);
      r, writes := RecordFailure(table, docId, thrown.value, steps.faults.failed, rows0, writes);
      sent := [];
    }
  }

  /** The `try` block once the pages are parsed: the page count is recorded
      and the pages are chunked, embedded and upserted. */
  method IndexPages(table: DB.PdfTable, docId: string, steps: Steps,
                    ghost rows0: map<string, DB.Row>, writes0: seq<StatusDb.StatusValue>)
    returns (r: Result<IngestResult, ErrorValue>, writes: seq<StatusDb.StatusValue>, sent: seq<VectorRecord>)
    requires PagesParsed(steps) && steps.faults.started.None?
    requires table.Valid() && table.rows == Applied(rows0, docId, writes0)
    requires writes0 == [StatusDb.Processing(0, None, None)]
    modifies table
    ensures table.Valid()
    ensures Ingestion(r, writes, sent) == Run(docId, steps)
    ensures table.rows == Applied(rows0, docId, writes)
  {
    var pages := steps.parsed.value;
    var counted := StatusDb.Processing(0, Some(|pages|), None);
    var thrown := StatusDb.SetProcessing(table, docId, steps.faults.counted, 0, Some(|pages|));
    if thrown.Some? {
      CountFails(docId, steps, []);
      RunIsOutcome(docId, steps, []);
      r, writes := RecordFailure(table, docId, thrown.value, steps.faults.failed, rows0, writes0);
      sent := [];
      return;
    }
    AppliedSnoc(rows0, docId, writes0, counted);
    var chunks := Chunking.ChunkPagesToRag(docId, pages);
    r, writes, sent := EmbedAndUpsert(table, docId, steps, chunks, rows0, writes0 + [counted]);
    RunIsOutcome(docId, steps, chunks);
  }

  /** Embedding the chunks, upserting one record per chunk and marking the
      document ready; any failure goes to the `catch`. */
  method EmbedAndUpsert(table: DB.PdfTable, docId: string, steps: Steps, chunks: seq<Chunking.Chunk>,
                        ghost rows0: map<string, DB.Row>, writes0: seq<StatusDb.StatusValue>)
    returns (r: Result<IngestResult, ErrorValue>, writes: seq<StatusDb.StatusValue>, sent: seq<VectorRecord>)
    requires PagesParsed(steps) && steps.faults.started.None? && steps.faults.counted.None?
    requires table.Valid() && table.rows == Applied(rows0, docId, writes0)
    requires writes0 == [StatusDb.Processing(0, None, None), StatusDb.Processing(0, Some(|steps.parsed.value|), None)]
    modifies table
    ensures table.Valid()
    ensures Ingestion(r, writes, sent) == Outcome(docId, steps, chunks)
    ensures table.rows == Applied(rows0, docId, writes)
  {
    var n := |steps.parsed.value|;
    sent := [];
    var thrown: Option<ErrorValue> := None;
    if steps.embedded.Err? {
      thrown := Some(steps.embedded.error);
    } else {
      var records := VectorRecords(chunks, steps.embedded.value);
      if records.Err? {
        thrown := Some(records.error);
      } else {
        sent := records.value;
        thrown := steps.upserted;
        if thrown.None? {
          var ready := StatusDb.Ready(n, n, None);
          thrown := StatusDb.SetReady(table, docId, steps.faults.ready, n, n);
          if thrown.None? {
            AppliedSnoc(rows0, docId, writes0, ready);
            writes := writes0 + [ready];
            r := Ok(IngestResult(docId, n));
            AllSucceed(docId, steps, chunks);
            return;
          }
        }
      }
    }
    FailsAfterParse(docId, steps, chunks, thrown.value, sent);
    r, writes := RecordFailure(table, docId, thrown.value, steps.faults.failed, rows0, writes0);
  }

  /** The `catch`: the error status with the thrown message (or the
      fallback) and no pages, then the rethrow, unless `setError` throws. */
  method RecordFailure(table: DB.PdfTable, docId: string, e: ErrorValue, fault: Option<ErrorValue>,
                       ghost rows0: map<string, DB.Row>, writes0: seq<StatusDb.StatusValue>)
    returns (r: Result<IngestResult, ErrorValue>, writes: seq<StatusDb.StatusValue>)
    requires table.Valid() && table.rows == Applied(rows0, docId, writes0)
    modifies table
    ensures table.Valid()
    ensures r == Fail(e, fault, writes0, []).result && writes == Fail(e, fault, writes0, []).writes
    ensures table.rows == Applied(rows0, docId, writes)
  {
    var failed := StatusDb.Failed(0, None, MessageOr(e, IngestFallback), None);
    var thrown := StatusDb.SetError(table, docId, fault, MessageOr(e, IngestFallback));
    if thrown.Some? {
      r, writes := Err(thrown.value), writes0;
    } else {
      AppliedSnoc(rows0, docId, writes0, failed);
      r, writes := Err(e), writes0 + [failed];
    }
  }

  /** `Run` is `Outcome` on any chunks that agree with the chunker's
      whenever the pipeline gets as far as chunking. */
  lemma RunIsOutcome(docId: string, steps: Steps, chunks: seq<Chunking.Chunk>)
    requires PagesParsed(steps) && steps.faults.started.None? && steps.faults.counted.None?
             ==> chunks == ChunksFor(docId, steps)
    ensures Run(docId, steps) == Outcome(docId, steps, chunks)
  {
  }

  /** `Outcome` when the first status write, the download or the parse
      fails with `e`, after the successful `writes`. */
  lemma FailsBeforeParse(docId: string, steps: Steps, chunks: seq<Chunking.Chunk>, e: ErrorValue,
                         writes: seq<StatusDb.StatusValue>)
    requires steps.faults.started.Some? ==> e == steps.faults.started.value && writes == []
    requires steps.faults.started.None? ==>
               && writes == [StatusDb.Processing(0, None, None)]
               && (steps.download.FetchThrew? ==> e == steps.download.error)
               && (steps.download.Fetched? && !steps.download.ok ==> e == DownloadError(steps.download.statusText))
               && (steps.download.Fetched? && steps.download.ok ==> steps.parsed.Err? && e == steps.parsed.error)
    ensures Outcome(docId, steps, chunks) == Fail(e, steps.faults.failed, writes, [])
  {
  }

  /** `Outcome` when the page-count write fails. */
  lemma CountFails(docId: string, steps: Steps, chunks: seq<Chunking.Chunk>)
    requires PagesParsed(steps) && steps.faults.started.None? && steps.faults.counted.Some?
    ensures Outcome(docId, steps, chunks)
            == Fail(steps.faults.counted.value, steps.faults.failed, [StatusDb.Processing(0, None, None)], [])
  {
  }

  /** `Outcome` when a step after the page count fails with `e`, once `sent`
      went to the index. */
  lemma FailsAfterParse(docId: string, steps: Steps, chunks: seq<Chunking.Chunk>, e: ErrorValue, sent: seq<VectorRecord>)
    requires PagesParsed(steps) && steps.faults.started.None? && steps.faults.counted.None?
    requires steps.embedded.Err? ==> e == steps.embedded.error && sent == []
    requires steps.embedded.Ok? ==>
               var records := VectorRecords(chunks, steps.embedded.value);
               && (records.Err? ==> e == records.error && sent == [])
               && (records.Ok? && steps.upserted.Some? ==> steps.upserted == Some(e) && sent == records.value)
               && (records.Ok? && steps.upserted.None? ==> steps.faults.ready == Some(e) && sent == records.value)
    ensures var n := |steps.parsed.value|;
            Outcome(docId, steps, chunks)
              == Fail(e, steps.faults.failed, [StatusDb.Processing(0, None, None), StatusDb.Processing(0, Some(n), None)], sent)
  {
  }

  /** `Outcome` when every step succeeds. */
  lemma AllSucceed(docId: string, steps: Steps, chunks: seq<Chunking.Chunk>)
    requires PagesParsed(steps) && steps.faults.started.None? && steps.faults.counted.None?
    requires steps.embedded.Ok? && VectorRecords(chunks, steps.embedded.value).Ok?
    requires steps.upserted.None? && steps.faults.ready.None?
    ensures var n := |steps.parsed.value|;
            Outcome(docId, steps, chunks) ==
              Ingestion(Ok(IngestResult(docId, n)),
                        [StatusDb.Processing(0, None, None), StatusDb.Processing(0, Some(n), None), StatusDb.Ready(n, n, None)],
                        VectorRecords(chunks, steps.embedded.value).value)
  {
  }

  lemma AppliedSnoc(rows: map<string, DB.Row>, docId: string, writes: seq<StatusDb.StatusValue>, v: StatusDb.StatusValue)
    ensures Applied(rows, docId, writes + [v]) == StatusDb.Written(Applied(rows, docId, writes), docId, v)
  {
    assert (writes + [v])[..|writes|] == writes;
  }

  // ---------------------------------------------------------------------------
  // What an ingestion leaves behind

  /** Status writes touch only the document's row, and the row ends as the
      last write alone makes it: each write sets every status column. */
  lemma {:induction false} LastWriteWins(rows: map<string, DB.Row>, docId: string, writes: seq<StatusDb.StatusValue>)
    requires docId in rows && writes != []
    ensures Applied(rows, docId, writes).Keys == rows.Keys
    ensures Applied(rows, docId, writes)[docId] == StatusDb.Written(rows, docId, writes[|writes| - 1])[docId]
    ensures forall other :: other in rows && other != docId ==> Applied(rows, docId, writes)[other] == rows[other]
    decreases |writes|
  {
    var init := writes[..|writes| - 1];
    if init != [] {
      LastWriteWins(rows, docId, init);
    }
  }

  /** The pipeline on success writes processing(0, null), processing(0, N)
      and ready(N, N) for the N parsed pages, returns the document and N, and
      upserts one record per chunk. */
  lemma SuccessWrites(docId: string, steps: Steps)
    requires Succeeded(docId, steps)
    ensures var ing, n := Run(docId, steps), |steps.parsed.value|;
            && ing.result == Ok(IngestResult(docId, n))
            && ing.writes == [StatusDb.Processing(0, None, None), StatusDb.Processing(0, Some(n), None),
                              StatusDb.Ready(n, n, None)]
            && ing.sent == VectorRecords(ChunksOf(docId, steps.parsed.value), steps.embedded.value).value
  {
    var chunks := ChunksFor(docId, steps);
    RunIsOutcome(docId, steps, chunks);
    AllSucceed(docId, steps, chunks);
  }

  /** Any failing step ends in the error status with the thrown message (or
      the fallback), after the progress writes that went through; the error
      is rethrown, and `ready` is never written. When `setError` throws too,
      its error escapes and the progress writes are all there is. */
  lemma FailureWrites(docId: string, steps: Steps)
    requires !Succeeded(docId, steps)
    ensures var ing := Run(docId, steps);
            && ing.result.Err?
            && (steps.faults.failed.None? ==>
                  ing.writes == Progress(steps) + [StatusDb.Failed(0, None, MessageOr(ing.result.error, IngestFallback), None)])
            && (steps.faults.failed.Some? ==> ing.writes == Progress(steps) && ing.result.error == steps.faults.failed.value)
            && (forall i :: 0 <= i < |ing.writes| ==> !ing.writes[i].Ready?)
  {
    var chunks := ChunksFor(docId, steps);
    RunIsOutcome(docId, steps, chunks);
    OutcomeFails(docId, steps, chunks);
  }

  /** `FailureWrites` for any chunks. */
  lemma OutcomeFails(docId: string, steps: Steps, chunks: seq<Chunking.Chunk>)
    requires !(&& steps.faults.started.None? && steps.faults.counted.None? && steps.faults.ready.None?
               && PagesParsed(steps) && steps.embedded.Ok? && |steps.embedded.value| >= |chunks|
               && steps.upserted.None?)
    ensures var ing := Outcome(docId, steps, chunks);
            && ing.result.Err?
            && (steps.faults.failed.None? ==>
                  ing.writes == Progress(steps) + [StatusDb.Failed(0, None, MessageOr(ing.result.error, IngestFallback), None)])
            && (steps.faults.failed.Some? ==> ing.writes == Progress(steps) && ing.result.error == steps.faults.failed.value)
  {
  }

  /** The progress writes are processing values with no page processed:
      the start, then the page count. */
  lemma ProgressShape(steps: Steps)
    ensures |Progress(steps)| <= 2
    ensures steps.faults.started.None? <==> |Progress(steps)| >= 1
    ensures |Progress(steps)| == 2 <==> steps.faults.started.None? && PagesParsed(steps) && steps.faults.counted.None?
    ensures forall i :: 0 <= i < |Progress(steps)| ==> Progress(steps)[i].Processing? && Progress(steps)[i].processedPages == 0
    ensures |Progress(steps)| >= 1 ==> Progress(steps)[0] == StatusDb.Processing(0, None, None)
  {
  }

  /** Which error is rethrown: the first failing step's, unless `setError` throws. */
  lemma FailureRethrows(docId: string, steps: Steps)
    requires steps.faults.failed.None?
    ensures steps.faults.started.Some? ==> Run(docId, steps).result == Err(steps.faults.started.value)
    ensures steps.faults.started.None? && steps.download.FetchThrew? ==>
              Run(docId, steps).result == Err(steps.download.error)
    ensures steps.faults.started.None? && steps.download.Fetched? && !steps.download.ok ==>
              Run(docId, steps).result == Err(DownloadError(steps.download.statusText))
    ensures steps.faults.started.None? && steps.download.Fetched? && steps.download.ok && steps.parsed.Err? ==>
              Run(docId, steps).result == Err(steps.parsed.error)
    ensures steps.faults.started.None? && PagesParsed(steps) && steps.faults.counted.Some? ==>
              Run(docId, steps).result == Err(steps.faults.counted.value)
    ensures steps.faults.started.None? && PagesParsed(steps) && steps.faults.counted.None? && steps.embedded.Err? ==>
              Run(docId, steps).result == Err(steps.embedded.error)
    ensures steps.faults.started.None? && PagesParsed(steps) && steps.faults.counted.None? && steps.embedded.Ok?
            && |steps.embedded.value| < |ChunksOf(docId, steps.parsed.value)| ==>
              Run(docId, steps).result == Err(NewError(VectorMissing))
    ensures Succeeded(docId, steps.(upserted := None)) && steps.upserted.Some? ==>
              Run(docId, steps).result == Err(steps.upserted.value)
    ensures Succeeded(docId, steps.(faults := steps.faults.(ready := None))) && steps.faults.ready.Some? ==>
              Run(docId, steps).result == Err(steps.faults.ready.value)
  {
    var chunks := ChunksFor(docId, steps);
    RunIsOutcome(docId, steps, chunks);
  }

  /** Ingestion leaves the document `ready` exactly when every step
      succeeded, and then it reads back as ready(N, N) for the N parsed
      pages. Otherwise it reads back as an error with no pages processed;
      if `setError` throws, as the last progress write that went through
      (processing with no page processed), or, when even the first write
      threw, as it was before. */
  lemma ReadyOnlyIfAllSucceeded(rows: map<string, DB.Row>, docId: string, steps: Steps)
    requires docId in rows
    ensures var v := StatusDb.StatusOf(Ok(Some(Applied(rows, docId, Run(docId, steps).writes)[docId])));
            && (steps.faults.started.None? || steps.faults.failed.None? ==> (v.Ready? <==> Succeeded(docId, steps)))
            && (Succeeded(docId, steps) ==> v.Ready? && v.processedPages == v.total == |steps.parsed.value|)
            && (!Succeeded(docId, steps) && steps.faults.failed.None? ==>
                  v.Failed? && v.processedPages == 0 && v.totalPages.None?)
            && (!Succeeded(docId, steps) && steps.faults.failed.Some? && steps.faults.started.None? ==>
                  v.Processing? && v.processedPages == 0)
            && (!Succeeded(docId, steps) && steps.faults.failed.Some? && steps.faults.started.Some? ==>
                  v == StatusDb.StatusOf(Ok(Some(rows[docId]))))
  {
    var writes := Run(docId, steps).writes;
    if Succeeded(docId, steps) {
      SuccessWrites(docId, steps);
      FinalStatus(rows, docId, writes);
      LastWriteRead(writes[|writes| - 1], rows[docId], |steps.parsed.value|);
    } else {
      FailureWrites(docId, steps);
      ProgressShape(steps);
      if writes != [] {
        FinalStatus(rows, docId, writes);
        LastWriteRead(writes[|writes| - 1], rows[docId], 0);
      }
    }
  }

  /** For a row that is not ready before ingestion starts, as the upload
      leaves it (processing), the stored status reads ready exactly when
      every step and every status write succeeded, whichever writes fail. */
  lemma ReadyIffAllSucceeded(rows: map<string, DB.Row>, docId: string, steps: Steps)
    requires docId in rows && rows[docId].status != DB.Ready
    ensures StatusDb.StatusOf(Ok(Some(Applied(rows, docId, Run(docId, steps).writes)[docId]))).Ready?
            <==> Succeeded(docId, steps)
  {
    ReadyOnlyIfAllSucceeded(rows, docId, steps);
    StatusDb.StatusCases(rows[docId], NewError(""));
  }

  /** Reading back the last write of an ingestion. */
  lemma LastWriteRead(last: StatusDb.StatusValue, row: DB.Row, n: nat)
    requires last == StatusDb.Ready(n, n, None) || (last.Processing? && last.processedPages == 0)
             || (last.Failed? && last.processedPages == 0 && last.totalPages.None?)
    ensures var v := StatusDb.ReadBack(last, row);
            && (v.Ready? <==> last.Ready?) && (v.Failed? <==> last.Failed?)
            && (v.Ready? ==> v.processedPages == v.total == n)
            && (v.Failed? ==> v.processedPages == 0 && v.totalPages.None?)
            && (v.Processing? ==> v.processedPages == 0)
  {
  }

  /** The document reads back as its last write. */
  lemma FinalStatus(rows: map<string, DB.Row>, docId: string, writes: seq<StatusDb.StatusValue>)
    requires docId in rows && writes != []
    ensures StatusDb.StatusOf(Ok(Some(Applied(rows, docId, writes)[docId])))
            == StatusDb.ReadBack(writes[|writes| - 1], rows[docId])
  {
    LastWriteWins(rows, docId, writes);
    StatusDb.WriteThenRead(rows, docId, writes[|writes| - 1]);
  }

  /** One record per chunk, in chunk order, copying the chunk and taking the
      embedding at the same index. */
  lemma RecordsFollowChunks(chunks: seq<Chunking.Chunk>, embeddings: seq<Embedding>)
    ensures VectorRecords(chunks, embeddings).Ok? <==> |embeddings| >= |chunks|
    ensures var r := VectorRecords(chunks, embeddings);
            r.Ok? ==> && |r.value| == |chunks|
                      && forall i :: 0 <= i < |chunks| ==>
                           && r.value[i].id == chunks[i].id && r.value[i].docId == chunks[i].docId
                           && r.value[i].pageStart == chunks[i].pageStart && r.value[i].pageEnd == chunks[i].pageEnd
                           && r.value[i].chunkIndex == chunks[i].chunkIndex && r.value[i].text == chunks[i].text
                           && r.value[i].vector == embeddings[i].vector
  {
  }
}
