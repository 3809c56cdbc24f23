/** Page-aware chunking (lib/chunk.ts): page texts are joined into a running
    buffer, each page behind a `[p.N]` marker, and the buffer is cut into
    chunks of about `targetChars` characters that overlap by `overlapChars`. */
module Chunking {
  import opened Text

  datatype PageText = PageText(pageNumber: int, text: string)

  datatype Chunk = Chunk(id: string, docId: string, pageStart: int, pageEnd: int,
                         chunkIndex: nat, text: string)

  const DefaultTargetChars: int := 2000
  const DefaultOverlapChars: int := 300

  /** The page marker `[p.N]`. */
  function Marker(n: int): (r: string)
    ensures |r| >= 5 && r[0] == '[' && r[|r| - 1] == ']'
  {
    "[p." + IntToString(n) + "]"
  }

  /** The text a page contributes to the buffer: `[p.N]\n<text>\n\n`. */
  function Block(p: PageText): (r: string)
    ensures |r| > 0 && r[0] == '['
  {
    Marker(p.pageNumber) + "\n" + p.text + "\n\n"
  }

  /** A chunk's identity `${docId}-${pageStart}-${pageEnd}-${chunkIndex}`. */
  function ChunkId(docId: string, pageStart: int, pageEnd: int, index: nat): string
  {
    docId + "-" + IntToString(pageStart) + "-" + IntToString(pageEnd) + "-" + NatToString(index)
  }

  /** `s.slice(Math.max(0, s.length - n))`: the last `n` characters of `s`,
      all of `s` when it is shorter, none when `n` is not positive. */
  function Tail(s: string, n: int): (r: string)
    ensures |r| == if n <= 0 then 0 else if n < |s| then n else |s|
    ensures r == s[|s| - |r|..]
  {
    var start := if |s| - n > 0 then |s| - n else 0;
    if start >= |s| then [] else s[start..]
  }

  function Max(a: int, b: int): int {
    if a >= b then a else b
  }

  /** `b` occurs in `s` starting at index `at`. */
  ghost predicate Occurs(s: string, at: nat, b: string) {
    at + |b| <= |s| && s[at..at + |b|] == b
  }

  predicate StrictlyIncreasing(pages: seq<PageText>) {
    forall j, k :: 0 <= j < k < |pages| ==> pages[j].pageNumber < pages[k].pageNumber
  }

  /** The variables of `chunkPagesToRag` after some pages (`results`,
      `buffer`, `rangeStart`, `rangeEnd`, `chunkIndex`), and what the model
      records beside them: every buffer the flush turned into a chunk, and for
      each page the buffer its block went into (`home`, an index into
      `flushed`, where |flushed| stands for the open buffer) and the offset
      of the block there (`at`). */
  datatype State = State(results: seq<Chunk>, buffer: string, rangeStart: int, rangeEnd: int,
                         chunkIndex: nat, flushed: seq<string>, home: seq<nat>, at: seq<nat>)

  /** The variables before the loop. */
  function Initial(pages: seq<PageText>): State {
    var first := if |pages| > 0 then pages[0].pageNumber else 1;
    State([], "", first, first, 0, [], [], [])
  }

  /** The `flush` closure: unless the buffer trims to "", its trimmed text
      becomes the next chunk, and the counter advances. */
  function Flushed(docId: string, s: State): State {
    if Trim(s.buffer) == [] then s
    else
      var c := Chunk(ChunkId(docId, s.rangeStart, s.rangeEnd, s.chunkIndex), docId,
                     s.rangeStart, s.rangeEnd, s.chunkIndex, Trim(s.buffer));
      s.(results := s.results + [c], chunkIndex := s.chunkIndex + 1, flushed := s.flushed + [s.buffer])
  }

  /** One turn of the loop, for a page with block `block` and number `pageNumber`. */
  function Step(docId: string, s: State, block: string, pageNumber: int,
                targetChars: int, overlapChars: int): State
  {
    if |s.buffer + block| > targetChars then
      var f := Flushed(docId, s);
      var overlap := Tail(s.buffer, overlapChars);
      f.(buffer := overlap + block, rangeStart := Max(s.rangeStart, s.rangeEnd), rangeEnd := pageNumber,
         home := s.home + [|f.flushed|], at := s.at + [|overlap|])
    else
      s.(buffer := s.buffer + block, rangeEnd := pageNumber,
         home := s.home + [|s.flushed|], at := s.at + [|s.buffer|])
  }

  /** The variables after the first `n` pages. */
  function Run(docId: string, pages: seq<PageText>, n: nat, targetChars: int, overlapChars: int): State
    requires n <= |pages|
  {
    if n == 0 then Initial(pages)
    else Step(docId, Run(docId, pages, n - 1, targetChars, overlapChars),
              Block(pages[n - 1]), pages[n - 1].pageNumber, targetChars, overlapChars)
  }

  /** The variables after the final flush; its `results` is what `chunkPagesToRag` returns. */
  function Final(docId: string, pages: seq<PageText>, targetChars: int, overlapChars: int): State {
    Flushed(docId, Run(docId, pages, |pages|, targetChars, overlapChars))
  }

  /** The method's variables agree with the state `s`. */
  predicate Mirrors(s: State, results: seq<Chunk>, buffer: string, rangeStart: int, rangeEnd: int,
                    chunkIndex: nat)
  {
    s.results == results && s.buffer == buffer && s.rangeStart == rangeStart
    && s.rangeEnd == rangeEnd && s.chunkIndex == chunkIndex
  }

  /** The `flush` closure on the method's variables. */
  method Flush(docId: string, buffer: string, rangeStart: int, rangeEnd: int,
               results: seq<Chunk>, chunkIndex: nat)
    returns (results': seq<Chunk>, chunkIndex': nat)
    ensures Blank(buffer) ==> results' == results && chunkIndex' == chunkIndex
    ensures !Blank(buffer) ==>
      && chunkIndex' == chunkIndex + 1
      && results' == results + [Chunk(ChunkId(docId, rangeStart, rangeEnd, chunkIndex), docId,
                                      rangeStart, rangeEnd, chunkIndex, Trim(buffer))]
  {
    results', chunkIndex' := results, chunkIndex;
    var text := Trim(buffer);
    if text == [] {
      return;
    }
    var id := ChunkId(docId, rangeStart, rangeEnd, chunkIndex);
    results' := results + [Chunk(id, docId, rangeStart, rangeEnd, chunkIndex, text)];
    chunkIndex' := chunkIndex + 1;
  }

  /** `chunkPagesToRag`: the chunks are those of the final state. */
  method ChunkPagesToRag(docId: string, pages: seq<PageText>,
                         targetChars: int := DefaultTargetChars,
                         overlapChars: int := DefaultOverlapChars)
    returns (results: seq<Chunk>)
    ensures results == Final(docId, pages, targetChars, overlapChars).results
  {
    results := [];
    var buffer: string := "";
    var rangeStart: int := if |pages| > 0 then pages[0].pageNumber else 1;
    var rangeEnd := rangeStart;
    var chunkIndex: nat := 0;

    for i := 0 to |pages|
      invariant Mirrors(Run(docId, pages, i, targetChars, overlapChars),
                        results, buffer, rangeStart, rangeEnd, chunkIndex)
    {
      ghost var s := Run(docId, pages, i, targetChars, overlapChars);
      var pageBlock := Block(pages[i]);
      RunNext(docId, pages, i, targetChars, overlapChars);
      if |buffer + pageBlock| > targetChars {
        results, chunkIndex := Flush(docId, buffer, rangeStart, rangeEnd, results, chunkIndex);
        var overlap := Tail(buffer, overlapChars);
        buffer := overlap + pageBlock;
        rangeStart := Max(rangeStart, rangeEnd);
        rangeEnd := pages[i].pageNumber;
        FlushTurn(docId, s, pageBlock, pages[i].pageNumber, targetChars, overlapChars, results, chunkIndex);
      } else {
        buffer := buffer + pageBlock;
        rangeEnd := pages[i].pageNumber;
        AppendTurn(docId, s, pageBlock, pages[i].pageNumber, targetChars, overlapChars);
      }
    }
    FlushedParts(docId, Run(docId, pages, |pages|, targetChars, overlapChars));
    results, chunkIndex := Flush(docId, buffer, rangeStart, rangeEnd, results, chunkIndex);
  }

  /** The variables after page `i + 1` are one turn of the loop on those after page `i`. */
  lemma RunNext(docId: string, pages: seq<PageText>, i: nat, targetChars: int, overlapChars: int)
    requires i < |pages|
    ensures Run(docId, pages, i + 1, targetChars, overlapChars)
         == Step(docId, Run(docId, pages, i, targetChars, overlapChars), Block(pages[i]),
                 pages[i].pageNumber, targetChars, overlapChars)
  {
  }

  /** A turn that flushes: the method's variables after `Flush`, the overlap
      and the new range agree with `Step`. */
  lemma FlushTurn(docId: string, s: State, block: string, pageNumber: int, targetChars: int, overlapChars: int,
                  results: seq<Chunk>, chunkIndex: nat)
    requires |s.buffer + block| > targetChars
    requires Blank(s.buffer) ==> results == s.results && chunkIndex == s.chunkIndex
    requires !Blank(s.buffer) ==>
      && chunkIndex == s.chunkIndex + 1
      && results == s.results + [Chunk(ChunkId(docId, s.rangeStart, s.rangeEnd, s.chunkIndex), docId,
                                       s.rangeStart, s.rangeEnd, s.chunkIndex, Trim(s.buffer))]
    ensures Mirrors(Step(docId, s, block, pageNumber, targetChars, overlapChars), results,
                    Tail(s.buffer, overlapChars) + block, Max(s.rangeStart, s.rangeEnd), pageNumber, chunkIndex)
  {
    FlushedParts(docId, s);
  }

  /** A turn that appends: only the buffer and the range end change. */
  lemma AppendTurn(docId: string, s: State, block: string, pageNumber: int, targetChars: int, overlapChars: int)
    requires |s.buffer + block| <= targetChars
    ensures Mirrors(Step(docId, s, block, pageNumber, targetChars, overlapChars), s.results,
                    s.buffer + block, s.rangeStart, pageNumber, s.chunkIndex)
  {
  }

  /** What the `flush` closure changes, in the terms of the `Flush` method. */
  lemma FlushedParts(docId: string, s: State)
    ensures Blank(s.buffer) ==>
      Flushed(docId, s).results == s.results && Flushed(docId, s).chunkIndex == s.chunkIndex
    ensures !Blank(s.buffer) ==>
      && Flushed(docId, s).chunkIndex == s.chunkIndex + 1
      && Flushed(docId, s).results == s.results + [Chunk(ChunkId(docId, s.rangeStart, s.rangeEnd, s.chunkIndex), docId,
                                                         s.rangeStart, s.rangeEnd, s.chunkIndex, Trim(s.buffer))]
  {
  }

  // ---------------------------------------------------------------------------
  // Numbering and non-blank text

  /** Chunk `c` is number `k` of `docId`, carries the composite id, and its
      text is the trimmed `buffer`, which is not blank. */
  ghost predicate ChunkOf(docId: string, c: Chunk, k: nat, buffer: string) {
    && c.chunkIndex == k && c.docId == docId
    && c.id == ChunkId(docId, c.pageStart, c.pageEnd, k)
    && c.text == Trim(buffer) && c.text != []
  }

  ghost predicate Numbered(docId: string, s: State) {
    NumberedParts(docId, s.results, s.flushed, s.chunkIndex)
  }

  /** Chunk `k` of `results` is number `k`, cut from buffer `k` of `flushed`. */
  ghost predicate NumberedParts(docId: string, results: seq<Chunk>, flushed: seq<string>, chunkIndex: nat) {
    && |results| == chunkIndex && |flushed| == |results|
    && forall k :: 0 <= k < |results| ==> ChunkOf(docId, results[k], k, flushed[k])
  }

  lemma NumberedSnoc(docId: string, results: seq<Chunk>, flushed: seq<string>, c: Chunk, buffer: string)
    requires NumberedParts(docId, results, flushed, |results|) && ChunkOf(docId, c, |results|, buffer)
    ensures NumberedParts(docId, results + [c], flushed + [buffer], |results| + 1)
  {
    var results', flushed' := results + [c], flushed + [buffer];
    forall k | 0 <= k < |results'| ensures ChunkOf(docId, results'[k], k, flushed'[k]) {
      if k < |results| {
        assert results'[k] == results[k] && flushed'[k] == flushed[k];
      }
    }
  }

  lemma FlushedNumbered(docId: string, s: State)
    requires Numbered(docId, s)
    ensures Numbered(docId, Flushed(docId, s))
  {
    if Trim(s.buffer) != [] {
      var c := Chunk(ChunkId(docId, s.rangeStart, s.rangeEnd, s.chunkIndex), docId,
                     s.rangeStart, s.rangeEnd, s.chunkIndex, Trim(s.buffer));
      assert ChunkOf(docId, c, |s.results|, s.buffer);
      NumberedSnoc(docId, s.results, s.flushed, c, s.buffer);
      assert Flushed(docId, s).results == s.results + [c];
    }
  }

  /** A turn of the loop changes the chunks, the flushed buffers and the
      counter only through a flush. */
  lemma StepResults(docId: string, s: State, block: string, pageNumber: int, targetChars: int, overlapChars: int)
    ensures var s' := Step(docId, s, block, pageNumber, targetChars, overlapChars);
            var f := if |s.buffer + block| > targetChars then Flushed(docId, s) else s;
            s'.results == f.results && s'.flushed == f.flushed && s'.chunkIndex == f.chunkIndex
  {
  }

  lemma {:induction false} RunNumbered(docId: string, pages: seq<PageText>, n: nat,
                                       targetChars: int, overlapChars: int)
    requires n <= |pages|
    ensures Numbered(docId, Run(docId, pages, n, targetChars, overlapChars))
  {
    if n > 0 {
      var s := Run(docId, pages, n - 1, targetChars, overlapChars);
      RunNumbered(docId, pages, n - 1, targetChars, overlapChars);
      StepNumbered(docId, s, Block(pages[n - 1]), pages[n - 1].pageNumber, targetChars, overlapChars);
      RunNext(docId, pages, n - 1, targetChars, overlapChars);
    }
  }

  /** One turn of the loop keeps the chunks numbered. */
  lemma StepNumbered(docId: string, s: State, block: string, pageNumber: int, targetChars: int, overlapChars: int)
    requires Numbered(docId, s)
    ensures Numbered(docId, Step(docId, s, block, pageNumber, targetChars, overlapChars))
  {
    var s' := Step(docId, s, block, pageNumber, targetChars, overlapChars);
    StepResults(docId, s, block, pageNumber, targetChars, overlapChars);
    if |s.buffer + block| > targetChars {
      FlushedNumbered(docId, s);
      var f := Flushed(docId, s);
      assert s'.results == f.results && s'.flushed == f.flushed && s'.chunkIndex == f.chunkIndex;
    } else {
      assert s'.results == s.results && s'.flushed == s.flushed && s'.chunkIndex == s.chunkIndex;
    }
  }

  /** Chunks are numbered 0, 1, 2, … in output order, all belong to `docId`
      under the composite id, and each one's text is the trimmed buffer it
      was cut from, never blank. */
  lemma ChunksNumbered(docId: string, pages: seq<PageText>, targetChars: int, overlapChars: int)
    ensures var f := Final(docId, pages, targetChars, overlapChars);
            && |f.flushed| == |f.results|
            && forall k :: 0 <= k < |f.results| ==>
                 && f.results[k].chunkIndex == k
                 && f.results[k].docId == docId
                 && f.results[k].id == ChunkId(docId, f.results[k].pageStart, f.results[k].pageEnd, k)
                 && f.results[k].text == Trim(f.flushed[k])
                 && f.results[k].text != []
  {
    RunNumbered(docId, pages, |pages|, targetChars, overlapChars);
    FlushedNumbered(docId, Run(docId, pages, |pages|, targetChars, overlapChars));
  }

  /** Once a page is in, the open buffer ends with its block, so it is not blank. */
  lemma OpenBufferNotBlank(docId: string, pages: seq<PageText>, n: nat, targetChars: int, overlapChars: int)
    requires 0 < n <= |pages|
    ensures !Blank(Run(docId, pages, n, targetChars, overlapChars).buffer)
  {
    var s := Run(docId, pages, n - 1, targetChars, overlapChars);
    var b := Block(pages[n - 1]);
    var x := if |s.buffer + b| > targetChars then Tail(s.buffer, overlapChars) else s.buffer;
    assert Run(docId, pages, n, targetChars, overlapChars).buffer == x + b;
    assert (x + b)[|x|] == '[';
  }

  /** No pages, no chunks; and any page gives at least one chunk. */
  lemma NoPagesNoChunks(docId: string, pages: seq<PageText>, targetChars: int, overlapChars: int)
    ensures pages == [] <==> Final(docId, pages, targetChars, overlapChars).results == []
  {
    if pages != [] {
      OpenBufferNotBlank(docId, pages, |pages|, targetChars, overlapChars);
    }
  }

  // ---------------------------------------------------------------------------
  // Placement of the page blocks

  /** The page blocks of `pages`, in order. */
  function BlocksOf(pages: seq<PageText>): (blocks: seq<string>)
    ensures |blocks| == |pages|
  {
    seq(|pages|, j requires 0 <= j < |pages| => Block(pages[j]))
  }

  /** Where the first `n` blocks sit: every block lies whole in its buffer (a
      flushed one, or the open one at index |flushed|), and the last block
      placed ends the open buffer. */
  ghost predicate Placed(blocks: seq<string>, flushed: seq<string>, buffer: string,
                         home: seq<nat>, at: seq<nat>, n: nat)
  {
    && n <= |blocks| && |home| == n && |at| == n
    && (n == 0 ==> buffer == [] && flushed == [])
    && (n > 0 ==> home[n - 1] == |flushed| && at[n - 1] + |blocks[n - 1]| == |buffer|)
    && forall j :: 0 <= j < n ==>
         home[j] <= |flushed| && Occurs((flushed + [buffer])[home[j]], at[j], blocks[j])
  }

  ghost predicate PlacedIn(blocks: seq<string>, s: State, n: nat) {
    Placed(blocks, s.flushed, s.buffer, s.home, s.at, n)
  }

  /** The first turn: nothing to flush yet, so the buffer is the first page's
      block and the range is the first page, whichever branch is taken. */
  lemma FirstStep(docId: string, pages: seq<PageText>, targetChars: int, overlapChars: int)
    requires 0 < |pages|
    ensures var s := Run(docId, pages, 1, targetChars, overlapChars);
            && s.results == [] && s.flushed == [] && s.chunkIndex == 0
            && s.buffer == Block(pages[0]) && s.home == [0] && s.at == [0]
            && s.rangeStart == pages[0].pageNumber && s.rangeEnd == pages[0].pageNumber
  {
    var i := Run(docId, pages, 0, targetChars, overlapChars);
    assert i == Initial(pages);
    StepFromEmpty(docId, i, Block(pages[0]), pages[0].pageNumber, targetChars, overlapChars);
  }

  /** A turn from an empty buffer flushes nothing and opens the buffer with the block. */
  lemma StepFromEmpty(docId: string, s: State, block: string, pageNumber: int, targetChars: int, overlapChars: int)
    requires s.buffer == [] && s.results == [] && s.flushed == [] && s.home == [] && s.at == []
    requires s.chunkIndex == 0 && s.rangeStart == s.rangeEnd
    ensures var s' := Step(docId, s, block, pageNumber, targetChars, overlapChars);
            && s'.results == [] && s'.flushed == [] && s'.chunkIndex == 0
            && s'.buffer == block && s'.home == [0] && s'.at == [0]
            && s'.rangeStart == s.rangeStart && s'.rangeEnd == pageNumber
  {
    assert Blank(s.buffer);
    assert Flushed(docId, s) == s;
    assert Tail(s.buffer, overlapChars) == [];
    assert s.buffer + block == block && [] + block == block;
  }

  /** The final flush: the open buffer, never blank once a page is in,
      becomes the last chunk, with the open range. */
  lemma LastFlush(docId: string, pages: seq<PageText>, targetChars: int, overlapChars: int)
    requires 0 < |pages|
    ensures var s := Run(docId, pages, |pages|, targetChars, overlapChars);
            var f := Final(docId, pages, targetChars, overlapChars);
            && |f.results| == |s.results| + 1
            && f.results == s.results + [f.results[|s.results|]]
            && f.results[|s.results|].pageStart == s.rangeStart
            && f.results[|s.results|].pageEnd == s.rangeEnd
            && f.flushed == s.flushed + [s.buffer]
            && f.home == s.home && f.at == s.at
  {
    OpenBufferNotBlank(docId, pages, |pages|, targetChars, overlapChars);
  }

  /** The first page opens buffer 0 at offset 0, whichever branch it takes. */
  lemma FirstPlaced(docId: string, pages: seq<PageText>, targetChars: int, overlapChars: int)
    requires 0 < |pages|
    ensures PlacedIn(BlocksOf(pages), Run(docId, pages, 1, targetChars, overlapChars), 1)
  {
    var b := Block(pages[0]);
    FirstStep(docId, pages, targetChars, overlapChars);
    assert b[0..|b|] == b;
    assert BlocksOf(pages)[0] == b;
  }

  lemma StepPlaced(docId: string, pages: seq<PageText>, s: State, n: nat, targetChars: int, overlapChars: int)
    requires 0 < n < |pages| && PlacedIn(BlocksOf(pages), s, n) && !Blank(s.buffer)
    ensures PlacedIn(BlocksOf(pages), Step(docId, s, Block(pages[n]), pages[n].pageNumber, targetChars, overlapChars),
                     n + 1)
  {
    var blocks := BlocksOf(pages);
    assert blocks[n] == Block(pages[n]);
    if |s.buffer + blocks[n]| > targetChars {
      assert Flushed(docId, s).flushed == s.flushed + [s.buffer];
      FlushPlaced(blocks, s.flushed, s.buffer, s.home, s.at, n, Tail(s.buffer, overlapChars));
    } else {
      AppendPlaced(blocks, s.flushed, s.buffer, s.home, s.at, n);
    }
  }

  /** A block that does not fit moves the open buffer to the flushed ones and
      opens a new buffer: the overlap, then the block. */
  lemma FlushPlaced(blocks: seq<string>, flushed: seq<string>, buffer: string, home: seq<nat>, at: seq<nat>,
                    n: nat, overlap: string)
    requires 0 < n < |blocks| && Placed(blocks, flushed, buffer, home, at, n)
    ensures Placed(blocks, flushed + [buffer], overlap + blocks[n], home + [|flushed| + 1], at + [|overlap|], n + 1)
  {
    var b := blocks[n];
    var bufs, bufs' := flushed + [buffer], flushed + [buffer] + [overlap + b];
    assert (overlap + b)[|overlap|..|overlap| + |b|] == b;
    forall j | 0 <= j < n
      ensures home[j] <= |flushed| + 1 && Occurs(bufs'[home[j]], at[j], blocks[j])
    {
      assert bufs'[home[j]] == bufs[home[j]];
    }
  }

  /** A block that fits is appended to the open buffer, after the blocks already there. */
  lemma AppendPlaced(blocks: seq<string>, flushed: seq<string>, buffer: string, home: seq<nat>, at: seq<nat>,
                     n: nat)
    requires n < |blocks| && Placed(blocks, flushed, buffer, home, at, n)
    ensures Placed(blocks, flushed, buffer + blocks[n], home + [|flushed|], at + [|buffer|], n + 1)
  {
    var b := blocks[n];
    var buffer' := buffer + b;
    var bufs, bufs' := flushed + [buffer], flushed + [buffer'];
    assert buffer'[|buffer|..|buffer| + |b|] == b;
    forall j | 0 <= j < n
      ensures home[j] <= |flushed| && Occurs(bufs'[home[j]], at[j], blocks[j])
    {
      if home[j] == |flushed| {
        assert Occurs(buffer, at[j], blocks[j]);
        assert buffer'[at[j]..at[j] + |blocks[j]|] == buffer[at[j]..at[j] + |blocks[j]|];
      } else {
        assert bufs'[home[j]] == bufs[home[j]];
      }
    }
  }

  lemma {:induction false} RunPlaced(docId: string, pages: seq<PageText>, n: nat,
                                     targetChars: int, overlapChars: int)
    requires n <= |pages|
    ensures PlacedIn(BlocksOf(pages), Run(docId, pages, n, targetChars, overlapChars), n)
  {
    if n == 1 {
      FirstPlaced(docId, pages, targetChars, overlapChars);
    } else if n > 1 {
      RunPlaced(docId, pages, n - 1, targetChars, overlapChars);
      OpenBufferNotBlank(docId, pages, n - 1, targetChars, overlapChars);
      StepPlaced(docId, pages, Run(docId, pages, n - 1, targetChars, overlapChars), n - 1,
                 targetChars, overlapChars);
    }
  }

  /** No page is dropped: every page's block `[p.N]\n<text>\n\n` lies whole
      in the buffer of an emitted chunk (whose text is that buffer trimmed),
      and the last page ends the last chunk's buffer. */
  lemma NoPageDropped(docId: string, pages: seq<PageText>, targetChars: int, overlapChars: int)
    ensures var f := Final(docId, pages, targetChars, overlapChars);
            && |f.home| == |pages| && |f.at| == |pages| && |f.flushed| == |f.results|
            && (forall j :: 0 <= j < |pages| ==>
                  f.home[j] < |f.results| && Occurs(f.flushed[f.home[j]], f.at[j], Block(pages[j])))
            && (|pages| > 0 ==>
                  f.home[|pages| - 1] == |f.results| - 1 &&
                  f.at[|pages| - 1] + |Block(pages[|pages| - 1])| == |f.flushed[|f.results| - 1]|)
  {
    var s := Run(docId, pages, |pages|, targetChars, overlapChars);
    RunPlaced(docId, pages, |pages|, targetChars, overlapChars);
    RunNumbered(docId, pages, |pages|, targetChars, overlapChars);
    if |pages| > 0 {
      OpenBufferNotBlank(docId, pages, |pages|, targetChars, overlapChars);
      assert Final(docId, pages, targetChars, overlapChars).flushed == s.flushed + [s.buffer];
    }
  }

  // ---------------------------------------------------------------------------
  // Flush decisions and overlap

  /** Page `j` (after the first) relative to page `j - 1`, with `prevEnd`
      where the block of `j - 1` ends: page `j` stays in the same buffer
      exactly when that buffer with its block appended has at most
      `targetChars` characters, and then follows directly. Otherwise page
      `j - 1` ended its buffer, and page `j` opens the next one right after
      the overlap: the last `overlapChars` characters of the buffer before. */
  ghost predicate LaidOut(blocks: seq<string>, bufs: seq<string>, home: seq<nat>, at: seq<nat>, j: int,
                          targetChars: int, overlapChars: int)
  {
    && 0 < j < |home| && |home| == |at| && j < |blocks| && home[j - 1] < |bufs|
    && var prevEnd := at[j - 1] + |blocks[j - 1]|;
       && (home[j] == home[j - 1] <==> prevEnd + |blocks[j]| <= targetChars)
       && (home[j] == home[j - 1] ==> at[j] == prevEnd)
       && (home[j] != home[j - 1] ==>
             && home[j] == home[j - 1] + 1 && home[j] < |bufs|
             && prevEnd == |bufs[home[j - 1]]|
             && at[j] <= |bufs[home[j]]|
             && bufs[home[j]][..at[j]] == Tail(bufs[home[j - 1]], overlapChars))
  }

  ghost predicate Layout(blocks: seq<string>, flushed: seq<string>, buffer: string, home: seq<nat>, at: seq<nat>,
                         n: nat, targetChars: int, overlapChars: int)
  {
    forall j :: 0 < j < n ==> LaidOut(blocks, flushed + [buffer], home, at, j, targetChars, overlapChars)
  }

  lemma FlushLayout(blocks: seq<string>, flushed: seq<string>, buffer: string, home: seq<nat>, at: seq<nat>,
                    n: nat, targetChars: int, overlapChars: int)
    requires 0 < n < |blocks| && Placed(blocks, flushed, buffer, home, at, n)
    requires Layout(blocks, flushed, buffer, home, at, n, targetChars, overlapChars)
    requires |buffer + blocks[n]| > targetChars
    ensures var overlap := Tail(buffer, overlapChars);
            Layout(blocks, flushed + [buffer], overlap + blocks[n], home + [|flushed| + 1], at + [|overlap|],
                   n + 1, targetChars, overlapChars)
  {
    var overlap := Tail(buffer, overlapChars);
    var bufs, bufs' := flushed + [buffer], flushed + [buffer] + [overlap + blocks[n]];
    var home', at' := home + [|flushed| + 1], at + [|overlap|];
    forall j | 0 < j < n + 1
      ensures LaidOut(blocks, bufs', home', at', j, targetChars, overlapChars)
    {
      if j < n {
        assert LaidOut(blocks, bufs, home, at, j, targetChars, overlapChars);
        assert home'[j] == home[j] && home'[j - 1] == home[j - 1] && at'[j] == at[j] && at'[j - 1] == at[j - 1];
        assert bufs'[home[j - 1]] == bufs[home[j - 1]];
        if home[j] != home[j - 1] {
          assert bufs'[home[j]] == bufs[home[j]];
        }
      } else {
        assert bufs'[home'[j]][..at'[j]] == overlap;
      }
    }
  }

  lemma AppendLayout(blocks: seq<string>, flushed: seq<string>, buffer: string, home: seq<nat>, at: seq<nat>,
                     n: nat, targetChars: int, overlapChars: int)
    requires n < |blocks| && Placed(blocks, flushed, buffer, home, at, n)
    requires Layout(blocks, flushed, buffer, home, at, n, targetChars, overlapChars)
    requires |buffer + blocks[n]| <= targetChars
    ensures Layout(blocks, flushed, buffer + blocks[n], home + [|flushed|], at + [|buffer|],
                   n + 1, targetChars, overlapChars)
  {
    var bufs, bufs' := flushed + [buffer], flushed + [buffer + blocks[n]];
    var home', at' := home + [|flushed|], at + [|buffer|];
    forall j | 0 < j < n + 1
      ensures LaidOut(blocks, bufs', home', at', j, targetChars, overlapChars)
    {
      if j < n {
        assert LaidOut(blocks, bufs, home, at, j, targetChars, overlapChars);
        assert home'[j] == home[j] && home'[j - 1] == home[j - 1] && at'[j] == at[j] && at'[j - 1] == at[j - 1];
        if home[j] != home[j - 1] {
          assert bufs'[home[j - 1]] == bufs[home[j - 1]];
          assert bufs'[home[j]][..at[j]] == bufs[home[j]][..at[j]];
        }
      }
    }
  }

  lemma StepLayout(docId: string, pages: seq<PageText>, s: State, n: nat, targetChars: int, overlapChars: int)
    requires 0 < n < |pages| && PlacedIn(BlocksOf(pages), s, n) && !Blank(s.buffer)
    requires Layout(BlocksOf(pages), s.flushed, s.buffer, s.home, s.at, n, targetChars, overlapChars)
    ensures var s' := Step(docId, s, Block(pages[n]), pages[n].pageNumber, targetChars, overlapChars);
            Layout(BlocksOf(pages), s'.flushed, s'.buffer, s'.home, s'.at, n + 1, targetChars, overlapChars)
  {
    var blocks := BlocksOf(pages);
    assert blocks[n] == Block(pages[n]);
    if |s.buffer + blocks[n]| > targetChars {
      assert Flushed(docId, s).flushed == s.flushed + [s.buffer];
      FlushLayout(blocks, s.flushed, s.buffer, s.home, s.at, n, targetChars, overlapChars);
    } else {
      AppendLayout(blocks, s.flushed, s.buffer, s.home, s.at, n, targetChars, overlapChars);
    }
  }

  lemma {:induction false} RunLayout(docId: string, pages: seq<PageText>, n: nat,
                                     targetChars: int, overlapChars: int)
    requires n <= |pages|
    ensures var s := Run(docId, pages, n, targetChars, overlapChars);
            Layout(BlocksOf(pages), s.flushed, s.buffer, s.home, s.at, n, targetChars, overlapChars)
  {
    if n > 1 {
      RunLayout(docId, pages, n - 1, targetChars, overlapChars);
      RunPlaced(docId, pages, n - 1, targetChars, overlapChars);
      OpenBufferNotBlank(docId, pages, n - 1, targetChars, overlapChars);
      StepLayout(docId, pages, Run(docId, pages, n - 1, targetChars, overlapChars), n - 1,
                 targetChars, overlapChars);
    }
  }

  /** The flush decisions, read off the emitted chunks' buffers: a page joins
      its predecessor's buffer exactly when it fits within `targetChars`;
      otherwise the predecessor's buffer was emitted whole, and the next one
      starts with its last `overlapChars` characters followed by the page's
      block. (An overlap plus a large block can exceed `targetChars`: there is
      no hard cap.) */
  lemma FlushDecisions(docId: string, pages: seq<PageText>, targetChars: int, overlapChars: int)
    ensures var f := Final(docId, pages, targetChars, overlapChars);
            forall j :: 0 < j < |pages| ==>
              LaidOut(BlocksOf(pages), f.flushed, f.home, f.at, j, targetChars, overlapChars)
  {
    var s := Run(docId, pages, |pages|, targetChars, overlapChars);
    RunLayout(docId, pages, |pages|, targetChars, overlapChars);
    if |pages| > 0 {
      OpenBufferNotBlank(docId, pages, |pages|, targetChars, overlapChars);
      assert Final(docId, pages, targetChars, overlapChars).flushed == s.flushed + [s.buffer];
    }
  }

  // ---------------------------------------------------------------------------
  // Page ranges

  /** Page `j` is the last one of its buffer: the next page opens another. */
  ghost predicate ClosesBuffer(home: seq<nat>, j: int) {
    0 <= j && j + 1 < |home| && home[j + 1] != home[j]
  }

  /** Chunk `k` starts at the larger end of the range before it. */
  ghost predicate Follows(results: seq<Chunk>, k: int) {
    0 < k < |results| && results[k].pageStart == Max(results[k - 1].pageStart, results[k - 1].pageEnd)
  }

  /** The ranges after the first `n` pages: the first chunk starts at the first
      page, every later one where `Follows` says, and a chunk whose buffer a
      page closes ends at that page; the open range starts at the larger end of
      the last chunk (at the first page before any) and ends at the last page. */
  ghost predicate Ranges(pages: seq<PageText>, results: seq<Chunk>, home: seq<nat>,
                         rangeStart: int, rangeEnd: int, n: nat)
  {
    && n <= |pages| && |home| == n
    && (n == 0 ==> results == [])
    && (n > 0 ==> home[n - 1] == |results|)
    && (forall j :: 0 <= j < n ==> home[j] <= |results|)
    && (|results| > 0 ==> 0 < |pages| && results[0].pageStart == pages[0].pageNumber)
    && (forall k :: 0 < k < |results| ==> Follows(results, k))
    && (forall j :: 0 <= j < n && ClosesBuffer(home, j) ==>
          home[j] < |results| && results[home[j]].pageEnd == pages[j].pageNumber)
    && (0 < |pages| ==>
          rangeStart == if |results| == 0 then pages[0].pageNumber
                        else Max(results[|results| - 1].pageStart, results[|results| - 1].pageEnd))
    && (n > 0 ==> rangeEnd == pages[n - 1].pageNumber)
    && (n == 0 ==> rangeEnd == rangeStart)
  }

  /** With increasing page numbers: every range is ordered, each starts where
      the one before it ended, and so does the open one. */
  ghost predicate Ordered(results: seq<Chunk>, rangeStart: int, rangeEnd: int) {
    && (forall k :: 0 <= k < |results| ==> results[k].pageStart <= results[k].pageEnd)
    && (forall k :: 0 < k < |results| ==> results[k].pageStart == results[k - 1].pageEnd)
    && rangeStart <= rangeEnd
    && (|results| > 0 ==> rangeStart == results[|results| - 1].pageEnd)
  }

  lemma FlushRanges(pages: seq<PageText>, results: seq<Chunk>, home: seq<nat>, rangeStart: int, rangeEnd: int,
                    n: nat, c: Chunk)
    requires 0 < n < |pages| && Ranges(pages, results, home, rangeStart, rangeEnd, n)
    requires c.pageStart == rangeStart && c.pageEnd == rangeEnd
    ensures Ranges(pages, results + [c], home + [|results| + 1], Max(rangeStart, rangeEnd), pages[n].pageNumber, n + 1)
  {
    var results', home' := results + [c], home + [|results| + 1];
    assert forall j :: 0 <= j < n + 1 && ClosesBuffer(home', j) ==>
             home'[j] < |results'| && results'[home'[j]].pageEnd == pages[j].pageNumber by {
      FlushCloses(pages, results, home, rangeStart, rangeEnd, n, c);
    }
    assert forall k :: 0 < k < |results'| ==> Follows(results', k) by {
      FlushFollows(pages, results, home, rangeStart, rangeEnd, n, c);
    }
  }

  lemma FlushCloses(pages: seq<PageText>, results: seq<Chunk>, home: seq<nat>, rangeStart: int, rangeEnd: int,
                    n: nat, c: Chunk)
    requires 0 < n < |pages| && Ranges(pages, results, home, rangeStart, rangeEnd, n)
    requires c.pageEnd == rangeEnd
    ensures var results', home' := results + [c], home + [|results| + 1];
            forall j :: 0 <= j < n + 1 && ClosesBuffer(home', j) ==>
              home'[j] < |results'| && results'[home'[j]].pageEnd == pages[j].pageNumber
  {
    var results', home' := results + [c], home + [|results| + 1];
    forall j | 0 <= j < n + 1 && ClosesBuffer(home', j)
      ensures home'[j] < |results'| && results'[home'[j]].pageEnd == pages[j].pageNumber
    {
      if j < n - 1 {
        assert home'[j] == home[j] && home'[j + 1] == home[j + 1];
        assert ClosesBuffer(home, j);
        assert results'[home[j]] == results[home[j]];
      } else if j == n - 1 {
        assert home'[j] == |results|;
      }
    }
  }

  lemma FlushFollows(pages: seq<PageText>, results: seq<Chunk>, home: seq<nat>, rangeStart: int, rangeEnd: int,
                     n: nat, c: Chunk)
    requires 0 < n < |pages| && Ranges(pages, results, home, rangeStart, rangeEnd, n)
    requires c.pageStart == rangeStart
    ensures forall k :: 0 < k < |results + [c]| ==> Follows(results + [c], k)
  {
    var results' := results + [c];
    forall k | 0 < k < |results'|
      ensures Follows(results', k)
    {
      if k < |results| {
        assert Follows(results, k);
        assert results'[k] == results[k] && results'[k - 1] == results[k - 1];
      } else {
        assert results'[k - 1] == results[k - 1];
      }
    }
  }

  lemma FlushOrdered(pages: seq<PageText>, results: seq<Chunk>, rangeStart: int, rangeEnd: int, n: nat, c: Chunk)
    requires 0 < n < |pages| && StrictlyIncreasing(pages) && Ordered(results, rangeStart, rangeEnd)
    requires c.pageStart == rangeStart && c.pageEnd == rangeEnd && rangeEnd == pages[n - 1].pageNumber
    ensures Ordered(results + [c], Max(rangeStart, rangeEnd), pages[n].pageNumber)
  {
    var results' := results + [c];
    assert pages[n - 1].pageNumber < pages[n].pageNumber;
    assert forall k :: 0 <= k < |results| ==> results'[k] == results[k];
  }

  lemma AppendRanges(pages: seq<PageText>, results: seq<Chunk>, home: seq<nat>, rangeStart: int, rangeEnd: int,
                     n: nat)
    requires n < |pages| && Ranges(pages, results, home, rangeStart, rangeEnd, n)
    ensures Ranges(pages, results, home + [|results|], rangeStart, pages[n].pageNumber, n + 1)
    ensures StrictlyIncreasing(pages) && Ordered(results, rangeStart, rangeEnd) ==>
              Ordered(results, rangeStart, pages[n].pageNumber)
  {
    var home' := home + [|results|];
    assert forall j :: 0 <= j < n ==> home'[j] == home[j];
    forall j | 0 <= j < n + 1 && ClosesBuffer(home', j)
      ensures home'[j] < |results| && results[home'[j]].pageEnd == pages[j].pageNumber
    {
      assert ClosesBuffer(home, j);
    }
    if StrictlyIncreasing(pages) && Ordered(results, rangeStart, rangeEnd) && n > 0 {
      assert pages[n - 1].pageNumber < pages[n].pageNumber;
    }
  }

  lemma FirstRanges(docId: string, pages: seq<PageText>, targetChars: int, overlapChars: int)
    requires 0 < |pages|
    ensures var s := Run(docId, pages, 1, targetChars, overlapChars);
            && Ranges(pages, s.results, s.home, s.rangeStart, s.rangeEnd, 1)
            && Ordered(s.results, s.rangeStart, s.rangeEnd)
  {
    var first := pages[0].pageNumber;
    FirstStep(docId, pages, targetChars, overlapChars);
    AppendRanges(pages, [], [], first, first, 0);
  }

  lemma StepRanges(docId: string, pages: seq<PageText>, s: State, n: nat, targetChars: int, overlapChars: int)
    requires 0 < n < |pages| && Ranges(pages, s.results, s.home, s.rangeStart, s.rangeEnd, n)
    requires !Blank(s.buffer) && |s.flushed| == |s.results|
    ensures var s' := Step(docId, s, Block(pages[n]), pages[n].pageNumber, targetChars, overlapChars);
            && Ranges(pages, s'.results, s'.home, s'.rangeStart, s'.rangeEnd, n + 1)
            && (StrictlyIncreasing(pages) && Ordered(s.results, s.rangeStart, s.rangeEnd) ==>
                  Ordered(s'.results, s'.rangeStart, s'.rangeEnd))
  {
    var b := Block(pages[n]);
    var f := Flushed(docId, s);
    if |s.buffer + b| > targetChars {
      var c := f.results[|s.results|];
      assert f.results == s.results + [c] && |f.flushed| == |s.flushed| + 1;
      FlushRanges(pages, s.results, s.home, s.rangeStart, s.rangeEnd, n, c);
      if StrictlyIncreasing(pages) && Ordered(s.results, s.rangeStart, s.rangeEnd) {
        FlushOrdered(pages, s.results, s.rangeStart, s.rangeEnd, n, c);
      }
    } else {
      AppendRanges(pages, s.results, s.home, s.rangeStart, s.rangeEnd, n);
    }
  }

  lemma {:induction false} RunRanges(docId: string, pages: seq<PageText>, n: nat,
                                     targetChars: int, overlapChars: int)
    requires n <= |pages|
    ensures var s := Run(docId, pages, n, targetChars, overlapChars);
            && Ranges(pages, s.results, s.home, s.rangeStart, s.rangeEnd, n)
            && (StrictlyIncreasing(pages) ==> Ordered(s.results, s.rangeStart, s.rangeEnd))
  {
    if n == 1 {
      FirstRanges(docId, pages, targetChars, overlapChars);
    } else if n > 1 {
      RunRanges(docId, pages, n - 1, targetChars, overlapChars);
      RunNumbered(docId, pages, n - 1, targetChars, overlapChars);
      OpenBufferNotBlank(docId, pages, n - 1, targetChars, overlapChars);
      StepRanges(docId, pages, Run(docId, pages, n - 1, targetChars, overlapChars), n - 1,
                 targetChars, overlapChars);
    }
  }

  /** The final flush closes the open range with the last page. */
  lemma CloseRanges(pages: seq<PageText>, results: seq<Chunk>, home: seq<nat>, rangeStart: int, rangeEnd: int,
                    c: Chunk, r: seq<Chunk>)
    requires 0 < |pages| && Ranges(pages, results, home, rangeStart, rangeEnd, |pages|)
    requires c.pageStart == rangeStart && c.pageEnd == rangeEnd
    requires r == results + [c]
    ensures r[0].pageStart == pages[0].pageNumber
    ensures forall k :: 0 < k < |r| ==>
              r[k].pageStart == Max(r[k - 1].pageStart, r[k - 1].pageEnd) && r[k - 1].pageStart <= r[k].pageStart
    ensures forall j :: 0 <= j < |pages| && ClosesBuffer(home, j) ==>
              home[j] < |r| && r[home[j]].pageEnd == pages[j].pageNumber
    ensures r[|r| - 1].pageEnd == pages[|pages| - 1].pageNumber
  {
    assert forall k :: 0 <= k < |results| ==> r[k] == results[k];
    forall k | 0 < k < |r|
      ensures r[k].pageStart == Max(r[k - 1].pageStart, r[k - 1].pageEnd)
    {
      if k < |results| {
        assert Follows(results, k);
      }
    }
  }

  /** Closing the last buffer keeps the ranges ordered. */
  lemma CloseOrdered(pages: seq<PageText>, results: seq<Chunk>, rangeStart: int, rangeEnd: int,
                     c: Chunk, r: seq<Chunk>)
    requires Ordered(results, rangeStart, rangeEnd)
    requires c.pageStart == rangeStart && c.pageEnd == rangeEnd
    requires r == results + [c]
    ensures forall k :: 0 <= k < |r| ==>
              r[k].pageStart <= r[k].pageEnd && (k > 0 ==> r[k].pageStart == r[k - 1].pageEnd)
  {
    assert forall k :: 0 <= k < |results| ==> r[k] == results[k];
  }

  /** The page ranges of the chunks: the first starts at the first page, each
      later one at the larger end of the range before it (so `rangeStart`
      never decreases), a chunk whose buffer a page closes ends at that page,
      and the last chunk ends at the last page. */
  lemma ChunkRanges(docId: string, pages: seq<PageText>, targetChars: int, overlapChars: int)
    ensures var f := Final(docId, pages, targetChars, overlapChars);
            var r := f.results;
            && (|r| > 0 ==> r[0].pageStart == pages[0].pageNumber)
            && (forall k :: 0 < k < |r| ==>
                  r[k].pageStart == Max(r[k - 1].pageStart, r[k - 1].pageEnd) && r[k - 1].pageStart <= r[k].pageStart)
            && (forall j :: 0 <= j < |pages| && ClosesBuffer(f.home, j) ==>
                  f.home[j] < |r| && r[f.home[j]].pageEnd == pages[j].pageNumber)
            && (|pages| > 0 ==> |r| > 0 && r[|r| - 1].pageEnd == pages[|pages| - 1].pageNumber)
  {
    var s := Run(docId, pages, |pages|, targetChars, overlapChars);
    RunRanges(docId, pages, |pages|, targetChars, overlapChars);
    if |pages| > 0 {
      LastFlush(docId, pages, targetChars, overlapChars);
      var f := Final(docId, pages, targetChars, overlapChars);
      CloseRanges(pages, s.results, s.home, s.rangeStart, s.rangeEnd, f.results[|s.results|], f.results);
    }
  }

  /** With strictly increasing page numbers every chunk's range is ordered,
      and each chunk starts at the page where the one before it ended. */
  lemma OrderedRanges(docId: string, pages: seq<PageText>, targetChars: int, overlapChars: int)
    requires StrictlyIncreasing(pages)
    ensures var r := Final(docId, pages, targetChars, overlapChars).results;
            forall k :: 0 <= k < |r| ==>
              r[k].pageStart <= r[k].pageEnd && (k > 0 ==> r[k].pageStart == r[k - 1].pageEnd)
  {
    var s := Run(docId, pages, |pages|, targetChars, overlapChars);
    RunRanges(docId, pages, |pages|, targetChars, overlapChars);
    if |pages| > 0 {
      LastFlush(docId, pages, targetChars, overlapChars);
      var f := Final(docId, pages, targetChars, overlapChars);
      CloseOrdered(pages, s.results, s.rangeStart, s.rangeEnd, f.results[|s.results|], f.results);
    }
  }
}
