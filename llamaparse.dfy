/** Post-processing of the document parser's output (lib/llamaparse.ts):
    one candidate page per returned document, and, for a single document,
    a split at `# Page N` headings or, failing those, into slices of 2500
    characters of the whitespace-collapsed text. The temporary file, the
    parser service and logging are outside the model: what the parser
    returned, or the error it raised, is an input. */
module LlamaParse {
  import opened Text
  import opened Errors

  /** `LlamaParsedPage`. */
  datatype ParsedPage = ParsedPage(pageNumber: int, text: string)

  /** A metadata value: a JavaScript number, or anything else. */
  datatype MetaValue = Num(n: int) | NotNum

  /** A document as the parser returns it: its `text` (missing or present)
      and its `metadata` (missing or a record). */
  datatype Doc = Doc(text: Option<string>, metadata: Option<map<string, MetaValue>>)

  const NoKey := "LLAMA_CLOUD_API_KEY not set"
  const NoContent := "LlamaParse SDK did not return content"

  /** `approxSize`. */
  const ApproxSize: nat := 2500

  // ---------------------------------------------------------------------------
  // Candidates

  /** The metadata keys that may carry a page number, in the order they are tried. */
  const PageKeys: seq<string> := ["page", "page_number", "page_num"]

  /** `keys.map(k => md[k]).find(v => typeof v === "number")`. */
  function FirstNumber(md: map<string, MetaValue>, keys: seq<string>): (r: Option<int>)
    ensures r.Some? ==> exists k :: 0 <= k < |keys| && keys[k] in md && md[keys[k]] == Num(r.value)
  {
    if keys == [] then None
    else if keys[0] in md && md[keys[0]].Num? then Some(md[keys[0]].n)
    else
      var rest := FirstNumber(md, keys[1..]);
      assert rest.Some? ==> exists k :: 1 <= k < |keys| && keys[k] in md && md[keys[k]] == Num(rest.value) by {
        if rest.Some? {
          var k :| 0 <= k < |keys[1..]| && keys[1..][k] in md && md[keys[1..][k]] == Num(rest.value);
          assert keys[k + 1] == keys[1..][k];
        }
      }
      rest
  }

  /** The candidate made of the `i`-th document. */
  function Candidate(d: Doc, i: nat): ParsedPage {
    var text := if d.text.Some? then d.text.value else "";
    var md := if d.metadata.Some? then d.metadata.value else map[];
    var fromMeta := FirstNumber(md, PageKeys);
    ParsedPage(if fromMeta.Some? then fromMeta.value else i + 1, text)
  }

  function Candidates(docs: seq<Doc>): seq<ParsedPage> {
    seq(|docs|, i requires 0 <= i < |docs| => Candidate(docs[i], i))
  }

  /** `page` wins over `page_number`, which wins over `page_num`, when it is
      a number; with none of them a number, the page is the 1-based position. */
  lemma CandidatePageNumber(d: Doc, i: nat, md: map<string, MetaValue>)
    requires d.metadata == Some(md)
    ensures "page" in md && md["page"].Num? ==> Candidate(d, i).pageNumber == md["page"].n
    ensures !("page" in md && md["page"].Num?) && "page_number" in md && md["page_number"].Num? ==>
      Candidate(d, i).pageNumber == md["page_number"].n
    ensures (!("page" in md && md["page"].Num?) && !("page_number" in md && md["page_number"].Num?)
      && "page_num" in md && md["page_num"].Num?) ==> Candidate(d, i).pageNumber == md["page_num"].n
    ensures (forall k :: 0 <= k < |PageKeys| ==> !(PageKeys[k] in md && md[PageKeys[k]].Num?)) ==>
      Candidate(d, i).pageNumber == i + 1
  {
    var k1 := PageKeys[1..];
    var k2 := k1[1..];
    assert k1 == ["page_number", "page_num"] && k2 == ["page_num"] && k2[1..] == [];
    assert FirstNumber(md, PageKeys)
        == if "page" in md && md["page"].Num? then Some(md["page"].n) else FirstNumber(md, k1);
    assert FirstNumber(md, k1)
        == if "page_number" in md && md["page_number"].Num? then Some(md["page_number"].n) else FirstNumber(md, k2);
    assert FirstNumber(md, k2)
        == if "page_num" in md && md["page_num"].Num? then Some(md["page_num"].n) else FirstNumber(md, []);
  }

  /** A document without metadata is numbered by its position, and a missing text reads as empty. */
  lemma CandidateWithoutMetadata(d: Doc, i: nat)
    requires d.metadata.None?
    ensures Candidate(d, i).pageNumber == i + 1
    ensures d.text.None? ==> Candidate(d, i).text == ""
  {
  }

  // ---------------------------------------------------------------------------
  // `# Page N` headings: `\n+#{1,6}\s*Page\s+(\d+)\b`, case-insensitive

  predicate IsWordChar(c: char) {
    ('a' <= c <= 'z') || ('A' <= c <= 'Z') || IsDigit(c) || c == '_'
  }

  /** End of the run of `c` that starts at `i`. */
  function CharRunEnd(s: string, i: nat, c: char): (e: nat)
    requires i <= |s|
    ensures i <= e <= |s|
    ensures i < |s| && s[i] == c ==> i < e
    decreases |s| - i
  {
    if i < |s| && s[i] == c then CharRunEnd(s, i + 1, c) else i
  }

  /** `Page` in any case at `w`. */
  predicate PageWordAt(s: string, w: nat) {
    && w + 4 <= |s|
    && (s[w] == 'P' || s[w] == 'p') && (s[w + 1] == 'A' || s[w + 1] == 'a')
    && (s[w + 2] == 'G' || s[w + 2] == 'g') && (s[w + 3] == 'E' || s[w + 3] == 'e')
  }

  /** A heading's page digits and the index after them. */
  datatype Heading = Heading(digits: string, end: nat)

  /** The heading that the pattern matches at `i`, if any. Backtracking
      cannot help: fewer newlines or `#`s leave a newline or `#` where the
      next part needs another character, more than six `#`s leave a `#`
      where `Page` must start, and fewer digits leave a digit before `\b`. */
  function HeadingAt(s: string, i: nat): (r: Option<Heading>)
    requires i <= |s|
    ensures r.Some? ==> i < r.value.end <= |s| && s[i] == '\n'
    ensures r.Some? ==> r.value.end == |s| || !IsWordChar(s[r.value.end])
  {
    if i < |s| && s[i] == '\n' then
      var n := CharRunEnd(s, i, '\n');
      var h := CharRunEnd(s, n, '#');
      if 1 <= h - n <= 6 then
        var w := WsEnd(s, h);
        if PageWordAt(s, w) then
          var w2 := WsEnd(s, w + 4);
          var d := DigitsEnd(s, w2);
          if w + 4 < w2 < d && (d == |s| || !IsWordChar(s[d])) then
            Some(Heading(s[w2..d], d))
          else None
        else None
      else None
    else None
  }

  /** A heading's page number is a non-empty run of decimal digits. */
  lemma HeadingDigits(s: string, i: nat)
    requires i <= |s| && HeadingAt(s, i).Some?
    ensures |HeadingAt(s, i).value.digits| > 0 && AllDigits(HeadingAt(s, i).value.digits)
  {
    var w := WsEnd(s, CharRunEnd(s, CharRunEnd(s, i, '\n'), '#'));
    DigitsEndRun(s, WsEnd(s, w + 4));
  }

  /** Where the lazy body from `i` stops: at the first heading at or after
      `i` (the lookahead), or at the end of the text. */
  function NextHeading(s: string, i: nat): (r: nat)
    requires i <= |s|
    ensures i <= r <= |s|
    ensures r < |s| ==> HeadingAt(s, r).Some?
    decreases |s| - i
  {
    if i == |s| || HeadingAt(s, i).Some? then i else NextHeading(s, i + 1)
  }

  /** No heading starts before the one `NextHeading` finds. */
  lemma {:induction false} NextHeadingFirst(s: string, i: nat, p: nat)
    requires i <= |s| && i <= p < NextHeading(s, i)
    ensures HeadingAt(s, p).None?
    decreases |s| - i
  {
    if p > i {
      NextHeadingFirst(s, i + 1, p);
    }
  }

  /** With no heading from `i` on, the lazy body runs to the end. */
  lemma {:induction false} NextHeadingNone(s: string, i: nat)
    requires i <= |s|
    requires forall p :: i <= p < |s| ==> HeadingAt(s, p).None?
    ensures NextHeading(s, i) == |s|
    decreases |s| - i
  {
    if i < |s| {
      NextHeadingNone(s, i + 1);
    }
  }

  /** The page a heading at `p` stands for: its number and its trimmed body. */
  function SectionAt(s: string, p: nat): ParsedPage
    requires p <= |s| && HeadingAt(s, p).Some?
  {
    var h := HeadingAt(s, p).value;
    ParsedPage(DecimalValue(h.digits), Trim(s[h.end..NextHeading(s, h.end)]))
  }

  /** Where the match of the heading at `p` ends: the next heading, or the end. */
  function MatchEnd(s: string, p: nat): (e: nat)
    requires p <= |s| && HeadingAt(s, p).Some?
    ensures p < e <= |s|
  {
    NextHeading(s, HeadingAt(s, p).value.end)
  }

  /** The sections the `exec` loop collects from `pattern.lastIndex == last`
      on: each match runs from a heading to the next one, and a match whose
      body trims to nothing is skipped. */
  function Sections(s: string, last: nat): seq<ParsedPage>
    requires last <= |s|
    decreases |s| - last, 1
  {
    SectionsAt(s, NextHeading(s, last))
  }

  /** The sections from the match at `p` (none when `p` is the end) on. */
  function SectionsAt(s: string, p: nat): seq<ParsedPage>
    requires p <= |s| && (p < |s| ==> HeadingAt(s, p).Some?)
    decreases |s| - p, 0
  {
    if p == |s| then []
    else (if SectionAt(s, p).text != [] then [SectionAt(s, p)] else []) + Sections(s, MatchEnd(s, p))
  }

  /** Where the sections' headings start, in the same order. */
  function SectionStarts(s: string, last: nat): seq<nat>
    requires last <= |s|
    decreases |s| - last, 1
  {
    StartsAt(s, NextHeading(s, last))
  }

  function StartsAt(s: string, p: nat): seq<nat>
    requires p <= |s| && (p < |s| ==> HeadingAt(s, p).Some?)
    decreases |s| - p, 0
  {
    if p == |s| then []
    else (if SectionAt(s, p).text != [] then [p] else []) + SectionStarts(s, MatchEnd(s, p))
  }

  /** One turn of the `exec` loop: the match at the next heading, then the rest. */
  lemma SectionsStep(s: string, last: nat, p: nat, h: Heading, e: nat)
    requires last <= |s| && p == NextHeading(s, last) < |s|
    requires HeadingAt(s, p) == Some(h) && e == NextHeading(s, h.end)
    ensures Sections(s, last)
         == (if Trim(s[h.end..e]) != [] then [ParsedPage(DecimalValue(h.digits), Trim(s[h.end..e]))] else [])
            + Sections(s, e)
  {
    assert Sections(s, last) == SectionsAt(s, p);
  }

  /** No heading left: no more sections. */
  lemma SectionsDone(s: string, last: nat)
    requires last <= |s| && NextHeading(s, last) == |s|
    ensures Sections(s, last) == []
  {
    assert SectionsAt(s, |s|) == [];
  }

  lemma Reassoc<T>(a: seq<T>, b: seq<T>, c: seq<T>)
    ensures a + (b + c) == (a + b) + c
  {
  }

  /** One `exec` from `last`: the match at the next heading, the section it
      pushes (none when its body trims to nothing), and the new `lastIndex`. */
  method ExecOnce(single: string, last: nat) returns (piece: seq<ParsedPage>, e: nat)
    requires last <= |single| && NextHeading(single, last) < |single|
    ensures last < e <= |single|
    ensures Sections(single, last) == piece + Sections(single, e)
  {
    var start := NextHeading(single, last);
    var h := HeadingAt(single, start).value;
    e := NextHeading(single, h.end);
    var body := Trim(single[h.end..e]);
    SectionsStep(single, last, start, h, e);
    piece := if body != [] then [ParsedPage(DecimalValue(h.digits), body)] else [];
  }

  /** The heading split of the single document: `exec` until no heading is left. */
  method HeadingSections(single: string) returns (sections: seq<ParsedPage>)
    ensures sections == Sections(single, 0)
  {
    sections := [];
    var last := 0;
    ghost var whole := Sections(single, 0);
    while NextHeading(single, last) < |single|
      invariant last <= |single|
      invariant sections + Sections(single, last) == whole
      decreases |single| - last
    {
      var piece, e := ExecOnce(single, last);
      Reassoc(sections, piece, Sections(single, e));
      sections := sections + piece;
      last := e;
    }
    SectionsDone(single, last);
  }

  /** One turn of the `exec` loop for both the sections and their starts. */
  lemma StartsStep(s: string, last: nat, p: nat, e: nat)
    requires last <= |s| && p == NextHeading(s, last) < |s|
    requires e == MatchEnd(s, p)
    ensures last <= p < e
    ensures SectionAt(s, p).text != [] ==>
      Sections(s, last) == [SectionAt(s, p)] + Sections(s, e) && SectionStarts(s, last) == [p] + SectionStarts(s, e)
    ensures SectionAt(s, p).text == [] ==>
      Sections(s, last) == Sections(s, e) && SectionStarts(s, last) == SectionStarts(s, e)
  {
    assert Sections(s, last) == SectionsAt(s, p);
    assert SectionStarts(s, last) == StartsAt(s, p);
  }

  /** The sections `sec` are the pages of the headings at `st`, all at or after `last`. */
  predicate FromHeadings(s: string, last: nat, sec: seq<ParsedPage>, st: seq<nat>) {
    |st| == |sec| && forall k :: 0 <= k < |sec| ==> SectionOf(s, last, sec[k], st[k])
  }

  /** `x` is the page of the heading at `q`, at or after `last`, and its text is not empty. */
  predicate SectionOf(s: string, last: nat, x: ParsedPage, q: nat) {
    last <= q < |s| && HeadingAt(s, q).Some? && x == SectionAt(s, q) && x.text != []
  }

  lemma FromHeadingsWeaken(s: string, last: nat, e: nat, sec: seq<ParsedPage>, st: seq<nat>)
    requires last <= e && FromHeadings(s, e, sec, st)
    ensures FromHeadings(s, last, sec, st)
  {
  }

  lemma FromHeadingsCons(s: string, last: nat, x: ParsedPage, p: nat, sec: seq<ParsedPage>, st: seq<nat>)
    requires SectionOf(s, last, x, p) && FromHeadings(s, last, sec, st)
    ensures FromHeadings(s, last, [x] + sec, [p] + st)
  {
    var sec', st' := [x] + sec, [p] + st;
    forall k | 0 <= k < |sec'| ensures SectionOf(s, last, sec'[k], st'[k]) {
      if k > 0 {
        assert sec'[k] == sec[k - 1] && st'[k] == st[k - 1];
        assert SectionOf(s, last, sec[k - 1], st[k - 1]);
      } else {
        assert sec'[k] == x && st'[k] == p;
      }
    }
  }

  /** Each section is the page of a heading at or after `last` whose body is not blank. */
  lemma {:induction false} SectionsAreHeadings(s: string, last: nat)
    requires last <= |s|
    ensures FromHeadings(s, last, Sections(s, last), SectionStarts(s, last))
    decreases |s| - last
  {
    var p := NextHeading(s, last);
    if p < |s| {
      var e := MatchEnd(s, p);
      SectionsAreHeadings(s, e);
      StartsStep(s, last, p, e);
      FromHeadingsWeaken(s, last, e, Sections(s, e), SectionStarts(s, e));
      if SectionAt(s, p).text != [] {
        assert SectionOf(s, last, SectionAt(s, p), p);
        FromHeadingsCons(s, last, SectionAt(s, p), p, Sections(s, e), SectionStarts(s, e));
      }
    }
  }

  /** Positions at or after `last`, strictly increasing. */
  predicate Ascending(st: seq<nat>, last: nat) {
    && (forall k :: 0 <= k < |st| ==> last <= st[k])
    && (forall j, k :: 0 <= j < k < |st| ==> st[j] < st[k])
  }

  lemma AscendingWeaken(st: seq<nat>, last: nat, e: nat)
    requires last <= e && Ascending(st, e)
    ensures Ascending(st, last)
  {
  }

  lemma AscendingCons(st: seq<nat>, p: nat, last: nat)
    requires last <= p && Ascending(st, p + 1)
    ensures Ascending([p] + st, last)
  {
    var st' := [p] + st;
    forall k | 0 < k < |st'| ensures st'[k] == st[k - 1] {
    }
  }

  /** The sections' headings come in the order they appear in the text. */
  lemma {:induction false} SectionStartsIncrease(s: string, last: nat)
    requires last <= |s|
    ensures Ascending(SectionStarts(s, last), last)
    decreases |s| - last
  {
    var p := NextHeading(s, last);
    if p < |s| {
      var e := MatchEnd(s, p);
      SectionStartsIncrease(s, e);
      StartsStep(s, last, p, e);
      if SectionAt(s, p).text != [] {
        AscendingWeaken(SectionStarts(s, e), p + 1, e);
        AscendingCons(SectionStarts(s, e), p, last);
      } else {
        AscendingWeaken(SectionStarts(s, e), last, e);
      }
    }
  }

  /** Every section is the page of a heading: its number is the heading's,
      its text the heading's body trimmed and never empty, and the headings
      come in the order they appear in the text. */
  lemma SectionsFromHeadings(s: string, last: nat)
    requires last <= |s|
    ensures |SectionStarts(s, last)| == |Sections(s, last)|
    ensures forall k :: 0 <= k < |Sections(s, last)| ==>
      && last <= SectionStarts(s, last)[k] < |s|
      && HeadingAt(s, SectionStarts(s, last)[k]).Some?
      && Sections(s, last)[k] == SectionAt(s, SectionStarts(s, last)[k])
      && Sections(s, last)[k].text != []
      && Trim(Sections(s, last)[k].text) == Sections(s, last)[k].text
    ensures forall j, k :: 0 <= j < k < |Sections(s, last)| ==> SectionStarts(s, last)[j] < SectionStarts(s, last)[k]
  {
    SectionsAreHeadings(s, last);
    SectionStartsIncrease(s, last);
    var sec, st := Sections(s, last), SectionStarts(s, last);
    forall k | 0 <= k < |sec| ensures Trim(sec[k].text) == sec[k].text {
      var h := HeadingAt(s, st[k]).value;
      TrimIdempotent(s[h.end..NextHeading(s, h.end)]);
    }
  }

  lemma {:induction false} CharRunEndRun(s: string, i: nat, c: char)
    requires i <= |s|
    ensures forall k :: i <= k < CharRunEnd(s, i, c) ==> s[k] == c
    ensures CharRunEnd(s, i, c) < |s| ==> s[CharRunEnd(s, i, c)] != c
    decreases |s| - i
  {
    if i < |s| && s[i] == c {
      CharRunEndRun(s, i + 1, c);
    }
  }

  /** The lookahead from `i` stops at a heading at `q` or before it. */
  lemma {:induction false} NextHeadingAtMost(s: string, i: nat, q: nat)
    requires i <= q < |s| && HeadingAt(s, q).Some?
    ensures NextHeading(s, i) <= q
    decreases q - i
  {
    if HeadingAt(s, i).None? {
      NextHeadingAtMost(s, i + 1, q);
    }
  }

  /** A newline run followed by a `#`: how every heading begins. */
  predicate Opens(s: string, q: nat)
    requires q < |s|
  {
    s[q] == '\n' && CharRunEnd(s, q, '\n') < |s| && s[CharRunEnd(s, q, '\n')] == '#'
  }

  lemma HeadingOpens(s: string, q: nat)
    requires q < |s| && HeadingAt(s, q).Some?
    ensures Opens(s, q)
  {
  }

  /** The parts of the heading at `p`: newlines up to `n`, `#`s up to `h`,
      whitespace up to `w`, `Page`, whitespace up to `w2`, then the digits. */
  lemma HeadingParts(s: string, p: nat) returns (n: nat, h: nat, w: nat, w2: nat)
    requires p <= |s| && HeadingAt(s, p).Some?
    ensures p < n < h <= w && w + 4 < w2 < HeadingAt(s, p).value.end <= |s|
    ensures forall k :: p <= k < n ==> s[k] == '\n'
    ensures forall k :: n <= k < h ==> s[k] == '#'
    ensures forall k :: h <= k < w ==> IsWs(s[k])
    ensures PageWordAt(s, w)
    ensures forall k :: w + 4 <= k < w2 ==> IsWs(s[k])
    ensures forall k :: w2 <= k < HeadingAt(s, p).value.end ==> IsDigit(s[k])
  {
    n := CharRunEnd(s, p, '\n');
    h := CharRunEnd(s, n, '#');
    w := WsEnd(s, h);
    w2 := WsEnd(s, w + 4);
    var d := DigitsEnd(s, w2);
    CharRunEndRun(s, p, '\n');
    CharRunEndRun(s, n, '#');
    WsRunAt(s, h);
    WsRunAt(s, w + 4);
    DigitsRunAt(s, w2);
  }

  /** `WsEndRun`, character by character. */
  lemma WsRunAt(s: string, i: nat)
    requires i <= |s|
    ensures forall k :: i <= k < WsEnd(s, i) ==> IsWs(s[k])
  {
    var e := WsEnd(s, i);
    WsEndRun(s, i);
    forall k | i <= k < e ensures IsWs(s[k]) {
      assert s[k] == s[i..e][k - i];
    }
  }

  /** `DigitsEndRun`, character by character. */
  lemma DigitsRunAt(s: string, i: nat)
    requires i <= |s|
    ensures forall k :: i <= k < DigitsEnd(s, i) ==> IsDigit(s[k])
  {
    var e := DigitsEnd(s, i);
    DigitsEndRun(s, i);
    forall k | i <= k < e ensures IsDigit(s[k]) {
      assert s[k] == s[i..e][k - i];
    }
  }

  /** No heading begins inside a whitespace run that ends before neither a
      newline nor a `#`. */
  lemma NoOpeningInWs(s: string, q: nat, b: nat)
    requires q < b < |s|
    requires forall k :: q <= k < b ==> IsWs(s[k])
    requires s[b] != '\n' && s[b] != '#'
    ensures !Opens(s, q)
  {
    if s[q] == '\n' {
      var n := CharRunEnd(s, q, '\n');
      CharRunEndRun(s, q, '\n');
      assert n <= b;
    }
  }

  /** Inside a heading laid out as `HeadingParts` says, past its newline
      run, no other heading begins. */
  lemma NoOpeningInside(s: string, q: nat, n: nat, h: nat, w: nat, w2: nat, d: nat)
    requires n < h <= w && w + 4 < w2 < d <= |s|
    requires forall k :: n <= k < h ==> s[k] == '#'
    requires forall k :: h <= k < w ==> IsWs(s[k])
    requires PageWordAt(s, w)
    requires forall k :: w + 4 <= k < w2 ==> IsWs(s[k])
    requires forall k :: w2 <= k < d ==> IsDigit(s[k])
    requires n <= q < d
    ensures !Opens(s, q)
  {
    if q < h {
    } else if q < w {
      NoOpeningInWs(s, q, w);
    } else if q < w + 4 {
    } else if q < w2 {
      assert IsDigit(s[w2]);
      NoOpeningInWs(s, q, w2);
    } else {
      assert IsDigit(s[q]);
    }
  }

  /** A heading that does not continue the newline run of the heading at
      `p` starts after that heading's digits. */
  lemma HeadingsDoNotOverlap(s: string, p: nat, q: nat)
    requires p < q < |s| && HeadingAt(s, p).Some? && HeadingAt(s, q).Some?
    requires s[q - 1] != '\n'
    ensures HeadingAt(s, p).value.end <= q
  {
    var n, h, w, w2 := HeadingParts(s, p);
    var d := HeadingAt(s, p).value.end;
    if q < d {
      HeadingOpens(s, q);
      if q < n {
        assert false;
      } else {
        NoOpeningInside(s, q, n, h, w, w2, d);
        assert false;
      }
    }
  }

  /** From `lastIndex == last` on, every heading whose body is not blank
      starts a section, unless it continues the newline run of another. */
  lemma {:induction false} HeadingsAreSections(s: string, last: nat, q: nat)
    requires last <= q < |s| && HeadingAt(s, q).Some? && SectionAt(s, q).text != []
    requires q == 0 || s[q - 1] != '\n'
    ensures q in SectionStarts(s, last)
    decreases |s| - last
  {
    NextHeadingAtMost(s, last, q);
    var p := NextHeading(s, last);
    if p == q {
      StartsFirst(s, last, p);
    } else {
      var e := PastHeading(s, p, q);
      HeadingsAreSections(s, e, q);
      StartsLater(s, last, p, e, q);
    }
  }

  /** The next heading starts a section when its body is not blank. */
  lemma StartsFirst(s: string, last: nat, p: nat)
    requires last <= |s| && p == NextHeading(s, last) < |s| && SectionAt(s, p).text != []
    ensures p in SectionStarts(s, last)
  {
    assert SectionStarts(s, last) == StartsAt(s, p);
  }

  /** The starts from where the next heading's match ends are starts from `last`. */
  lemma StartsLater(s: string, last: nat, p: nat, e: nat, q: nat)
    requires last <= |s| && p == NextHeading(s, last) < |s| && e == MatchEnd(s, p)
    requires q in SectionStarts(s, e)
    ensures q in SectionStarts(s, last)
  {
    assert SectionStarts(s, last) == StartsAt(s, p);
  }

  /** A later heading that does not continue the newline run of the heading
      at `p` lies at or after the end of that heading's match. */
  lemma PastHeading(s: string, p: nat, q: nat) returns (e: nat)
    requires p < q < |s| && HeadingAt(s, p).Some? && HeadingAt(s, q).Some?
    requires s[q - 1] != '\n'
    ensures e == MatchEnd(s, p) && p < e <= q
  {
    HeadingsDoNotOverlap(s, p, q);
    NextHeadingAtMost(s, HeadingAt(s, p).value.end, q);
    e := MatchEnd(s, p);
  }

  /** Every `# Page N` heading with a non-blank body yields the page
      numbered N, with that body trimmed, among the sections. */
  lemma EveryHeadingIsASection(s: string, q: nat)
    requires q < |s| && HeadingAt(s, q).Some? && SectionAt(s, q).text != []
    requires q == 0 || s[q - 1] != '\n'
    ensures q in SectionStarts(s, 0)
    ensures SectionAt(s, q) in Sections(s, 0)
  {
    HeadingsAreSections(s, 0, q);
    SectionsAreHeadings(s, 0);
    var k :| 0 <= k < |SectionStarts(s, 0)| && SectionStarts(s, 0)[k] == q;
    assert SectionOf(s, 0, Sections(s, 0)[k], SectionStarts(s, 0)[k]);
  }

  /** A text without any heading yields no section. */
  lemma NoHeadingNoSections(s: string)
    requires forall p :: 0 <= p <= |s| ==> HeadingAt(s, p).None?
    ensures Sections(s, 0) == []
  {
    NextHeadingNone(s, 0);
  }

  /** `\n# Page <n>` followed by a non-word character is a heading for the digits of `n`. */
  lemma HeadingOfPage(s: string, n: nat, body: string)
    requires s == "\n# Page " + NatToString(n) + body
    requires |body| > 0 && !IsWordChar(body[0])
    ensures HeadingAt(s, 0) == Some(Heading(NatToString(n), 8 + |NatToString(n)|))
  {
    var digits := NatToString(n);
    var d := 8 + |digits|;
    assert s[0] == '\n' && s[1] == '#' && s[2] == ' ' && PageWordAt(s, 3) && s[7] == ' ';
    assert s[8..d] == digits && s[d] == body[0];
    assert CharRunEnd(s, 1, '\n') == 1 && CharRunEnd(s, 2, '#') == 2;
    assert CharRunEnd(s, 0, '\n') == 1 && CharRunEnd(s, 1, '#') == 2;
    assert WsEnd(s, 2) == 3 && WsEnd(s, 7) == 8 by {
      assert !IsWs(s[3]) && !IsWs(s[8]);
      assert WsEnd(s, 3) == 3 && WsEnd(s, 8) == 8;
    }
    assert DigitsEnd(s, 8) == d by {
      DigitsEndFrom(s, 8, d);
    }
  }

  /** A text that is `\n# Page <n>` followed by a body without a heading
      is the single page `n` with the body trimmed, when the body is not blank. */
  lemma OneHeading(s: string, n: nat, body: string)
    requires s == "\n# Page " + NatToString(n) + body
    requires |body| > 0 && !IsWordChar(body[0]) && !Blank(body)
    requires forall p :: 8 + |NatToString(n)| <= p <= |s| ==> HeadingAt(s, p).None?
    ensures Sections(s, 0) == [ParsedPage(n, Trim(body))]
  {
    var digits := NatToString(n);
    var d := 8 + |digits|;
    HeadingOfPage(s, n, body);
    NatToStringRoundTrip(n);
    NextHeadingNone(s, d);
    assert s[d..|s|] == body;
    SectionsStep(s, 0, 0, Heading(digits, d), |s|);
  }

  /** `DigitsEnd` stops at the end of a run of digits that is followed by a non-digit. */
  lemma {:induction false} DigitsEndFrom(s: string, i: nat, d: nat)
    requires i <= d <= |s| && AllDigits(s[i..d]) && (d == |s| || !IsDigit(s[d]))
    ensures DigitsEnd(s, i) == d
    decreases d - i
  {
    if i < d {
      assert s[i] == s[i..d][0];
      assert s[i + 1..d] == s[i..d][1..];
      DigitsEndFrom(s, i + 1, d);
    }
  }

  // ---------------------------------------------------------------------------
  // The fallback split

  /** `normalized` cut into consecutive slices of `ApproxSize` characters. */
  function Slices(t: string): (r: seq<string>)
    decreases |t|
  {
    if t == [] then []
    else if |t| <= ApproxSize then [t]
    else [t[..ApproxSize]] + Slices(t[ApproxSize..])
  }

  function Concat(parts: seq<string>): string {
    if parts == [] then [] else parts[0] + Concat(parts[1..])
  }

  /** The slices put back together give the text, and each is a non-empty
      run of at most `ApproxSize` characters; there are ⌈|t| / 2500⌉ of them. */
  lemma {:induction false} SlicesFacts(t: string)
    ensures Concat(Slices(t)) == t
    ensures forall k :: 0 <= k < |Slices(t)| ==> 0 < |Slices(t)[k]| <= ApproxSize
    ensures |Slices(t)| == (|t| + ApproxSize - 1) / ApproxSize
    decreases |t|
  {
    if |t| > ApproxSize {
      SlicesFacts(t[ApproxSize..]);
      var r := Slices(t);
      assert r[1..] == Slices(t[ApproxSize..]);
      assert t == t[..ApproxSize] + t[ApproxSize..];
      forall k | 0 < k < |r| ensures 0 < |r[k]| <= ApproxSize {
        assert r[k] == Slices(t[ApproxSize..])[k - 1];
      }
    }
  }

  /** Texts as pages numbered from 1. */
  function Numbered(texts: seq<string>): seq<ParsedPage> {
    seq(|texts|, k requires 0 <= k < |texts| => ParsedPage(k + 1, texts[k]))
  }

  lemma NumberedSnoc(texts: seq<string>, x: string)
    ensures Numbered(texts + [x]) == Numbered(texts) + [ParsedPage(|texts| + 1, x)]
  {
  }

  /** The slices numbered from 1. */
  function FixedPages(t: string): seq<ParsedPage> {
    Numbered(Slices(t))
  }

  /** The fallback pages are the slices, numbered from 1. */
  lemma FixedPagesFacts(t: string)
    ensures var pages := FixedPages(t);
      && (forall k :: 0 <= k < |pages| ==> pages[k].pageNumber == k + 1 && 0 < |pages[k].text| <= ApproxSize)
      && Concat(seq(|pages|, k requires 0 <= k < |pages| => pages[k].text)) == t
  {
    SlicesFacts(t);
    var pages := FixedPages(t);
    assert seq(|pages|, k requires 0 <= k < |pages| => pages[k].text) == Slices(t);
  }

  /** `Math.min(i, n)`: where `slice` clamps an index past the end. */
  function Clamp(i: nat, n: nat): nat {
    if i <= n then i else n
  }

  /** One turn of the `for` loop: the slice at `i`, then the slices after it. */
  lemma FixedStep(t: string, i: nat, texts: seq<string>)
    requires i < |t|
    ensures texts + Slices(t[i..])
         == (texts + [t[i..Clamp(i + ApproxSize, |t|)]]) + Slices(t[Clamp(i + ApproxSize, |t|)..])
  {
    var end := Clamp(i + ApproxSize, |t|);
    if i + ApproxSize < |t| {
      assert t[i..][..ApproxSize] == t[i..end];
      assert t[i..][ApproxSize..] == t[end..];
    } else {
      assert t[i..] == t[i..end];
      assert t[end..] == [];
    }
    Reassoc(texts, [t[i..end]], Slices(t[end..]));
  }

  /** The `for` loop over `normalized` in steps of `approxSize`. */
  method FixedSplit(normalized: string) returns (pages: seq<ParsedPage>)
    ensures pages == FixedPages(normalized)
  {
    pages := [];
    var i := 0;
    ghost var texts: seq<string> := [];
    while i < |normalized|
      invariant pages == Numbered(texts)
      invariant texts + Slices(normalized[Clamp(i, |normalized|)..]) == Slices(normalized)
      decreases |normalized| - i
    {
      var end := Clamp(i + ApproxSize, |normalized|);
      FixedStep(normalized, i, texts);
      NumberedSnoc(texts, normalized[i..end]);
      texts := texts + [normalized[i..end]];
      pages := pages + [ParsedPage(|pages| + 1, normalized[i..end])];
      i := i + ApproxSize;
    }
    assert normalized[|normalized|..] == [];
  }

  // ---------------------------------------------------------------------------
  // The whole post-processing

  /** What `parseWithLlamaParse` returns or throws, given the API key from
      the environment and what writing the temporary file and loading it
      with the parser came to. This is the specification of the method
      `ParseWithLlamaParse`, which runs the `exec` and slicing loops; the
      lemmas below state the funnel's cases about it. */
  function Parsed(apiKey: Option<string>, loaded: Result<seq<Doc>, ErrorValue>): Result<seq<ParsedPage>, ErrorValue> {
    if apiKey.None? || apiKey.value == "" then Err(NewError(NoKey))
    else if loaded.Err? || |loaded.value| == 0 then Err(NewError(NoContent))
    else
      var candidates := Candidates(loaded.value);
      if |candidates| == 1 then
        var single := candidates[0].text;
        var sections := Sections(single, 0);
        if |sections| > 0 then Ok(sections)
        else
          var normalized := Normalize(single);
          if |normalized| > ApproxSize then Ok(FixedPages(normalized)) else Ok(candidates)
      else Ok(candidates)
  }

  /** `parseWithLlamaParse`, running `HeadingSections` and `FixedSplit`. */
  method ParseWithLlamaParse(apiKey: Option<string>, loaded: Result<seq<Doc>, ErrorValue>)
    returns (r: Result<seq<ParsedPage>, ErrorValue>)
    ensures r == Parsed(apiKey, loaded)
  {
    if apiKey.None? || apiKey.value == "" {
      return Err(NewError(NoKey));
    }
    if loaded.Err? || |loaded.value| == 0 {
      return Err(NewError(NoContent));
    }
    var candidates := Candidates(loaded.value);
    if |candidates| == 1 {
      var single := candidates[0].text;
      var sections := HeadingSections(single);
      if |sections| > 0 {
        return Ok(sections);
      }
      var normalized := Normalize(single);
      if |normalized| > ApproxSize {
        var pages := FixedSplit(normalized);
        return Ok(pages);
      }
    }
    return Ok(candidates);
  }

  /** A missing key is reported before anything else happens. */
  lemma MissingKeyFirst(loaded: Result<seq<Doc>, ErrorValue>)
    ensures Parsed(None, loaded) == Err(NewError(NoKey)) && Parsed(Some(""), loaded) == Err(NewError(NoKey))
  {
  }

  /** Every parser failure and an empty result end in the one error, the
      original error being swallowed. */
  lemma NoContentFunnel(key: string, e: ErrorValue)
    requires key != ""
    ensures Parsed(Some(key), Err(e)) == Err(NewError(NoContent))
    ensures Parsed(Some(key), Ok([])) == Err(NewError(NoContent))
  {
  }

  /** Several documents are returned as their candidates, in order. */
  lemma ManyDocsAsCandidates(key: string, docs: seq<Doc>)
    requires key != "" && |docs| > 1
    ensures Parsed(Some(key), Ok(docs)) == Ok(Candidates(docs))
    ensures forall i :: 0 <= i < |docs| ==> Candidates(docs)[i].text == (if docs[i].text.Some? then docs[i].text.value else "")
  {
  }

  /** A single document: its heading sections if there are any, else the
      slices of its collapsed text when that is longer than `ApproxSize`,
      else the document's own candidate. */
  lemma SingleDoc(key: string, d: Doc)
    requires key != ""
    ensures var t := Candidate(d, 0).text;
      Parsed(Some(key), Ok([d]))
        == if |Sections(t, 0)| > 0 then Ok(Sections(t, 0))
           else if |Normalize(t)| > ApproxSize then Ok(FixedPages(Normalize(t)))
           else Ok([Candidate(d, 0)])
  {
    assert Candidates([d]) == [Candidate(d, 0)];
  }

  /** A single short document without heading sections comes back as it
      is, its text neither collapsed nor trimmed. */
  lemma ShortDocUnchanged(key: string, d: Doc)
    requires key != "" && d.text.Some?
    requires Sections(d.text.value, 0) == [] && |Normalize(d.text.value)| <= ApproxSize
    ensures Parsed(Some(key), Ok([d])) == Ok([Candidate(d, 0)])
    ensures Candidate(d, 0).text == d.text.value
  {
    SingleDoc(key, d);
  }

  /** A single long document without heading sections becomes consecutive
      slices of its collapsed text, numbered from 1, that put back together
      give that text. */
  lemma LongDocSliced(key: string, d: Doc)
    requires key != "" && d.text.Some?
    requires Sections(d.text.value, 0) == [] && |Normalize(d.text.value)| > ApproxSize
    ensures Parsed(Some(key), Ok([d])).Ok?
    ensures var pages := Parsed(Some(key), Ok([d])).value;
      && (forall k :: 0 <= k < |pages| ==> pages[k].pageNumber == k + 1 && 0 < |pages[k].text| <= ApproxSize)
      && Concat(seq(|pages|, k requires 0 <= k < |pages| => pages[k].text)) == Normalize(d.text.value)
  {
    SingleDoc(key, d);
    FixedPagesFacts(Normalize(d.text.value));
  }
}
