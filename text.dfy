/** Strings as the application sees them: JavaScript whitespace, `trim`, decimal
    digits (what `\d` and `parseInt` accept) and the decimal rendering that
    template strings give to page numbers and chunk indices. */
module Text {

  datatype Option<+T> = None | Some(value: T)

  datatype Result<+T, +E> = Ok(value: T) | Err(error: E)

  /** The characters JavaScript calls WhiteSpace or LineTerminator: the ones
      `String.prototype.trim` removes and the regular-expression class `\s` matches. */
  predicate IsWs(c: char) {
    || c == ' ' || c == '\t' || c == '\n' || c == '\r' || c == '\U{000B}' || c == '\U{000C}'
    || c == '\U{00A0}' || c == '\U{1680}' || ('\U{2000}' <= c <= '\U{200A}')
    || c == '\U{2028}' || c == '\U{2029}' || c == '\U{202F}' || c == '\U{205F}'
    || c == '\U{3000}' || c == '\U{FEFF}'
  }

  /** A string `trim` empties: JavaScript treats it as falsy after trimming. */
  predicate Blank(s: string) {
    forall i :: 0 <= i < |s| ==> IsWs(s[i])
  }

  /** Length of the longest whitespace prefix. */
  function LeadingWs(s: string): (n: nat)
    ensures n <= |s|
    ensures n < |s| ==> !IsWs(s[n])
  {
    if |s| > 0 && IsWs(s[0]) then 1 + LeadingWs(s[1..]) else 0
  }

  /** The leading whitespace is whitespace. */
  lemma {:induction false} LeadingWsRun(s: string)
    ensures forall i :: 0 <= i < LeadingWs(s) ==> IsWs(s[i])
  {
    if |s| > 0 && IsWs(s[0]) {
      LeadingWsRun(s[1..]);
      forall i | 0 < i < LeadingWs(s) ensures IsWs(s[i]) {
        assert s[i] == s[1..][i - 1];
      }
    }
  }

  /** Length of the longest whitespace suffix. */
  function TrailingWs(s: string): (n: nat)
    ensures n <= |s|
    ensures n < |s| ==> !IsWs(s[|s| - 1 - n])
  {
    if |s| > 0 && IsWs(s[|s| - 1]) then 1 + TrailingWs(s[..|s| - 1]) else 0
  }

  /** The trailing whitespace is whitespace. */
  lemma {:induction false} TrailingWsRun(s: string)
    ensures forall i :: |s| - TrailingWs(s) <= i < |s| ==> IsWs(s[i])
  {
    if |s| > 0 && IsWs(s[|s| - 1]) {
      TrailingWsRun(s[..|s| - 1]);
      forall i | |s| - TrailingWs(s) <= i < |s| - 1 ensures IsWs(s[i]) {
        assert s[i] == s[..|s| - 1][i];
      }
    }
  }

  /** `s.trim()`: "" exactly when `s` is blank, and otherwise a string that
      starts and ends with a non-whitespace character. */
  function Trim(s: string): (r: string)
    ensures r == [] <==> Blank(s)
    ensures r != [] ==> !IsWs(r[0]) && !IsWs(r[|r| - 1])
  {
    LeadingWsRun(s);
    TrailingWsRun(s);
    if LeadingWs(s) == |s| then [] else s[LeadingWs(s) .. |s| - TrailingWs(s)]
  }

  /** What `trim` keeps: the infix of `s` after its leading whitespace, which
      holds every non-whitespace character of `s`. */
  lemma TrimKeepsInfix(s: string)
    ensures LeadingWs(s) + |Trim(s)| <= |s|
    ensures Trim(s) == s[LeadingWs(s) .. LeadingWs(s) + |Trim(s)|]
    ensures forall p :: 0 <= p < |s| && !IsWs(s[p]) ==> LeadingWs(s) <= p < LeadingWs(s) + |Trim(s)|
  {
    LeadingWsRun(s);
    TrailingWsRun(s);
  }

  /** Trimming twice changes nothing. */
  lemma TrimIdempotent(s: string)
    ensures Trim(Trim(s)) == Trim(s)
  {
    var r := Trim(s);
    if r != [] {
      assert LeadingWs(r) == 0;
      assert TrailingWs(r) == 0;
    }
  }

  predicate IsDigit(c: char) {
    '0' <= c <= '9'
  }

  predicate AllDigits(s: string) {
    forall i :: 0 <= i < |s| ==> IsDigit(s[i])
  }

  /** The value of a decimal digit; callers only pass digits. */
  function DigitValue(c: char): (d: nat)
    ensures d < 10
    ensures IsDigit(c) ==> d == (c as int) - ('0' as int)
  {
    if IsDigit(c) then (c as int) - ('0' as int) else 0
  }

  /** `parseInt` or `Number` of a string of decimal digits (leading zeros
      allowed); callers only pass digit strings. */
  function DecimalValue(s: string): nat
  {
    if s == [] then 0 else 10 * DecimalValue(s[..|s| - 1]) + DigitValue(s[|s| - 1])
  }

  /** End of the run of digits that starts at `i`. */
  function DigitsEnd(s: string, i: nat): (e: nat)
    requires i <= |s|
    ensures i <= e <= |s|
    decreases |s| - i
  {
    if i < |s| && IsDigit(s[i]) then DigitsEnd(s, i + 1) else i
  }

  /** End of the run of whitespace that starts at `i`. */
  function WsEnd(s: string, i: nat): (e: nat)
    requires i <= |s|
    ensures i <= e <= |s|
    decreases |s| - i
  {
    if i < |s| && IsWs(s[i]) then WsEnd(s, i + 1) else i
  }

  lemma {:induction false} WsEndRun(s: string, i: nat)
    requires i <= |s|
    ensures Blank(s[i..WsEnd(s, i)])
    ensures WsEnd(s, i) < |s| ==> !IsWs(s[WsEnd(s, i)])
    decreases |s| - i
  {
    if i < |s| && IsWs(s[i]) {
      WsEndRun(s, i + 1);
      assert s[i..WsEnd(s, i)] == [s[i]] + s[i + 1..WsEnd(s, i)];
    }
  }

  lemma {:induction false} DigitsEndRun(s: string, i: nat)
    requires i <= |s|
    ensures AllDigits(s[i..DigitsEnd(s, i)])
    ensures DigitsEnd(s, i) < |s| ==> !IsDigit(s[DigitsEnd(s, i)])
    decreases |s| - i
  {
    if i < |s| && IsDigit(s[i]) {
      DigitsEndRun(s, i + 1);
      assert s[i..DigitsEnd(s, i)] == [s[i]] + s[i + 1..DigitsEnd(s, i)];
    }
  }

  /** The decimal rendering of a natural number, as `${n}` gives it. */
  function NatToString(n: nat): (r: string)
    ensures |r| > 0 && AllDigits(r)
    ensures r[0] != '0' || n == 0
  {
    if n < 10 then [(('0' as int) + n) as char] else NatToString(n / 10) + NatToString(n % 10)
  }

  /** Reading the rendered digits back gives the number again. */
  lemma {:induction false} NatToStringRoundTrip(n: nat)
    ensures DecimalValue(NatToString(n)) == n
  {
    if n >= 10 {
      NatToStringRoundTrip(n / 10);
      var r := NatToString(n);
      assert r[..|r| - 1] == NatToString(n / 10);
    }
  }

  /** `${i}` for an integer: a minus sign before the digits of a negative
      value. The digits read back as the value. */
  function IntToString(i: int): (r: string)
    ensures |r| > 0
    ensures i >= 0 ==> AllDigits(r) && DecimalValue(r) == i
    ensures i < 0 ==> |r| > 1 && r[0] == '-' && AllDigits(r[1..]) && DecimalValue(r[1..]) == -i
  {
    if i < 0 then
      NatToStringRoundTrip(-i);
      var r := "-" + NatToString(-i);
      assert r[1..] == NatToString(-i);
      r
    else
      NatToStringRoundTrip(i);
      NatToString(i)
  }

  /** `parts.join(sep)`. */
  function Join(parts: seq<string>, sep: string): string
  {
    if |parts| == 0 then ""
    else if |parts| == 1 then parts[0]
    else Join(parts[..|parts| - 1], sep) + sep + parts[|parts| - 1]
  }

  /** `s.replace(/\s+/g, " ")`: every maximal run of whitespace becomes one space. */
  function CollapseWs(s: string): (r: string)
    ensures |r| <= |s|
    ensures forall i :: 0 <= i < |r| && IsWs(r[i]) ==> r[i] == ' '
    ensures forall i :: 0 <= i < |r| - 1 ==> !(IsWs(r[i]) && IsWs(r[i + 1]))
    ensures |r| > 0 && |s| > 0 ==> (IsWs(r[0]) <==> IsWs(s[0]))
    ensures |r| == 0 <==> |s| == 0
    decreases |s|
  {
    if s == [] then []
    else if IsWs(s[0]) then
      var n := LeadingWs(s);
      " " + CollapseWs(s[n..])
    else [s[0]] + CollapseWs(s[1..])
  }

  /** `s.replace(/\s+/g, " ").trim()`: the normal form the parsers use. It is
      the words of `s` joined by single spaces: every non-whitespace character
      survives in order, each whitespace run between two words becomes one
      space, and whitespace at the ends is dropped. */
  function Normalize(s: string): (r: string)
    ensures r == Join(Words(s), " ")
    ensures forall i :: 0 <= i < |r| && IsWs(r[i]) ==> r[i] == ' '
    ensures forall i :: 0 <= i < |r| - 1 ==> !(IsWs(r[i]) && IsWs(r[i + 1]))
    ensures r == [] <==> Blank(s)
  {
    TrimCollapseSpaces(s);
    TrimCollapseIsWords(s);
    Trim(CollapseWs(s))
  }

  /** Trimming the collapsed text keeps its single spaces and its blankness. */
  lemma TrimCollapseSpaces(s: string)
    ensures var r := Trim(CollapseWs(s));
      && (forall i :: 0 <= i < |r| && IsWs(r[i]) ==> r[i] == ' ')
      && (forall i :: 0 <= i < |r| - 1 ==> !(IsWs(r[i]) && IsWs(r[i + 1])))
      && (r == [] <==> Blank(s))
  {
    CollapseKeepsBlank(s);
    TrimKeepsInfix(CollapseWs(s));
  }

  /** Trimming the collapsed text leaves exactly the words joined by single spaces. */
  lemma TrimCollapseIsWords(s: string)
    ensures Trim(CollapseWs(s)) == Join(Words(s), " ")
  {
    CollapseIsPadded(s);
    JoinedWordsEnds(Words(s));
    WordsEmptyIffBlank(s);
    TrimPadded(Lead(s), Join(Words(s), " "), Trail(s));
  }

  /** Length of the longest prefix with no whitespace. */
  function WordLength(s: string): (n: nat)
    ensures n <= |s|
    ensures n < |s| ==> IsWs(s[n])
  {
    if |s| > 0 && !IsWs(s[0]) then 1 + WordLength(s[1..]) else 0
  }

  lemma {:induction false} WordLengthRun(s: string)
    ensures forall i :: 0 <= i < WordLength(s) ==> !IsWs(s[i])
  {
    if |s| > 0 && !IsWs(s[0]) {
      WordLengthRun(s[1..]);
      forall i | 0 < i < WordLength(s) ensures !IsWs(s[i]) {
        assert s[i] == s[1..][i - 1];
      }
    }
  }

  /** The words of `s`: its maximal runs of non-whitespace characters, left to
      right, as `s.split(/\s+/).filter(Boolean)` gives them. */
  function Words(s: string): (ws: seq<string>)
    ensures forall k :: 0 <= k < |ws| ==> ws[k] != [] && !IsWs(ws[k][0]) && !IsWs(ws[k][|ws[k]| - 1])
    decreases |s|
  {
    if s == [] then []
    else if IsWs(s[0]) then Words(s[LeadingWs(s)..])
    else
      var e := WordLength(s);
      WordLengthRun(s);
      [s[..e]] + Words(s[e..])
  }

  /** The space `CollapseWs` writes for leading whitespace. */
  function Lead(s: string): string {
    if s != [] && IsWs(s[0]) then " " else ""
  }

  /** The space `CollapseWs` writes for trailing whitespace after a word. */
  function Trail(s: string): string {
    if !Blank(s) && IsWs(s[|s| - 1]) then " " else ""
  }

  /** `parts.join(sep)` read from the front. */
  lemma {:induction false} JoinCons(w: string, parts: seq<string>, sep: string)
    requires parts != []
    ensures Join([w] + parts, sep) == w + sep + Join(parts, sep)
    decreases |parts|
  {
    var all := [w] + parts;
    if |parts| == 1 {
      assert all[..1] == [w];
    } else {
      var init := parts[..|parts| - 1];
      assert all[..|all| - 1] == [w] + init;
      JoinCons(w, init, sep);
    }
  }

  /** The joined words start and end with a non-whitespace character. */
  lemma {:induction false} JoinedWordsEnds(ws: seq<string>)
    requires forall k :: 0 <= k < |ws| ==> ws[k] != [] && !IsWs(ws[k][0]) && !IsWs(ws[k][|ws[k]| - 1])
    ensures var j := Join(ws, " "); (j == []) == (ws == []) && (j != [] ==> !IsWs(j[0]) && !IsWs(j[|j| - 1]))
  {
    if |ws| > 1 {
      JoinedWordsEnds(ws[..|ws| - 1]);
    }
  }

  lemma {:induction false} WordsEmptyIffBlank(s: string)
    ensures Words(s) == [] <==> Blank(s)
    decreases |s|
  {
    if s != [] && IsWs(s[0]) {
      var n := LeadingWs(s);
      LeadingWsRun(s);
      WordsEmptyIffBlank(s[n..]);
      BlankAfterWs(s, n);
    }
  }

  /** Dropping a whitespace prefix keeps blankness and the last character. */
  lemma BlankAfterWs(s: string, n: nat)
    requires n <= |s|
    requires forall i :: 0 <= i < n ==> IsWs(s[i])
    ensures Blank(s[n..]) <==> Blank(s)
  {
    if !Blank(s) {
      var i :| 0 <= i < |s| && !IsWs(s[i]);
      assert s[n..][i - n] == s[i];
    }
  }

  /** A word is copied through `CollapseWs` unchanged. */
  lemma {:induction false} CollapseWord(s: string)
    requires s != [] && !IsWs(s[0])
    ensures CollapseWs(s) == s[..WordLength(s)] + CollapseWs(s[WordLength(s)..])
    decreases |s|
  {
    var t := s[1..];
    CharStep(s);
    if WordLength(t) > 0 {
      CollapseWord(t);
      WordSlices(s);
      PadWord(CollapseWs(s), CollapseWs(t), [s[0]], t[..WordLength(t)], s[..WordLength(s)],
              CollapseWs(t[WordLength(t)..]));
    } else {
      assert s[..1] == [s[0]];
    }
  }

  /** Unfolding `CollapseWs` and `WordLength` over one non-whitespace character. */
  lemma CharStep(s: string)
    requires s != [] && !IsWs(s[0])
    ensures CollapseWs(s) == [s[0]] + CollapseWs(s[1..])
    ensures WordLength(s) == 1 + WordLength(s[1..])
  {
  }

  /** The word of `s` is its first character and the word of the rest. */
  lemma WordSlices(s: string)
    requires s != [] && WordLength(s) == 1 + WordLength(s[1..])
    ensures s[1..][WordLength(s[1..])..] == s[WordLength(s)..]
    ensures [s[0]] + s[1..][..WordLength(s[1..])] == s[..WordLength(s)]
  {
  }

  /** The string algebra of `CollapseWord`. */
  lemma PadWord(cs: string, ct: string, c: string, wt: string, ws: string, rest: string)
    requires cs == c + ct && ct == wt + rest && c + wt == ws
    ensures cs == ws + rest
  {
  }

  /** `CollapseWs` writes the joined words with at most one space before and after. */
  lemma {:induction false} CollapseIsPadded(s: string)
    ensures CollapseWs(s) == Lead(s) + Join(Words(s), " ") + Trail(s)
    decreases |s|
  {
    if s == [] {
    } else if IsWs(s[0]) {
      var n := LeadingWs(s);
      CollapseIsPadded(s[n..]);
      PaddedAfterSpace(s);
    } else {
      var e := WordLength(s);
      CollapseIsPadded(s[e..]);
      PaddedAfterWord(s);
    }
  }

  /** The step of `CollapseIsPadded` over leading whitespace. */
  lemma PaddedAfterSpace(s: string)
    requires s != [] && IsWs(s[0])
    requires var t := s[LeadingWs(s)..]; CollapseWs(t) == Lead(t) + Join(Words(t), " ") + Trail(t)
    ensures CollapseWs(s) == Lead(s) + Join(Words(s), " ") + Trail(s)
  {
    var t := s[LeadingWs(s)..];
    SpaceStep(s);
    TrailAfterLeading(s);
    PadAfterSpace(CollapseWs(s), CollapseWs(t), Join(Words(t), " "), Join(Words(s), " "), Trail(t), Trail(s));
  }

  /** The string algebra of `PaddedAfterSpace`. */
  lemma PadAfterSpace(cs: string, ct: string, jt: string, js: string, tt: string, ts: string)
    requires cs == " " + ct && ct == "" + jt + tt && js == jt && ts == tt
    ensures cs == " " + js + ts
  {
  }

  lemma TrailAfterLeading(s: string)
    ensures Trail(s[LeadingWs(s)..]) == Trail(s)
  {
    LeadingWsRun(s);
    TrailAfterWs(s, LeadingWs(s));
  }

  /** Unfolding `CollapseWs`, `Words` and `Lead` over leading whitespace. */
  lemma SpaceStep(s: string)
    requires s != [] && IsWs(s[0])
    ensures CollapseWs(s) == " " + CollapseWs(s[LeadingWs(s)..])
    ensures Words(s) == Words(s[LeadingWs(s)..])
    ensures Lead(s) == " " && Lead(s[LeadingWs(s)..]) == ""
  {
  }

  /** Dropping leading whitespace keeps the trailing space `CollapseWs` writes. */
  lemma TrailAfterWs(s: string, n: nat)
    requires n <= |s|
    requires forall i :: 0 <= i < n ==> IsWs(s[i])
    ensures Trail(s[n..]) == Trail(s)
  {
    BlankAfterWs(s, n);
    if n < |s| {
      assert s[n..][|s| - n - 1] == s[|s| - 1];
    }
  }

  /** The step of `CollapseIsPadded` over a word. */
  lemma PaddedAfterWord(s: string)
    requires s != [] && !IsWs(s[0])
    requires var t := s[WordLength(s)..]; CollapseWs(t) == Lead(t) + Join(Words(t), " ") + Trail(t)
    ensures CollapseWs(s) == Lead(s) + Join(Words(s), " ") + Trail(s)
  {
    if WordLength(s) == |s| {
      WordAlone(s);
    } else {
      WordBeforeSpace(s);
    }
  }

  /** `PaddedAfterWord` when whitespace follows the word. */
  lemma WordBeforeSpace(s: string)
    requires s != [] && !IsWs(s[0]) && WordLength(s) < |s|
    requires var t := s[WordLength(s)..]; CollapseWs(t) == Lead(t) + Join(Words(t), " ") + Trail(t)
    ensures CollapseWs(s) == Lead(s) + Join(Words(s), " ") + Trail(s)
  {
    var e := WordLength(s);
    var t := s[e..];
    CollapseWord(s);
    WordsStep(s);
    WordsEmptyIffBlank(t);
    WordThenSpace(s, e);
    JoinWordThen(s[..e], Words(t));
    PadAfterWord(CollapseWs(s), s[..e], CollapseWs(t), Join(Words(t), " "), Trail(t),
                 Join(Words(s), " "), Trail(s), Words(t) == []);
  }

  /** The string algebra of `PaddedAfterWord` when whitespace follows the word. */
  lemma PadAfterWord(cs: string, w: string, ct: string, jt: string, tt: string, js: string, ts: string, none: bool)
    requires cs == w + ct && ct == " " + jt + tt
    requires none ==> jt == [] && tt == [] && js == w && ts == " "
    requires !none ==> js == w + " " + jt && ts == tt
    ensures cs == "" + js + ts
  {
  }

  /** Unfolding `Words` over a leading word. */
  lemma WordsStep(s: string)
    requires s != [] && !IsWs(s[0])
    ensures Words(s) == [s[..WordLength(s)]] + Words(s[WordLength(s)..])
    ensures Lead(s) == ""
  {
  }

  /** Joining a word before the rest: the rest follows after one space. */
  lemma JoinWordThen(w: string, ws: seq<string>)
    ensures ws == [] ==> Join([w] + ws, " ") == w
    ensures ws != [] ==> Join([w] + ws, " ") == w + " " + Join(ws, " ")
  {
    if ws == [] {
      assert [w] + ws == [w];
    } else {
      JoinCons(w, ws, " ");
    }
  }

  /** `PaddedAfterWord` when the word runs to the end: the string collapses to itself. */
  lemma WordAlone(s: string)
    requires s != [] && !IsWs(s[0]) && WordLength(s) == |s|
    ensures CollapseWs(s) == Lead(s) + Join(Words(s), " ") + Trail(s)
  {
    OneWordTrail(s);
    OneWordCollapse(s);
    OneWordWords(s);
    assert Join([s], " ") == s;
  }

  lemma OneWordTrail(s: string)
    requires s != [] && !IsWs(s[0]) && WordLength(s) == |s|
    ensures Lead(s) == "" && Trail(s) == ""
  {
    WordLengthRun(s);
    assert !IsWs(s[|s| - 1]);
    assert !Blank(s) by { assert !IsWs(s[0]); }
  }

  lemma OneWordCollapse(s: string)
    requires s != [] && !IsWs(s[0]) && WordLength(s) == |s|
    ensures CollapseWs(s) == s
  {
    CollapseWord(s);
    assert s[..|s|] == s;
    assert CollapseWs(s[|s|..]) == [];
  }

  lemma OneWordWords(s: string)
    requires s != [] && !IsWs(s[0]) && WordLength(s) == |s|
    ensures Words(s) == [s]
  {
    WordsStep(s);
    assert s[..|s|] == s;
    assert Words(s[|s|..]) == [];
  }

  /** A word followed by whitespace: the trailing space is the rest's, unless
      the rest is blank, when it is one space after the word. */
  lemma WordThenSpace(s: string, e: nat)
    requires s != [] && !IsWs(s[0]) && e == WordLength(s) < |s|
    ensures Lead(s[e..]) == " "
    ensures Blank(s[e..]) ==> Trail(s) == " " && Trail(s[e..]) == ""
    ensures !Blank(s[e..]) ==> Trail(s) == Trail(s[e..])
  {
    var t := s[e..];
    assert t[|t| - 1] == s[|s| - 1];
    assert !Blank(s) by { assert !IsWs(s[0]); }
  }

  /** Trimming a string padded with at most one space on each side. */
  lemma TrimPadded(p: string, j: string, q: string)
    requires p == "" || p == " "
    requires q == "" || q == " "
    requires j != [] ==> !IsWs(j[0]) && !IsWs(j[|j| - 1])
    requires j == [] ==> p + q != "  "
    ensures Trim(p + j + q) == j
  {
    var s := p + j + q;
    if j == [] {
      assert Blank(s);
    } else {
      LeadingPad(p, j + q);
      assert p + (j + q) == s;
      TrailingPad(p + j, q);
      assert s[|p|..|s| - |q|] == j;
    }
  }

  lemma LeadingPad(p: string, x: string)
    requires p == "" || p == " "
    requires x != [] && !IsWs(x[0])
    ensures LeadingWs(p + x) == |p|
  {
    if p == " " {
      assert (p + x)[1..] == x;
    } else {
      assert p + x == x;
    }
  }

  lemma TrailingPad(x: string, q: string)
    requires q == "" || q == " "
    requires x != [] && !IsWs(x[|x| - 1])
    ensures TrailingWs(x + q) == |q|
  {
    if q == " " {
      assert (x + q)[..|x + q| - 1] == x;
    } else {
      assert x + q == x;
    }
  }

  lemma CollapseKeepsBlank(s: string)
    ensures Blank(CollapseWs(s)) <==> Blank(s)
  {
    if s != [] {
      if IsWs(s[0]) {
        var n := LeadingWs(s);
        LeadingWsRun(s);
        if n < |s| {
          assert !Blank(s) && CollapseWs(s)[1] == CollapseWs(s[n..])[0];
        }
      } else {
        assert CollapseWs(s)[0] == s[0];
      }
    }
  }
}
