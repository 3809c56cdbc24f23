/** Citation extraction in the chat answer view
    (components/ResponseWithCitations.tsx): the tokens `[p.N]`,
    `[p.N, p.M, …]` and `[p.a-b]` are found left to right, their page numbers
    collected into a set that is listed in ascending order, and the tokens
    are cut out of the text that is rendered. */
module Citations {
  import opened Text
  import Chunking

  // ---------------------------------------------------------------------------
  // The token language

  /** One `<ws>,<ws>p.<digits>` part of a list token. */
  datatype Item = Item(before: string, after: string, digits: string)

  /** What follows the first page number: further list items (none for
      `[p.N]`), or `<ws>-<ws><digits>` for a range. */
  datatype More = List(items: seq<Item>) | Range(before: string, after: string, last: string)

  /** A token `[p.<first><more>]`. */
  datatype Cite = Cite(first: string, more: More)

  predicate Number(d: string) {
    |d| > 0 && AllDigits(d)
  }

  predicate ItemOk(it: Item) {
    Blank(it.before) && Blank(it.after) && Number(it.digits)
  }

  /** The tokens the pattern `\[p\.\d+(?:(?:\s*,\s*p\.\d+)*|(?:\s*-\s*\d+)?)\]`
      describes: whitespace only around the comma or the dash, `p.` before
      every listed number, none before the end of a range. */
  predicate WellFormed(c: Cite) {
    && Number(c.first)
    && match c.more
       case List(items) => forall k :: 0 <= k < |items| ==> ItemOk(items[k])
       case Range(before, after, last) => Blank(before) && Blank(after) && Number(last)
  }

  function ItemText(it: Item): string {
    it.before + ("," + (it.after + ("p." + it.digits)))
  }

  /** The list items followed by the closing bracket. */
  function ListText(items: seq<Item>): string {
    if items == [] then "]" else ItemText(items[0]) + ListText(items[1..])
  }

  /** Everything after the first number, closing bracket included. */
  function Closing(m: More): string {
    match m
    case List(items) => ListText(items)
    case Range(before, after, last) => before + ("-" + (after + (last + "]")))
  }

  /** The characters of a token. */
  function Spell(c: Cite): string {
    "[p." + (c.first + Closing(c.more))
  }

  // ---------------------------------------------------------------------------
  // The recogniser

  /** The list item `<ws>,<ws>p.<digits>` that starts at `k`, with the index after it. */
  function ItemAt(s: string, k: nat): (r: Option<(Item, nat)>)
    requires k <= |s|
    ensures r.Some? ==> k < r.value.1 <= |s|
  {
    var w := WsEnd(s, k);
    if w < |s| && s[w] == ',' then
      var w2 := WsEnd(s, w + 1);
      if w2 + 1 < |s| && s[w2] == 'p' && s[w2 + 1] == '.' then
        var d := DigitsEnd(s, w2 + 2);
        if d > w2 + 2 then Some((Item(s[k..w], s[w + 1..w2], s[w2 + 2..d]), d)) else None
      else None
    else None
  }

  /** The list items from `k` up to and including the closing `]`, and the
      index after it. */
  function ItemsAt(s: string, k: nat): (r: Option<(seq<Item>, nat)>)
    requires k <= |s|
    decreases |s| - k
  {
    if k < |s| && s[k] == ']' then Some(([], k + 1))
    else
      var item := ItemAt(s, k);
      if item.None? then None
      else
        var rest := ItemsAt(s, item.value.1);
        if rest.None? then None
        else Some(([item.value.0] + rest.value.0, rest.value.1))
  }

  /** The range end `<ws>-<ws><digits>]` that starts at `d`, with the index after it. */
  function RangeAt(s: string, d: nat): Option<(More, nat)>
    requires d <= |s|
  {
    var w := WsEnd(s, d);
    if w < |s| && s[w] == '-' then
      var w2 := WsEnd(s, w + 1);
      var d2 := DigitsEnd(s, w2);
      if w2 < d2 < |s| && s[d2] == ']' then Some((Range(s[d..w], s[w + 1..w2], s[w2..d2]), d2 + 1))
      else None
    else None
  }

  /** The token that starts at `i`, with the index after it, if any. Every
      token ends at the first `]` after its `[`, so the pattern matches at
      most one token at a position and this deterministic reading finds it:
      after the first number, a dash (past any whitespace) can only open a
      range, anything else only a list. */
  function MatchAt(s: string, i: nat): Option<(Cite, nat)>
  {
    if i + 3 <= |s| && s[i] == '[' && s[i + 1] == 'p' && s[i + 2] == '.' then
      var d := DigitsEnd(s, i + 3);
      if d == i + 3 then None
      else
        var range := RangeAt(s, d);
        if range.Some? then Some((Cite(s[i + 3..d], range.value.0), range.value.1))
        else
          var list := ItemsAt(s, d);
          if list.Some? then Some((Cite(s[i + 3..d], List(list.value.0)), list.value.1))
          else None
    else None
  }

  // ---------------------------------------------------------------------------
  // Soundness: what the recogniser reads is a well-formed token, spelled by
  // exactly the characters it consumed

  lemma SliceSplit(s: string, a: nat, b: nat, c: nat)
    requires a <= b <= c <= |s|
    ensures s[a..c] == s[a..b] + s[b..c]
  {
  }

  /** The characters of one list item, read off where its parts lie. */
  lemma ItemSpelled(s: string, k: nat, w: nat, w2: nat, d: nat)
    requires k <= w < w2 + 2 <= d <= |s| && w + 1 <= w2
    requires s[w] == ',' && s[w2] == 'p' && s[w2 + 1] == '.'
    ensures s[k..d] == ItemText(Item(s[k..w], s[w + 1..w2], s[w2 + 2..d]))
  {
    var tail := "p." + s[w2 + 2..d];
    assert s[w2..d] == tail by {
      SliceSplit(s, w2, w2 + 2, d);
      assert s[w2..w2 + 2] == "p.";
    }
    assert s[w + 1..d] == s[w + 1..w2] + tail by {
      SliceSplit(s, w + 1, w2, d);
    }
    assert s[w..d] == "," + (s[w + 1..w2] + tail) by {
      SliceSplit(s, w, w + 1, d);
      assert s[w..w + 1] == ",";
    }
    SliceSplit(s, k, w, d);
  }

  lemma ItemAtSound(s: string, k: nat)
    requires k <= |s| && ItemAt(s, k).Some?
    ensures ItemOk(ItemAt(s, k).value.0)
    ensures s[k..ItemAt(s, k).value.1] == ItemText(ItemAt(s, k).value.0)
  {
    var w := WsEnd(s, k);
    var w2 := WsEnd(s, w + 1);
    var d := DigitsEnd(s, w2 + 2);
    var it := Item(s[k..w], s[w + 1..w2], s[w2 + 2..d]);
    assert w < |s| && s[w] == ',' && w2 + 1 < |s| && s[w2] == 'p' && s[w2 + 1] == '.' && d > w2 + 2;
    assert ItemAt(s, k) == Some((it, d));
    assert ItemOk(it) by {
      WsEndRun(s, k);
      WsEndRun(s, w + 1);
      DigitsEndRun(s, w2 + 2);
    }
    assert s[k..d] == ItemText(it) by {
      ItemSpelled(s, k, w, w2, d);
    }
  }

  lemma ConsSpelled(s: string, k: nat, d: nat, e: nat, it: Item, rest: seq<Item>)
    requires k <= d <= e <= |s|
    requires s[k..d] == ItemText(it) && s[d..e] == ListText(rest)
    ensures s[k..e] == ListText([it] + rest)
  {
    SliceSplit(s, k, d, e);
    assert ([it] + rest)[1..] == rest;
  }

  lemma {:induction false} ItemsAtSound(s: string, k: nat)
    requires k <= |s| && ItemsAt(s, k).Some?
    ensures k < ItemsAt(s, k).value.1 <= |s|
    ensures s[k..ItemsAt(s, k).value.1] == ListText(ItemsAt(s, k).value.0)
    ensures forall j :: 0 <= j < |ItemsAt(s, k).value.0| ==> ItemOk(ItemsAt(s, k).value.0[j])
    decreases |s| - k
  {
    if k < |s| && s[k] == ']' {
      assert s[k..k + 1] == "]";
    } else {
      var it, d := ItemAt(s, k).value.0, ItemAt(s, k).value.1;
      ItemAtSound(s, k);
      ItemsAtSound(s, d);
      var rest, e := ItemsAt(s, d).value.0, ItemsAt(s, d).value.1;
      assert ItemsAt(s, k).value == ([it] + rest, e);
      ConsSpelled(s, k, d, e, it, rest);
      forall j | 0 < j < |[it] + rest| ensures ItemOk(([it] + rest)[j]) {
        assert ([it] + rest)[j] == rest[j - 1];
      }
    }
  }

  /** The characters of a range end, read off where its parts lie. */
  lemma RangeSpelled(s: string, d: nat, w: nat, w2: nat, d2: nat)
    requires d <= w < w2 + 1 <= d2 + 1 <= |s| && w + 1 <= w2
    requires s[w] == '-' && s[d2] == ']'
    ensures s[d..d2 + 1] == Closing(Range(s[d..w], s[w + 1..w2], s[w2..d2]))
  {
    var e := d2 + 1;
    var tail := s[w2..d2] + "]";
    assert s[w2..e] == tail by {
      SliceSplit(s, w2, d2, e);
      assert s[d2..e] == "]";
    }
    assert s[w + 1..e] == s[w + 1..w2] + tail by {
      SliceSplit(s, w + 1, w2, e);
    }
    assert s[w..e] == "-" + (s[w + 1..w2] + tail) by {
      SliceSplit(s, w, w + 1, e);
      assert s[w..w + 1] == "-";
    }
    SliceSplit(s, d, w, e);
  }

  lemma RangeAtSound(s: string, d: nat)
    requires d <= |s| && RangeAt(s, d).Some?
    ensures RangeAt(s, d).value.0.Range?
    ensures var m := RangeAt(s, d).value.0;
            Blank(m.before) && Blank(m.after) && Number(m.last)
    ensures d < RangeAt(s, d).value.1 <= |s|
    ensures s[d..RangeAt(s, d).value.1] == Closing(RangeAt(s, d).value.0)
  {
    var w := WsEnd(s, d);
    var w2 := WsEnd(s, w + 1);
    var d2 := DigitsEnd(s, w2);
    var m := Range(s[d..w], s[w + 1..w2], s[w2..d2]);
    assert w < |s| && s[w] == '-' && w2 < d2 < |s| && s[d2] == ']';
    assert RangeAt(s, d) == Some((m, d2 + 1));
    assert Blank(m.before) && Blank(m.after) && Number(m.last) by {
      WsEndRun(s, d);
      WsEndRun(s, w + 1);
      DigitsEndRun(s, w2);
    }
    assert s[d..d2 + 1] == Closing(m) by {
      RangeSpelled(s, d, w, w2, d2);
    }
  }

  /** A token's characters: `[p.`, the first number, then the rest. */
  lemma TokenSpelled(s: string, i: nat, d: nat, e: nat, m: More)
    requires i + 3 <= d <= e <= |s| && s[i] == '[' && s[i + 1] == 'p' && s[i + 2] == '.'
    requires s[d..e] == Closing(m)
    ensures s[i..e] == Spell(Cite(s[i + 3..d], m))
  {
    SliceSplit(s, i, i + 3, e);
    SliceSplit(s, i + 3, d, e);
    assert s[i..i + 3] == "[p.";
  }

  /** `MatchAt` as the choice between a range and a list after the first number. */
  lemma MatchAtIs(s: string, i: nat)
    requires i <= |s| && MatchAt(s, i).Some?
    ensures i + 3 < DigitsEnd(s, i + 3) <= |s| && s[i] == '[' && s[i + 1] == 'p' && s[i + 2] == '.'
    ensures var d := DigitsEnd(s, i + 3);
            if RangeAt(s, d).Some? then
              MatchAt(s, i).value == (Cite(s[i + 3..d], RangeAt(s, d).value.0), RangeAt(s, d).value.1)
            else
              ItemsAt(s, d).Some? &&
              MatchAt(s, i).value == (Cite(s[i + 3..d], List(ItemsAt(s, d).value.0)), ItemsAt(s, d).value.1)
  {
  }

  /** Soundness: whatever the recogniser reads is a well-formed token, spelled
      by exactly the characters it consumed. */
  lemma MatchAtSound(s: string, i: nat)
    requires i <= |s| && MatchAt(s, i).Some?
    ensures WellFormed(MatchAt(s, i).value.0)
    ensures i < MatchAt(s, i).value.1 <= |s|
    ensures s[i..MatchAt(s, i).value.1] == Spell(MatchAt(s, i).value.0)
  {
    MatchAtIs(s, i);
    var d := DigitsEnd(s, i + 3);
    DigitsEndRun(s, i + 3);
    if RangeAt(s, d).Some? {
      RangeAtSound(s, d);
      TokenSpelled(s, i, d, RangeAt(s, d).value.1, RangeAt(s, d).value.0);
    } else {
      ItemsAtSound(s, d);
      TokenSpelled(s, i, d, ItemsAt(s, d).value.1, List(ItemsAt(s, d).value.0));
    }
  }

  // ---------------------------------------------------------------------------
  // Completeness: a well-formed token is read back whole, as itself

  /** Cutting a slice that spells `x + y` into its two halves. */
  lemma Split2(s: string, a: nat, c: nat, x: string, y: string)
    requires a + |x| + |y| == c <= |s| && s[a..c] == x + y
    ensures s[a..a + |x|] == x && s[a + |x|..c] == y
  {
    assert s[a..a + |x|] == s[a..c][..|x|];
    assert s[a + |x|..c] == s[a..c][|x|..];
  }

  /** A whitespace run that stops before a non-whitespace character is what `WsEnd` finds. */
  lemma {:induction false} WsEndIs(s: string, i: nat, m: nat)
    requires i + m <= |s| && Blank(s[i..i + m])
    requires i + m == |s| || !IsWs(s[i + m])
    ensures WsEnd(s, i) == i + m
    decreases m
  {
    if m > 0 {
      assert s[i..i + m][0] == s[i];
      assert s[i + 1..i + m] == s[i..i + m][1..];
      WsEndIs(s, i + 1, m - 1);
    }
  }

  /** A digit run that stops before a non-digit is what `DigitsEnd` finds. */
  lemma {:induction false} DigitsEndIs(s: string, i: nat, m: nat)
    requires i + m <= |s| && AllDigits(s[i..i + m])
    requires i + m == |s| || !IsDigit(s[i + m])
    ensures DigitsEnd(s, i) == i + m
    decreases m
  {
    if m > 0 {
      assert s[i..i + m][0] == s[i];
      assert s[i + 1..i + m] == s[i..i + m][1..];
      DigitsEndIs(s, i + 1, m - 1);
    }
  }

  /** Where the parts of a list item lie when `s` spells it from `k`. */
  lemma ItemParts(s: string, k: nat, before: string, after: string, digits: string)
    requires k + |before| + |after| + |digits| + 3 <= |s|
    requires s[k..k + |before| + |after| + |digits| + 3] == before + ("," + (after + ("p." + digits)))
    ensures s[k..k + |before|] == before && s[k + |before|] == ','
    ensures s[k + |before| + 1..k + |before| + 1 + |after|] == after
    ensures s[k + |before| + 1 + |after|] == 'p' && s[k + |before| + 1 + |after| + 1] == '.'
    ensures s[k + |before| + 1 + |after| + 2..k + |before| + |after| + |digits| + 3] == digits
  {
    var w := k + |before|;
    var w2 := w + 1 + |after|;
    var d := w2 + 2 + |digits|;
    var tail := "p." + digits;
    assert s[k..w] == before && s[w..d] == "," + (after + tail) by {
      Split2(s, k, d, before, "," + (after + tail));
    }
    assert s[w] == ',' && s[w + 1..d] == after + tail by {
      Split2(s, w, d, ",", after + tail);
      assert s[w] == s[w..d][0];
    }
    assert s[w + 1..w2] == after && s[w2..d] == tail by {
      Split2(s, w + 1, d, after, tail);
    }
    assert s[w2] == 'p' && s[w2 + 1] == '.' && s[w2 + 2..d] == digits by {
      Split2(s, w2, d, "p.", digits);
      assert s[w2..w2 + 2][0] == s[w2] && s[w2..w2 + 2][1] == s[w2 + 1];
    }
  }

  /** `ItemAt` once the ends of the runs in it are known. */
  lemma ItemAtIs(s: string, k: nat, w: nat, w2: nat, d: nat)
    requires k <= |s| && WsEnd(s, k) == w && w < |s| && s[w] == ','
    requires WsEnd(s, w + 1) == w2 && w2 + 1 < |s| && s[w2] == 'p' && s[w2 + 1] == '.'
    requires DigitsEnd(s, w2 + 2) == d && d > w2 + 2
    ensures ItemAt(s, k) == Some((Item(s[k..w], s[w + 1..w2], s[w2 + 2..d]), d))
  {
  }

  /** `ItemAt` over an item laid out part by part. */
  lemma ItemAtFromParts(s: string, k: nat, w: nat, w2: nat, d: nat, before: string, after: string, digits: string)
    requires Blank(before) && Blank(after) && Number(digits)
    requires k <= w < w2 + 2 <= d <= |s| && w + 1 <= w2
    requires s[k..w] == before && s[w] == ',' && s[w + 1..w2] == after
    requires s[w2] == 'p' && s[w2 + 1] == '.' && s[w2 + 2..d] == digits
    requires d == |s| || !IsDigit(s[d])
    ensures ItemAt(s, k) == Some((Item(before, after, digits), d))
  {
    assert WsEnd(s, k) == w by {
      WsEndIs(s, k, w - k);
    }
    assert WsEnd(s, w + 1) == w2 by {
      WsEndIs(s, w + 1, w2 - w - 1);
    }
    assert DigitsEnd(s, w2 + 2) == d by {
      DigitsEndIs(s, w2 + 2, d - w2 - 2);
    }
    ItemAtIs(s, k, w, w2, d);
  }

  lemma ItemAtComplete(s: string, k: nat, it: Item)
    requires ItemOk(it)
    requires k + |ItemText(it)| <= |s| && s[k..k + |ItemText(it)|] == ItemText(it)
    requires k + |ItemText(it)| == |s| || !IsDigit(s[k + |ItemText(it)|])
    ensures ItemAt(s, k) == Some((it, k + |ItemText(it)|))
  {
    var before, after, digits := it.before, it.after, it.digits;
    var e := k + |ItemText(it)|;
    assert e == k + |before| + |after| + |digits| + 3;
    ItemParts(s, k, before, after, digits);
    ItemAtFromParts(s, k, k + |before|, k + |before| + 1 + |after|, e, before, after, digits);
    assert Item(before, after, digits) == it;
  }

  /** The first character after the first number of a list token: `]` when
      the list is empty, else the first item's whitespace or comma. */
  lemma ListHead(items: seq<Item>)
    requires forall j :: 0 <= j < |items| ==> ItemOk(items[j])
    ensures |ListText(items)| > 0
    ensures ListText(items)[0] == ']' <==> items == []
    ensures ListText(items)[0] == ']' || ListText(items)[0] == ',' || IsWs(ListText(items)[0])
  {
    if items != [] {
      var it := items[0];
      assert ListText(items)[0] == (it.before + ",")[0];
      assert it.before == [] || IsWs(it.before[0]);
    }
  }

  /** The first item of a non-empty list, and the rest of the list after it. */
  lemma ListSplit(s: string, k: nat, items: seq<Item>)
    requires items != []
    requires k + |ListText(items)| <= |s| && s[k..k + |ListText(items)|] == ListText(items)
    ensures k + |ItemText(items[0])| + |ListText(items[1..])| == k + |ListText(items)|
    ensures s[k..k + |ItemText(items[0])|] == ItemText(items[0])
    ensures s[k + |ItemText(items[0])|..k + |ListText(items)|] == ListText(items[1..])
  {
    Split2(s, k, k + |ListText(items)|, ItemText(items[0]), ListText(items[1..]));
  }

  lemma HeadTail<T>(xs: seq<T>)
    requires xs != []
    ensures [xs[0]] + xs[1..] == xs
  {
  }

  /** `ItemsAt` past one item. */
  lemma ItemsAtCons(s: string, k: nat, it: Item, d: nat, rest: seq<Item>, e: nat)
    requires k < |s| && s[k] != ']' && ItemAt(s, k) == Some((it, d)) && ItemsAt(s, d) == Some((rest, e))
    ensures ItemsAt(s, k) == Some(([it] + rest, e))
  {
  }

  /** `ItemsAt` reads a spelled item and then whatever list follows it. */
  lemma ItemsAtStep(s: string, k: nat, d: nat, e: nat, it: Item, rest: seq<Item>)
    requires ItemOk(it) && d == k + |ItemText(it)| && d < |s| && !IsDigit(s[d])
    requires s[k..d] == ItemText(it)
    requires ItemsAt(s, d) == Some((rest, e))
    ensures ItemsAt(s, k) == Some(([it] + rest, e))
  {
    assert s[k] != ']' by {
      assert s[k] == s[k..d][0] == (it.before + ",")[0];
      assert it.before == [] || IsWs(it.before[0]);
    }
    assert ItemAt(s, k) == Some((it, d)) by {
      ItemAtComplete(s, k, it);
    }
    ItemsAtCons(s, k, it, d, rest, e);
  }

  lemma {:induction false} ItemsAtComplete(s: string, k: nat, items: seq<Item>)
    requires forall j :: 0 <= j < |items| ==> ItemOk(items[j])
    requires k + |ListText(items)| <= |s| && s[k..k + |ListText(items)|] == ListText(items)
    ensures ItemsAt(s, k) == Some((items, k + |ListText(items)|))
    decreases items
  {
    var e := k + |ListText(items)|;
    if items == [] {
      assert s[k] == s[k..e][0];
    } else {
      var it, rest := items[0], items[1..];
      var d := k + |ItemText(it)|;
      assert d + |ListText(rest)| == e && s[k..d] == ItemText(it) && s[d..e] == ListText(rest) by {
        ListSplit(s, k, items);
      }
      assert d < |s| && !IsDigit(s[d]) by {
        ListHead(rest);
        assert s[d] == s[d..e][0];
      }
      ItemsAtComplete(s, d, rest);
      ItemsAtStep(s, k, d, e, it, rest);
      HeadTail(items);
    }
  }

  /** `RangeAt` once the ends of the runs in it are known. */
  lemma RangeAtIs(s: string, d: nat, w: nat, w2: nat, d2: nat)
    requires d <= |s| && WsEnd(s, d) == w && w < |s| && s[w] == '-'
    requires WsEnd(s, w + 1) == w2 && DigitsEnd(s, w2) == d2 && w2 < d2 < |s| && s[d2] == ']'
    ensures RangeAt(s, d) == Some((Range(s[d..w], s[w + 1..w2], s[w2..d2]), d2 + 1))
  {
  }

  /** Where the parts of a range end lie when `s` spells it from `d`. */
  lemma RangeParts(s: string, d: nat, before: string, after: string, last: string)
    requires d + |before| + |after| + |last| + 2 <= |s|
    requires s[d..d + |before| + |after| + |last| + 2] == before + ("-" + (after + (last + "]")))
    ensures s[d..d + |before|] == before && s[d + |before|] == '-'
    ensures s[d + |before| + 1..d + |before| + 1 + |after|] == after
    ensures s[d + |before| + 1 + |after|..d + |before| + 1 + |after| + |last|] == last
    ensures s[d + |before| + 1 + |after| + |last|] == ']'
  {
    var w := d + |before|;
    var w2 := w + 1 + |after|;
    var d2 := w2 + |last|;
    var e := d2 + 1;
    Split2(s, d, e, before, "-" + (after + (last + "]")));
    Split2(s, w, e, "-", after + (last + "]"));
    Split2(s, w + 1, e, after, last + "]");
    Split2(s, w2, e, last, "]");
    assert s[w..w + 1][0] == s[w] && s[d2..e][0] == s[d2];
  }

  /** `RangeAt` over a range end laid out part by part. */
  lemma RangeAtFromParts(s: string, d: nat, w: nat, w2: nat, d2: nat, before: string, after: string, last: string)
    requires Blank(before) && Blank(after) && Number(last)
    requires d <= w < w2 + 1 <= d2 < |s| && w + 1 <= w2
    requires s[d..w] == before && s[w] == '-' && s[w + 1..w2] == after && s[w2..d2] == last && s[d2] == ']'
    ensures RangeAt(s, d) == Some((Range(before, after, last), d2 + 1))
  {
    assert WsEnd(s, d) == w by {
      WsEndIs(s, d, w - d);
    }
    assert WsEnd(s, w + 1) == w2 by {
      assert s[w2] == s[w2..d2][0];
      WsEndIs(s, w + 1, w2 - w - 1);
    }
    assert DigitsEnd(s, w2) == d2 by {
      DigitsEndIs(s, w2, d2 - w2);
    }
    RangeAtIs(s, d, w, w2, d2);
  }

  lemma RangeAtComplete(s: string, d: nat, before: string, after: string, last: string)
    requires Blank(before) && Blank(after) && Number(last)
    requires d + |before| + |after| + |last| + 2 <= |s|
    requires s[d..d + |before| + |after| + |last| + 2] == before + ("-" + (after + (last + "]")))
    ensures RangeAt(s, d) == Some((Range(before, after, last), d + |before| + |after| + |last| + 2))
  {
    var w := d + |before|;
    var w2 := w + 1 + |after|;
    var d2 := w2 + |last|;
    RangeParts(s, d, before, after, last);
    RangeAtFromParts(s, d, w, w2, d2, before, after, last);
  }

  /** No range starts where the whitespace is followed by something other than `-`. */
  lemma NotRangeAt(s: string, d: nat, w: nat)
    requires d <= w < |s| && Blank(s[d..w]) && !IsWs(s[w]) && s[w] != '-'
    ensures RangeAt(s, d).None?
  {
    WsEndIs(s, d, w - d);
  }

  lemma ListNotRange(s: string, d: nat, items: seq<Item>)
    requires forall j :: 0 <= j < |items| ==> ItemOk(items[j])
    requires d + |ListText(items)| <= |s| && s[d..d + |ListText(items)|] == ListText(items)
    ensures RangeAt(s, d).None?
  {
    var e := d + |ListText(items)|;
    if items == [] {
      assert s[d] == ']' by {
        assert s[d..e] == "]";
        assert s[d] == s[d..e][0];
      }
      NotRangeAt(s, d, d);
    } else {
      var it := items[0];
      var w := d + |it.before|;
      assert w < |s| && s[d..w] == it.before && s[w] == ',' by {
        ListSplit(s, d, items);
        ItemParts(s, d, it.before, it.after, it.digits);
      }
      NotRangeAt(s, d, w);
    }
  }

  /** `MatchAt` once the end of the first number is known. */
  lemma MatchAtUnfold(s: string, i: nat, d: nat)
    requires i + 3 <= |s| && s[i] == '[' && s[i + 1] == 'p' && s[i + 2] == '.'
    requires DigitsEnd(s, i + 3) == d && d > i + 3
    ensures MatchAt(s, i) ==
      if RangeAt(s, d).Some? then Some((Cite(s[i + 3..d], RangeAt(s, d).value.0), RangeAt(s, d).value.1))
      else if ItemsAt(s, d).Some? then Some((Cite(s[i + 3..d], List(ItemsAt(s, d).value.0)), ItemsAt(s, d).value.1))
      else None
  {
  }

  lemma MatchAtList(s: string, i: nat, d: nat, items: seq<Item>, e: nat)
    requires i + 3 <= |s| && s[i] == '[' && s[i + 1] == 'p' && s[i + 2] == '.'
    requires DigitsEnd(s, i + 3) == d && d > i + 3
    requires RangeAt(s, d).None? && ItemsAt(s, d) == Some((items, e))
    ensures MatchAt(s, i) == Some((Cite(s[i + 3..d], List(items)), e))
  {
  }

  lemma MatchAtRange(s: string, i: nat, d: nat, m: More, e: nat)
    requires i + 3 <= |s| && s[i] == '[' && s[i + 1] == 'p' && s[i + 2] == '.'
    requires DigitsEnd(s, i + 3) == d && d > i + 3
    requires RangeAt(s, d) == Some((m, e))
    ensures MatchAt(s, i) == Some((Cite(s[i + 3..d], m), e))
  {
  }

  /** The first number of a token spelled from `i`, and what follows it. */
  lemma TokenParts(s: string, i: nat, first: string, rest: string)
    requires i + 3 + |first| + |rest| <= |s|
    requires s[i..i + 3 + |first| + |rest|] == "[p." + (first + rest)
    ensures s[i] == '[' && s[i + 1] == 'p' && s[i + 2] == '.'
    ensures s[i + 3..i + 3 + |first|] == first && s[i + 3 + |first|..i + 3 + |first| + |rest|] == rest
  {
    var e := i + 3 + |first| + |rest|;
    Split2(s, i, e, "[p.", first + rest);
    Split2(s, i + 3, e, first, rest);
    assert s[i..i + 3][0] == s[i] && s[i..i + 3][1] == s[i + 1] && s[i..i + 3][2] == s[i + 2];
  }

  /** Where the parts of a token lie when `s` spells it from `i`. */
  lemma SpellParts(s: string, i: nat, c: Cite)
    requires i + |Spell(c)| <= |s| && s[i..i + |Spell(c)|] == Spell(c)
    ensures |Spell(c)| == 3 + |c.first| + |Closing(c.more)|
    ensures s[i] == '[' && s[i + 1] == 'p' && s[i + 2] == '.'
    ensures s[i + 3..i + 3 + |c.first|] == c.first
    ensures s[i + 3 + |c.first|..i + |Spell(c)|] == Closing(c.more)
  {
    TokenParts(s, i, c.first, Closing(c.more));
  }

  /** A list token, read from its parts. */
  lemma ListTokenAt(s: string, i: nat, d: nat, e: nat, first: string, items: seq<Item>)
    requires Number(first) && forall j :: 0 <= j < |items| ==> ItemOk(items[j])
    requires i + 3 <= |s| && s[i] == '[' && s[i + 1] == 'p' && s[i + 2] == '.'
    requires d == i + 3 + |first| && e == d + |ListText(items)| && e <= |s|
    requires s[i + 3..d] == first && s[d..e] == ListText(items)
    ensures MatchAt(s, i) == Some((Cite(first, List(items)), e))
  {
    assert DigitsEnd(s, i + 3) == d by {
      ListHead(items);
      assert s[d] == s[d..e][0];
      DigitsEndIs(s, i + 3, |first|);
    }
    assert RangeAt(s, d).None? && ItemsAt(s, d) == Some((items, e)) by {
      ListNotRange(s, d, items);
      ItemsAtComplete(s, d, items);
    }
    MatchAtList(s, i, d, items, e);
  }

  /** A range token, read from its parts. */
  lemma RangeTokenAt(s: string, i: nat, d: nat, e: nat, first: string, before: string, after: string, last: string)
    requires Number(first) && Blank(before) && Blank(after) && Number(last)
    requires i + 3 <= |s| && s[i] == '[' && s[i + 1] == 'p' && s[i + 2] == '.'
    requires d == i + 3 + |first| && e == d + |Closing(Range(before, after, last))| && e <= |s|
    requires s[i + 3..d] == first && s[d..e] == Closing(Range(before, after, last))
    ensures MatchAt(s, i) == Some((Cite(first, Range(before, after, last)), e))
  {
    RangeFirstEnds(s, i, d, e, first, before, after, last);
    RangeAtComplete(s, d, before, after, last);
    MatchAtRange(s, i, d, Range(before, after, last), e);
  }

  /** The first number of a range token ends where the range begins. */
  lemma RangeFirstEnds(s: string, i: nat, d: nat, e: nat, first: string, before: string, after: string, last: string)
    requires Number(first) && Blank(before)
    requires i + 3 <= |s| && d == i + 3 + |first| && e == d + |Closing(Range(before, after, last))| && e <= |s|
    requires s[i + 3..d] == first && s[d..e] == Closing(Range(before, after, last))
    ensures DigitsEnd(s, i + 3) == d
  {
    assert s[d] == s[d..e][0] == (before + "-")[0];
    assert before == [] || IsWs(before[0]);
    DigitsEndIs(s, i + 3, |first|);
  }

  /** Completeness: a well-formed token is read back whole, as itself. */
  lemma MatchAtComplete(s: string, i: nat, c: Cite)
    requires WellFormed(c) && i + |Spell(c)| <= |s| && s[i..i + |Spell(c)|] == Spell(c)
    ensures MatchAt(s, i) == Some((c, i + |Spell(c)|))
  {
    var e := i + |Spell(c)|;
    SpellParts(s, i, c);
    if c.more.List? {
      ListTokenAt(s, i, i + 3 + |c.first|, e, c.first, c.more.items);
    } else {
      RangeTokenAt(s, i, i + 3 + |c.first|, e, c.first, c.more.before, c.more.after, c.more.last);
    }
  }

  // ---------------------------------------------------------------------------
  // Scanning: the `exec` loop with its `lastIndex`, and `replace` with the same
  // global pattern, both try a match at the current position, continue after it
  // when there is one and one character further on otherwise

  /** A way of reading a token at a position: what it read and where it ended. */
  type Recogniser = (string, nat) -> Option<(Cite, nat)>

  /** Every match the recogniser reports consumes at least one character and
      stays inside the text, so a scan with it ends. */
  ghost predicate Advances(r: Recogniser) {
    forall s: string, i: nat :: i <= |s| && r(s, i).Some? ==> i < r(s, i).value.1 <= |s|
  }

  /** Besides, every match is a well-formed token spelled by exactly the run
      of characters it consumed. */
  ghost predicate Sound(r: Recogniser) {
    && Advances(r)
    && forall s: string, i: nat :: i <= |s| && r(s, i).Some? ==>
      && WellFormed(r(s, i).value.0)
      && i < r(s, i).value.1 <= |s|
      && s[i..r(s, i).value.1] == Spell(r(s, i).value.0)
  }

  lemma MatchAtAdvances()
    ensures Advances(MatchAt)
  {
    MatchAtIsSound();
  }

  lemma MatchAtIsSound()
    ensures Sound(MatchAt)
  {
    forall s: string, i: nat | i <= |s| && MatchAt(s, i).Some?
      ensures WellFormed(MatchAt(s, i).value.0) && i < MatchAt(s, i).value.1 <= |s|
      ensures s[i..MatchAt(s, i).value.1] == Spell(MatchAt(s, i).value.0)
    {
      MatchAtSound(s, i);
    }
  }

  /** The text cut into the characters no token covers and the tokens, each
      with what it read and the characters it matched, in order. */
  datatype Piece = Plain(ch: char) | Token(cite: Cite, text: string)

  /** The scan from `i` on with the recogniser `r`; the source's is `MatchAt`. */
  function Scan(r: Recogniser, s: string, i: nat): seq<Piece>
    requires Advances(r) && i <= |s|
    decreases |s| - i
  {
    if i == |s| then []
    else
      match r(s, i)
      case Some((c, e)) => [Token(c, s[i..e])] + Scan(r, s, e)
      case None => [Plain(s[i])] + Scan(r, s, i + 1)
  }

  /** The characters a piece stands for. */
  function PieceText(p: Piece): string {
    match p
    case Plain(ch) => [ch]
    case Token(_, t) => t
  }

  function Render(ps: seq<Piece>): string {
    if ps == [] then [] else PieceText(ps[0]) + Render(ps[1..])
  }

  /** `children.replace(citationRegex, '')`: the characters between the tokens. */
  function Clean(ps: seq<Piece>): string {
    if ps == [] then []
    else (match ps[0] case Plain(ch) => [ch] case Token(_, _) => []) + Clean(ps[1..])
  }

  /** The pieces of the whole text as the source's pattern cuts it. */
  function Pieces(s: string): seq<Piece> {
    MatchAtIsSound();
    Scan(MatchAt, s, 0)
  }

  function CleanText(s: string): string {
    Clean(Pieces(s))
  }

  predicate HasToken(ps: seq<Piece>) {
    exists k :: 0 <= k < |ps| && ps[k].Token?
  }

  /** Every token piece matched at least one character. */
  predicate TokensNonEmpty(ps: seq<Piece>) {
    forall k :: 0 <= k < |ps| && ps[k].Token? ==> ps[k].text != []
  }

  /** Every token piece is a well-formed token and matched its spelling. */
  predicate TokensSpelled(ps: seq<Piece>) {
    forall k :: 0 <= k < |ps| && ps[k].Token? ==> WellFormed(ps[k].cite) && ps[k].text == Spell(ps[k].cite)
  }

  /** One step of the scan where a token matches. */
  lemma ScanToken(r: Recogniser, s: string, i: nat, c: Cite, e: nat)
    requires Advances(r) && i < |s| && r(s, i) == Some((c, e))
    ensures i < e <= |s|
    ensures Scan(r, s, i) == [Token(c, s[i..e])] + Scan(r, s, e)
  {
  }

  /** One step of the scan where no token matches. */
  lemma ScanPlain(r: Recogniser, s: string, i: nat)
    requires Advances(r) && i < |s| && r(s, i).None?
    ensures Scan(r, s, i) == [Plain(s[i])] + Scan(r, s, i + 1)
  {
  }

  lemma RenderCons(p: Piece, rest: seq<Piece>)
    ensures Render([p] + rest) == PieceText(p) + Render(rest)
  {
    assert ([p] + rest)[1..] == rest;
  }

  /** A piece standing for `s[i..e]` before pieces standing for `s[e..]`. */
  lemma RenderPrefix(p: Piece, rest: seq<Piece>, s: string, i: nat, e: nat)
    requires i <= e <= |s| && PieceText(p) == s[i..e] && Render(rest) == s[e..]
    ensures Render([p] + rest) == s[i..]
  {
    RenderCons(p, rest);
    SliceSplit(s, i, e, |s|);
  }

  lemma RenderTokenStep(r: Recogniser, s: string, i: nat, c: Cite, e: nat)
    requires Advances(r) && i < |s| && r(s, i) == Some((c, e))
    requires e <= |s| && Render(Scan(r, s, e)) == s[e..]
    ensures Render(Scan(r, s, i)) == s[i..]
  {
    ScanToken(r, s, i, c, e);
    RenderPrefix(Token(c, s[i..e]), Scan(r, s, e), s, i, e);
  }

  lemma RenderPlainStep(r: Recogniser, s: string, i: nat)
    requires Advances(r) && i < |s| && r(s, i).None?
    requires Render(Scan(r, s, i + 1)) == s[i + 1..]
    ensures Render(Scan(r, s, i)) == s[i..]
  {
    ScanPlain(r, s, i);
    assert s[i..i + 1] == [s[i]];
    RenderPrefix(Plain(s[i]), Scan(r, s, i + 1), s, i, i + 1);
  }

  /** The scan covers the text exactly: putting the pieces back together gives
      the text from `i` on. */
  lemma {:induction false} ScanRenders(r: Recogniser, s: string, i: nat)
    requires Advances(r) && i <= |s|
    ensures Render(Scan(r, s, i)) == s[i..]
    decreases |s| - i
  {
    if i < |s| {
      match r(s, i)
      case Some((c, e)) =>
        ScanRenders(r, s, e);
        RenderTokenStep(r, s, i, c, e);
      case None =>
        ScanRenders(r, s, i + 1);
        RenderPlainStep(r, s, i);
    }
  }

  lemma SpelledStep(r: Recogniser, s: string, i: nat, e: nat)
    requires Sound(r) && i < e <= |s|
    requires r(s, i).Some? ==> r(s, i).value.1 == e
    requires r(s, i).None? ==> e == i + 1
    requires TokensSpelled(Scan(r, s, e))
    ensures TokensSpelled(Scan(r, s, i))
  {
    var ps := Scan(r, s, i);
    assert ps[1..] == Scan(r, s, e);
    forall k | 0 <= k < |ps| && ps[k].Token?
      ensures WellFormed(ps[k].cite) && ps[k].text == Spell(ps[k].cite)
    {
      if k > 0 {
        assert ps[k] == Scan(r, s, e)[k - 1];
      }
    }
  }

  /** Every token a sound scan reports is one of the three recognised shapes,
      and the characters it matched are its spelling. */
  lemma {:induction false} ScanSpelled(r: Recogniser, s: string, i: nat)
    requires Sound(r) && i <= |s|
    ensures TokensSpelled(Scan(r, s, i))
    decreases |s| - i
  {
    if i < |s| {
      var e := if r(s, i).Some? then r(s, i).value.1 else i + 1;
      ScanSpelled(r, s, e);
      SpelledStep(r, s, i, e);
    }
  }

  lemma NonEmptyStep(r: Recogniser, s: string, i: nat, e: nat)
    requires Advances(r) && i < e <= |s|
    requires r(s, i).Some? ==> r(s, i).value.1 == e
    requires r(s, i).None? ==> e == i + 1
    requires TokensNonEmpty(Scan(r, s, e))
    ensures TokensNonEmpty(Scan(r, s, i))
  {
    var ps := Scan(r, s, i);
    assert ps[1..] == Scan(r, s, e);
    forall k | 0 <= k < |ps| && ps[k].Token? ensures ps[k].text != [] {
      if k > 0 {
        assert ps[k] == Scan(r, s, e)[k - 1];
      } else {
        assert ps[0].text == s[i..e];
        assert s[i..e][0] == s[i];
      }
    }
  }

  /** A scan with an advancing recogniser reports no empty token. */
  lemma {:induction false} ScanNonEmpty(r: Recogniser, s: string, i: nat)
    requires Advances(r) && i <= |s|
    ensures TokensNonEmpty(Scan(r, s, i))
    decreases |s| - i
  {
    if i < |s| {
      var e := if r(s, i).Some? then r(s, i).value.1 else i + 1;
      ScanNonEmpty(r, s, e);
      NonEmptyStep(r, s, i, e);
    }
  }

  /** Left to right and greedy: a token spelled at the current position is
      always taken whole, never skipped a character at a time, and the scan
      goes on where it ends. */
  lemma ScanTakesToken(s: string, i: nat, c: Cite, e: nat)
    requires WellFormed(c) && e == i + |Spell(c)| && e <= |s| && s[i..e] == Spell(c)
    ensures Advances(MatchAt)
    ensures Scan(MatchAt, s, i) == [Token(c, Spell(c))] + Scan(MatchAt, s, e)
  {
    MatchAtIsSound();
    MatchAtComplete(s, i, c);
    ScanToken(MatchAt, s, i, c, e);
  }

  lemma HasTokenCons(ps: seq<Piece>)
    requires ps != []
    ensures HasToken(ps) <==> ps[0].Token? || HasToken(ps[1..])
  {
    if HasToken(ps[1..]) {
      var k :| 0 <= k < |ps[1..]| && ps[1..][k].Token?;
      assert ps[k + 1].Token?;
    }
    if HasToken(ps) && !ps[0].Token? {
      var k :| 0 <= k < |ps| && ps[k].Token?;
      assert ps[1..][k - 1].Token?;
    }
  }

  /** Deleting the tokens changes the text exactly when there is one. */
  lemma {:induction false} CleanKeepsPlain(ps: seq<Piece>)
    requires TokensNonEmpty(ps)
    ensures |Clean(ps)| <= |Render(ps)|
    ensures Clean(ps) == Render(ps) <==> !HasToken(ps)
  {
    if ps != [] {
      assert TokensNonEmpty(ps[1..]) by {
        forall k | 0 <= k < |ps[1..]| && ps[1..][k].Token? ensures ps[1..][k].text != [] {
          assert ps[1..][k] == ps[k + 1];
        }
      }
      CleanKeepsPlain(ps[1..]);
      HasTokenCons(ps);
      if ps[0].Token? {
        assert |PieceText(ps[0])| > 0;
      } else {
        var x := [ps[0].ch];
        assert Clean(ps) == x + Clean(ps[1..]) && Render(ps) == x + Render(ps[1..]);
        if Clean(ps) == Render(ps) {
          assert Clean(ps[1..]) == Clean(ps)[1..] == Render(ps)[1..] == Render(ps[1..]);
        }
      }
    }
  }

  // ---------------------------------------------------------------------------
  // Page numbers

  /** `parseInt` of a run of digits; the runs in a well-formed token are never empty. */
  function PageValue(d: string): nat {
    if AllDigits(d) then DecimalValue(d) else 0
  }

  predicate Between(lo: nat, p: nat, hi: nat) {
    lo <= p <= hi
  }

  /** The pages a token stands for: every number after `p.` in it, and for a
      range every page from its start to its end, which adds nothing when the
      end is below the start. */
  function TokenPages(c: Cite): set<nat> {
    {PageValue(c.first)} +
    match c.more
    case List(items) => set k | 0 <= k < |items| :: PageValue(items[k].digits)
    case Range(_, _, last) => set p: nat | p <= PageValue(last) && Between(PageValue(c.first), p, PageValue(last))
  }

  function PagesOf(ps: seq<Piece>): set<nat> {
    if ps == [] then {}
    else (match ps[0] case Plain(_) => {} case Token(c, _) => TokenPages(c)) + PagesOf(ps[1..])
  }

  /** Every page the text cites, as a set. */
  function CitedPages(s: string): set<nat> {
    PagesOf(Pieces(s))
  }

  /** There are cited pages exactly when the text holds a token. */
  lemma {:induction false} PagesIffToken(ps: seq<Piece>)
    ensures PagesOf(ps) == {} <==> !HasToken(ps)
  {
    if ps != [] {
      PagesIffToken(ps[1..]);
      HasTokenCons(ps);
      if ps[0].Token? {
        assert PageValue(ps[0].cite.first) in TokenPages(ps[0].cite);
      }
    }
  }

  /** The numbers `lo`, ..., `hi - 1`, ascending. */
  function Interval(lo: nat, hi: nat): seq<nat>
    decreases hi
  {
    if hi <= lo then [] else Interval(lo, hi - 1) + [hi - 1]
  }

  function ItemValues(items: seq<Item>): seq<nat> {
    if items == [] then [] else ItemValues(items[..|items| - 1]) + [PageValue(items[|items| - 1].digits)]
  }

  /** What `match(/p\.(\d+)/g)` finds in a token, in order: the first number
      and the number of each further list item (a range's end has no `p.`). */
  function ListedNumbers(c: Cite): seq<nat> {
    [PageValue(c.first)] + if c.more.List? then ItemValues(c.more.items) else []
  }

  /** The pages the range loop adds, from the start page up to the end page. */
  function RangeNumbers(c: Cite): seq<nat> {
    if c.more.Range? then Interval(PageValue(c.first), PageValue(c.more.last) + 1) else []
  }

  /** `set.add(x)` on a JavaScript `Set`, which keeps its elements in insertion order. */
  function Add(xs: seq<nat>, x: nat): seq<nat> {
    if x in xs then xs else xs + [x]
  }

  function AddAll(xs: seq<nat>, ys: seq<nat>): seq<nat>
    decreases |ys|
  {
    if ys == [] then xs else Add(AddAll(xs, ys[..|ys| - 1]), ys[|ys| - 1])
  }

  /** The `Set` once the `exec` loop has gone past the pieces `ps`. */
  function Collect(acc: seq<nat>, ps: seq<Piece>): seq<nat>
    decreases |ps|
  {
    if ps == [] then acc
    else if ps[0].Token? then
      Collect(AddAll(AddAll(acc, ListedNumbers(ps[0].cite)), RangeNumbers(ps[0].cite)), ps[1..])
    else Collect(acc, ps[1..])
  }

  predicate NoDuplicates(xs: seq<nat>) {
    forall j, k :: 0 <= j < k < |xs| ==> xs[j] != xs[k]
  }

  /** Adding to a `Set` keeps one copy of each element and loses none. */
  lemma {:induction false} AddAllElems(xs: seq<nat>, ys: seq<nat>)
    requires NoDuplicates(xs)
    ensures NoDuplicates(AddAll(xs, ys))
    ensures forall x :: x in AddAll(xs, ys) <==> x in xs || x in ys
    decreases |ys|
  {
    if ys != [] {
      var init := ys[..|ys| - 1];
      AddAllElems(xs, init);
      assert ys == init + [ys[|ys| - 1]];
    }
  }

  lemma AddAllSnoc(xs: seq<nat>, ys: seq<nat>, y: nat)
    ensures AddAll(xs, ys + [y]) == Add(AddAll(xs, ys), y)
  {
    assert (ys + [y])[..|ys|] == ys;
  }

  lemma {:induction false} IntervalElems(lo: nat, hi: nat)
    ensures forall x :: x in Interval(lo, hi) <==> lo <= x < hi
    decreases hi
  {
    if hi > lo {
      IntervalElems(lo, hi - 1);
    }
  }

  lemma {:induction false} ItemValuesElems(items: seq<Item>)
    ensures forall x :: x in ItemValues(items) <==> exists k :: 0 <= k < |items| && x == PageValue(items[k].digits)
    decreases |items|
  {
    if items != [] {
      var init := items[..|items| - 1];
      ItemValuesElems(init);
      forall x | x in ItemValues(items) ensures exists k :: 0 <= k < |items| && x == PageValue(items[k].digits) {
        if x in ItemValues(init) {
          var k :| 0 <= k < |init| && x == PageValue(init[k].digits);
          assert items[k] == init[k];
        } else {
          assert x == PageValue(items[|items| - 1].digits);
        }
      }
      forall x | exists k :: 0 <= k < |items| && x == PageValue(items[k].digits) ensures x in ItemValues(items) {
        var k :| 0 <= k < |items| && x == PageValue(items[k].digits);
        if k < |items| - 1 {
          assert items[k] == init[k];
        }
      }
    }
  }

  /** The numbers the two inner loops add for a token are exactly its pages. */
  lemma TokenNumbersElems(c: Cite)
    ensures forall x :: x in ListedNumbers(c) + RangeNumbers(c) <==> x in TokenPages(c)
  {
    match c.more
    case List(items) =>
      ItemValuesElems(items);
      forall x | x in TokenPages(c) && x != PageValue(c.first) ensures x in ItemValues(items) {
        var k :| 0 <= k < |items| && x == PageValue(items[k].digits);
      }
    case Range(_, _, last) =>
      IntervalElems(PageValue(c.first), PageValue(last) + 1);
  }

  /** The collected numbers are the cited pages, each once. */
  lemma {:induction false} CollectElems(acc: seq<nat>, ps: seq<Piece>)
    requires NoDuplicates(acc)
    ensures NoDuplicates(Collect(acc, ps))
    ensures forall x :: x in Collect(acc, ps) <==> x in acc || x in PagesOf(ps)
    decreases |ps|
  {
    if ps != [] {
      if ps[0].Token? {
        var c := ps[0].cite;
        var mid := AddAll(acc, ListedNumbers(c));
        AddAllElems(acc, ListedNumbers(c));
        AddAllElems(mid, RangeNumbers(c));
        TokenNumbersElems(c);
        CollectElems(AddAll(mid, RangeNumbers(c)), ps[1..]);
      } else {
        CollectElems(acc, ps[1..]);
      }
    }
  }

  /** One turn of the `exec` loop that finds a token. */
  lemma CollectToken(r: Recogniser, acc: seq<nat>, s: string, i: nat, c: Cite, e: nat)
    requires Advances(r) && i < |s| && r(s, i) == Some((c, e))
    ensures i < e <= |s|
    ensures Collect(acc, Scan(r, s, i)) == Collect(AddAll(AddAll(acc, ListedNumbers(c)), RangeNumbers(c)), Scan(r, s, e))
  {
    ScanToken(r, s, i, c, e);
    assert ([Token(c, s[i..e])] + Scan(r, s, e))[1..] == Scan(r, s, e);
  }

  /** A position where no token starts adds nothing. */
  lemma CollectPlain(r: Recogniser, acc: seq<nat>, s: string, i: nat)
    requires Advances(r) && i < |s| && r(s, i).None?
    ensures Collect(acc, Scan(r, s, i)) == Collect(acc, Scan(r, s, i + 1))
  {
    ScanPlain(r, s, i);
    assert ([Plain(s[i])] + Scan(r, s, i + 1))[1..] == Scan(r, s, i + 1);
  }

  /** `for (const pageMatch of pageMatches) pageNumbers.add(...)`. */
  method AddEach(pageNumbers: seq<nat>, numbers: seq<nat>) returns (r: seq<nat>)
    ensures r == AddAll(pageNumbers, numbers)
  {
    r := pageNumbers;
    for j := 0 to |numbers|
      invariant r == AddAll(pageNumbers, numbers[..j])
    {
      AddAllSnoc(pageNumbers, numbers[..j], numbers[j]);
      assert numbers[..j + 1] == numbers[..j] + [numbers[j]];
      r := Add(r, numbers[j]);
    }
    assert numbers[..|numbers|] == numbers;
  }

  /** `for (let page = startPage; page <= endPage; page++) pageNumbers.add(page)`. */
  method AddRange(pageNumbers: seq<nat>, startPage: nat, endPage: nat) returns (r: seq<nat>)
    ensures r == AddAll(pageNumbers, Interval(startPage, endPage + 1))
  {
    r := pageNumbers;
    var page := startPage;
    while page <= endPage
      invariant startPage <= page <= if startPage <= endPage then endPage + 1 else startPage
      invariant r == AddAll(pageNumbers, Interval(startPage, page))
      decreases endPage + 1 - page
    {
      assert Interval(startPage, page + 1) == Interval(startPage, page) + [page];
      AddAllSnoc(pageNumbers, Interval(startPage, page), page);
      r := Add(r, page);
      page := page + 1;
    }
  }

  /** The pages one token adds: its listed pages, then every page of its range. */
  method AddCite(pageNumbers: seq<nat>, c: Cite) returns (r: seq<nat>)
    ensures r == AddAll(AddAll(pageNumbers, ListedNumbers(c)), RangeNumbers(c))
  {
    r := AddEach(pageNumbers, ListedNumbers(c));
    if c.more.Range? {
      r := AddRange(r, PageValue(c.first), PageValue(c.more.last));
    } else {
      assert AddAll(r, RangeNumbers(c)) == r;
    }
  }

  /** The page numbers the `exec` loop gathers, in the order the `Set` keeps them. */
  method ExtractPageNumbers(children: string) returns (pageNumbers: seq<nat>)
    ensures pageNumbers == Collect([], Pieces(children))
  {
    MatchAtAdvances();
    pageNumbers := [];
    var i := 0;
    while i < |children|
      invariant i <= |children|
      invariant Collect(pageNumbers, Scan(MatchAt, children, i)) == Collect([], Pieces(children))
      decreases |children| - i
    {
      var m := MatchAt(children, i);
      if m.Some? {
        var c, e := m.value.0, m.value.1;
        CollectToken(MatchAt, pageNumbers, children, i, c, e);
        pageNumbers := AddCite(pageNumbers, c);
        i := e;
      } else {
        CollectPlain(MatchAt, pageNumbers, children, i);
        i := i + 1;
      }
    }
  }

  // ---------------------------------------------------------------------------
  // The citation list

  /** `Array.prototype.sort` with the comparator `(a, b) => a - b`. */
  function Insert(x: nat, xs: seq<nat>): (r: seq<nat>)
    ensures multiset(r) == multiset(xs) + multiset{x}
  {
    if xs == [] || x <= xs[0] then [x] + xs
    else
      assert xs == [xs[0]] + xs[1..];
      [xs[0]] + Insert(x, xs[1..])
  }

  function Sort(xs: seq<nat>): (r: seq<nat>)
    ensures multiset(r) == multiset(xs)
  {
    if xs == [] then []
    else
      assert xs == [xs[0]] + xs[1..];
      Insert(xs[0], Sort(xs[1..]))
  }

  predicate Ascending(xs: seq<nat>) {
    forall j, k :: 0 <= j < k < |xs| ==> xs[j] < xs[k]
  }

  lemma {:induction false} InsertElems(x: nat, xs: seq<nat>)
    ensures forall y :: y in Insert(x, xs) <==> y == x || y in xs
  {
    if !(xs == [] || x <= xs[0]) {
      InsertElems(x, xs[1..]);
      assert xs == [xs[0]] + xs[1..];
    }
  }

  lemma {:induction false} InsertAscending(x: nat, xs: seq<nat>)
    requires Ascending(xs) && x !in xs
    ensures Ascending(Insert(x, xs))
  {
    var r := Insert(x, xs);
    if xs == [] || x <= xs[0] {
      assert r == [x] + xs;
      forall j, k | 0 <= j < k < |r| ensures r[j] < r[k] {
        if j == 0 {
          assert r[k] == xs[k - 1] && xs[0] <= xs[k - 1];
        } else {
          assert r[j] == xs[j - 1] && r[k] == xs[k - 1];
        }
      }
    } else {
      var t := Insert(x, xs[1..]);
      assert r == [xs[0]] + t;
      InsertAscending(x, xs[1..]);
      InsertElems(x, xs[1..]);
      forall k | 0 <= k < |t| ensures xs[0] < t[k] {
        assert t[k] in t;
        if t[k] != x {
          var m :| 0 <= m < |xs[1..]| && xs[1..][m] == t[k];
          assert xs[m + 1] == t[k];
        }
      }
      forall j, k | 0 <= j < k < |r| ensures r[j] < r[k] {
        if j == 0 {
          assert r[k] == t[k - 1];
        } else {
          assert r[j] == t[j - 1] && r[k] == t[k - 1];
        }
      }
    }
  }

  /** Sorting a `Set`'s elements gives them in strictly ascending order. */
  lemma {:induction false} SortAscending(xs: seq<nat>)
    requires NoDuplicates(xs)
    ensures Ascending(Sort(xs))
  {
    if xs != [] {
      SortAscending(xs[1..]);
      assert xs[0] !in multiset(xs[1..]);
      InsertAscending(xs[0], Sort(xs[1..]));
    }
  }

  lemma SortElems(xs: seq<nat>)
    ensures forall x :: x in Sort(xs) <==> x in xs
  {
    assert forall x :: x in Sort(xs) <==> x in multiset(Sort(xs));
    assert forall x :: x in xs <==> x in multiset(xs);
  }

  datatype Citation = Citation(pageNumber: nat, originalText: string, index: nat)

  /** `.map(pageNumber => ({ pageNumber, originalText: `[p.${pageNumber}]`, index: 0 }))`;
      the text is the marker the chunker writes before each page. */
  function ToCitations(pages: seq<nat>): seq<Citation> {
    seq(|pages|, k requires 0 <= k < |pages| => Citation(pages[k], Chunking.Marker(pages[k]), 0))
  }

  /** The citation list holds each page of `pages` once, in ascending order,
      each with its marker text and index 0. */
  predicate ListsPages(citations: seq<Citation>, pages: set<nat>) {
    && (forall k :: 0 <= k < |citations| ==>
          citations[k].originalText == Chunking.Marker(citations[k].pageNumber) && citations[k].index == 0)
    && (forall j, k :: 0 <= j < k < |citations| ==> citations[j].pageNumber < citations[k].pageNumber)
    && (forall k :: 0 <= k < |citations| ==> citations[k].pageNumber in pages)
    && (forall p :: p in pages ==> exists k :: 0 <= k < |citations| && citations[k].pageNumber == p)
  }

  lemma CitationsOfSorted(sorted: seq<nat>, pages: set<nat>)
    requires Ascending(sorted) && forall x :: x in sorted <==> x in pages
    ensures ListsPages(ToCitations(sorted), pages)
  {
    var cs := ToCitations(sorted);
    forall p | p in pages ensures exists k :: 0 <= k < |cs| && cs[k].pageNumber == p {
      var k :| 0 <= k < |sorted| && sorted[k] == p;
      assert cs[k].pageNumber == p;
    }
  }

  /** The `useMemo` body: the cited pages, each once and in ascending order as
      citations, and the text with every token deleted. */
  method ExtractCitations(children: string) returns (cleanText: string, citations: seq<Citation>)
    ensures cleanText == CleanText(children)
    ensures ListsPages(citations, CitedPages(children))
  {
    var pageNumbers := ExtractPageNumbers(children);
    CollectElems([], Pieces(children));
    var sorted := Sort(pageNumbers);
    SortAscending(pageNumbers);
    SortElems(pageNumbers);
    CitationsOfSorted(sorted, CitedPages(children));
    citations := ToCitations(sorted);
    cleanText := CleanText(children);
  }

  /** What the view renders: the original text when there is no citation,
      the cleaned text otherwise. */
  function Shown(children: string, cleanText: string, citations: seq<Citation>): string {
    if |citations| == 0 then children else cleanText
  }

  /** Without citations the text holds no token, so rendering the original
      text is rendering the cleaned one; with a token there is a citation. */
  lemma {:induction false} NoCitationNoToken(children: string)
    ensures CitedPages(children) == {} <==> CleanText(children) == children
  {
    var ps := Pieces(children);
    MatchAtIsSound();
    ScanRenders(MatchAt, children, 0);
    ScanNonEmpty(MatchAt, children, 0);
    CleanKeepsPlain(ps);
    PagesIffToken(ps);
  }

  /** Whichever branch the view takes, it shows the text without its tokens. */
  lemma ShownIsClean(children: string, citations: seq<Citation>)
    requires ListsPages(citations, CitedPages(children))
    ensures Shown(children, CleanText(children), citations) == CleanText(children)
  {
    NoCitationNoToken(children);
    if CitedPages(children) != {} {
      var p :| p in CitedPages(children);
      assert |citations| > 0;
    }
  }

  lemma FirstTwoAscending(citations: seq<Citation>)
    requires |citations| > 1
    requires forall j, k :: 0 <= j < k < |citations| ==> citations[j].pageNumber < citations[k].pageNumber
    ensures citations[0].pageNumber < citations[1].pageNumber
  {
  }

  /** A citation list for a single page is that page's one citation. */
  lemma ListsOnePage(citations: seq<Citation>, n: nat)
    requires ListsPages(citations, {n})
    ensures citations == [Citation(n, Chunking.Marker(n), 0)]
  {
    var k :| 0 <= k < |citations| && citations[k].pageNumber == n;
    if |citations| > 1 {
      FirstTwoAscending(citations);
      assert false;
    }
  }

  // ---------------------------------------------------------------------------
  // Markers and examples

  /** The marker the chunker writes before a page is a single-page token:
      citing it cites exactly that page, and cleaning it leaves nothing. */
  lemma MarkerCitesPage(n: nat)
    ensures Pieces(Chunking.Marker(n)) == [Token(Cite(NatToString(n), List([])), Chunking.Marker(n))]
    ensures CitedPages(Chunking.Marker(n)) == {n}
    ensures CleanText(Chunking.Marker(n)) == []
  {
    var s := Chunking.Marker(n);
    var c := Cite(NatToString(n), List([]));
    assert Spell(c) == s;
    ScanTakesToken(s, 0, c, |s|);
    var ps := Pieces(s);
    assert ps == [Token(c, s)] && ps[1..] == [];
    NatToStringRoundTrip(n);
    assert TokenPages(c) == {n};
    assert PagesOf(ps) == TokenPages(c) + PagesOf([]);
    assert Clean(ps) == [] + Clean([]);
  }

  /** A text in which no `[` occurs from `i` on holds no token there. */
  lemma {:induction false} NoBracketNoToken(s: string, i: nat)
    requires Advances(MatchAt) && i <= |s|
    requires forall j :: i <= j < |s| ==> s[j] != '['
    ensures !HasToken(Scan(MatchAt, s, i))
    decreases |s| - i
  {
    if i < |s| {
      NoBracketNoToken(s, i + 1);
      ScanPlain(MatchAt, s, i);
      HasTokenCons(Scan(MatchAt, s, i));
      assert Scan(MatchAt, s, i)[1..] == Scan(MatchAt, s, i + 1);
    }
  }

  /** A text whose only `[` is its first character and no token starts there
      is shown as it is and cites nothing. */
  lemma NoTokenAtStart(s: string)
    requires |s| > 0 && MatchAt(s, 0).None?
    requires forall j :: 1 <= j < |s| ==> s[j] != '['
    ensures CitedPages(s) == {} && CleanText(s) == s
  {
    MatchAtIsSound();
    NoBracketNoToken(s, 1);
    ScanPlain(MatchAt, s, 0);
    HasTokenCons(Pieces(s));
    assert Pieces(s)[1..] == Scan(MatchAt, s, 1);
    PagesIffToken(Pieces(s));
    NoCitationNoToken(s);
  }

  /** `[p.3, 5]`: a listed number needs its own `p.`. */
  lemma ListNeedsPrefix()
    ensures CitedPages("[p.3, 5]") == {} && CleanText("[p.3, 5]") == "[p.3, 5]"
  {
    var s := "[p.3, 5]";
    assert DigitsEnd(s, 3) == 4;
    assert WsEnd(s, 4) == 4;
    assert RangeAt(s, 4).None?;
    assert WsEnd(s, 5) == 6;
    assert ItemAt(s, 4).None?;
    assert ItemsAt(s, 4).None?;
    NoTokenAtStart(s);
  }

  /** `[p.3, p.5-7]`: a token is a list or a range, never both. */
  lemma ListOrRange()
    ensures CitedPages("[p.3, p.5-7]") == {} && CleanText("[p.3, p.5-7]") == "[p.3, p.5-7]"
  {
    var s := "[p.3, p.5-7]";
    assert DigitsEnd(s, 3) == 4;
    assert WsEnd(s, 4) == 4;
    assert RangeAt(s, 4).None?;
    assert WsEnd(s, 6) == 6 && WsEnd(s, 5) == 6;
    assert DigitsEnd(s, 9) == 9 && DigitsEnd(s, 8) == 9;
    assert ItemAt(s, 4).Some? && ItemAt(s, 4).value.1 == 9;
    assert WsEnd(s, 9) == 9;
    assert ItemAt(s, 9).None?;
    assert ItemsAt(s, 9).None?;
    assert ItemsAt(s, 4).None?;
    NoTokenAtStart(s);
  }

  /** `[p.4][p.4]` is two tokens and nothing between them. */
  lemma RepeatedPagePieces(s: string)
    requires s == "[p.4][p.4]"
    ensures Pieces(s) == [Token(Cite("4", List([])), "[p.4]"), Token(Cite("4", List([])), "[p.4]")]
  {
    var c := Cite("4", List([]));
    assert Spell(c) == "[p.4]";
    assert s[0..5] == "[p.4]" && s[5..10] == "[p.4]";
    ScanTakesToken(s, 0, c, 5);
    ScanTakesToken(s, 5, c, 10);
  }

  /** `[p.4][p.4]`: the same page cited twice is collected once. */
  lemma RepeatedPageCollected(s: string)
    requires s == "[p.4][p.4]"
    ensures CitedPages(s) == {4}
    ensures Collect([], Pieces(s)) == [4]
    ensures CleanText(s) == []
  {
    var c := Cite("4", List([]));
    var t := Token(c, "[p.4]");
    var ps := [t, t];
    assert ps[1..] == [t] && [t][1..] == [];
    assert TokenPages(c) == {4} && ListedNumbers(c) == [4] && RangeNumbers(c) == [] by {
      assert PageValue("4") == 4;
    }
    assert PagesOf(ps) == {4} by {
      assert PagesOf(ps) == TokenPages(c) + (TokenPages(c) + PagesOf([]));
    }
    assert Collect([], ps) == [4] by {
      assert Collect([], ps) == Collect(AddAll(AddAll([], [4]), []), [t]);
      assert Collect([4], [t]) == Collect(AddAll(AddAll([4], [4]), []), []);
      assert AddAll([], [4]) == [4] && AddAll([4], [4]) == [4];
    }
    assert Clean(ps) == [] by {
      assert Clean(ps) == [] + ([] + Clean([]));
    }
    RepeatedPagePieces(s);
  }

  /** `[p.4][p.4]` is listed as one citation. */
  lemma RepeatedPageOnce(s: string, citations: seq<Citation>)
    requires s == "[p.4][p.4]"
    requires ListsPages(citations, CitedPages(s))
    ensures citations == [Citation(4, Chunking.Marker(4), 0)]
  {
    RepeatedPageCollected(s);
    ListsOnePage(citations, 4);
  }

  /** A text that is one well-formed token is that token and nothing else. */
  lemma WholeToken(s: string, c: Cite)
    requires WellFormed(c) && s == Spell(c)
    ensures Pieces(s) == [Token(c, s)]
  {
    ScanTakesToken(s, 0, c, |s|);
  }

  /** `[p.a-b]`: the range loop adds every page from `a` up to `b`, in
      ascending order; a range that ends below its start cites only its start. */
  lemma RangeCitesEveryPage(a: nat, b: nat)
    ensures var s := "[p." + NatToString(a) + "-" + NatToString(b) + "]";
            && (a <= b ==> (forall p :: p in CitedPages(s) <==> a <= p <= b)
                           && Collect([], Pieces(s)) == Interval(a, b + 1))
            && (b < a ==> CitedPages(s) == {a} && Collect([], Pieces(s)) == [a])
  {
    var s := "[p." + NatToString(a) + "-" + NatToString(b) + "]";
    var c := Cite(NatToString(a), Range("", "", NatToString(b)));
    RangeTokenWhole(a, b);
    NatToStringRoundTrip(a);
    NatToStringRoundTrip(b);
    RangeTokenPages(c, s, a, b);
  }

  /** `[p.a-b]` is one range token, and nothing else. */
  lemma RangeTokenWhole(a: nat, b: nat)
    ensures var s := "[p." + NatToString(a) + "-" + NatToString(b) + "]";
            Pieces(s) == [Token(Cite(NatToString(a), Range("", "", NatToString(b))), s)]
  {
    var first, last := NatToString(a), NatToString(b);
    var c := Cite(first, Range("", "", last));
    SpellRange(first, last);
    WholeToken(Spell(c), c);
  }

  /** The spelling of a range token with no whitespace around its dash. */
  lemma SpellRange(first: string, last: string)
    ensures Spell(Cite(first, Range("", "", last))) == "[p." + first + "-" + last + "]"
  {
    assert Closing(Range("", "", last)) == "-" + (last + "]");
  }

  /** The pages of a lone range token from `a` to `b`. */
  lemma RangeTokenPages(c: Cite, s: string, a: nat, b: nat)
    requires c.more.Range? && PageValue(c.first) == a && PageValue(c.more.last) == b
    ensures a <= b ==> (forall p :: p in PagesOf([Token(c, s)]) <==> a <= p <= b)
                       && Collect([], [Token(c, s)]) == Interval(a, b + 1)
    ensures b < a ==> PagesOf([Token(c, s)]) == {a} && Collect([], [Token(c, s)]) == [a]
  {
    OnePiece(c, s);
    RangePageSet(c, a, b);
    assert ListedNumbers(c) == [a];
    assert RangeNumbers(c) == Interval(a, b + 1);
    assert AddAll([], [a]) == [a] by {
      assert [a][..0] == [];
    }
    if a <= b {
      AddAllInterval(a, b + 1);
    } else {
      assert Interval(a, b + 1) == [];
    }
  }

  /** A text that is a single token cites that token's pages, and the loop
      collects its listed numbers and then its range. */
  lemma OnePiece(c: Cite, s: string)
    ensures PagesOf([Token(c, s)]) == TokenPages(c)
    ensures Collect([], [Token(c, s)]) == AddAll(AddAll([], ListedNumbers(c)), RangeNumbers(c))
  {
    var ps := [Token(c, s)];
    assert ps[1..] == [];
  }

  /** A range token's pages run from its start to its end, and are its start alone
      when the end is below the start. */
  lemma RangePageSet(c: Cite, a: nat, b: nat)
    requires c.more.Range? && PageValue(c.first) == a && PageValue(c.more.last) == b
    ensures forall p :: p in TokenPages(c) <==> p == a || a <= p <= b
  {
    forall p ensures p in TokenPages(c) <==> p == a || a <= p <= b {
      assert p in TokenPages(c) <==> p == a || (p >= 0 && p <= b && Between(a, p, b));
    }
  }

  /** Adding `lo`, ..., `hi - 1` to a `Set` that holds `lo` gives them all, once each. */
  lemma {:induction false} AddAllInterval(lo: nat, hi: nat)
    requires lo < hi
    ensures AddAll([lo], Interval(lo, hi)) == Interval(lo, hi)
    decreases hi
  {
    var xs := Interval(lo, hi);
    assert xs[..|xs| - 1] == Interval(lo, hi - 1);
    if hi == lo + 1 {
      assert Interval(lo, hi - 1) == [];
    } else {
      AddAllInterval(lo, hi - 1);
      IntervalElems(lo, hi - 1);
    }
  }
}
