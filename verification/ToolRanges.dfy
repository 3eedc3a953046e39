/**
 * Tool calls written as JSON in a reply: finding their ranges and cutting them out. Whether a
 * slice parses as a tool call is a given predicate.
 */
module ToolRanges {
  import opened ToolText

  /** The characters from `start` up to but not including `end`. */
  datatype Range = Range(start: nat, end: nat)

  ghost predicate IsToolRange(content: string, isTool: string -> bool, r: Range) {
    && r.start < r.end <= |content| && content[r.start] == '{'
    && Closes(content, r.start, r.end) && isTool(content[r.start..r.end])
  }

  predicate StartsAscend(ranges: seq<Range>) {
    forall a, b | 0 <= a < b < |ranges| :: ranges[a].start < ranges[b].start
  }

  /** The position after the first balanced close, if there is one. */
  method FindClose(content: string, i: nat) returns (found: bool, end: nat)
    requires i < |content|
    ensures found ==> i < end <= |content| && Closes(content, i, end)
    ensures !found ==> forall j | i <= j <= |content| :: !Closes(content, i, j)
  {
    var depth := 0;
    var inString, escaped := false, false;
    for j := i to |content|
      invariant Quote(inString, escaped) == QuoteAt(content, i, j)
      invariant depth == Depth(content, i, j)
      invariant forall k | i < k <= j && IsBare(content, i, k - 1, '}') :: Depth(content, i, k) != 0
    {
      var c := content[j];
      if escaped {
        escaped := false;
        continue;
      }
      if c == '\\' && inString {
        escaped := true;
        continue;
      }
      if c == '"' {
        inString := !inString;
        continue;
      }
      if inString {
        continue;
      }
      if c == '{' {
        depth := depth + 1;
      }
      if c == '}' {
        depth := depth - 1;
        if depth == 0 {
          ClosesIff(content, i, j + 1);
          return true, j + 1;
        }
      }
    }
    forall j | i <= j <= |content| ensures !Closes(content, i, j) {
      ClosesIff(content, i, j);
    }
    return false, 0;
  }

  /** The ranges of all tool calls, and no others, by ascending start. */
  method FindToolJsonRanges(content: string, isTool: string -> bool) returns (ranges: seq<Range>)
    ensures StartsAscend(ranges)
    ensures forall r :: r in ranges <==> IsToolRange(content, isTool, r)
  {
    ranges := [];
    for i := 0 to |content|
      invariant StartsAscend(ranges)
      invariant forall r :: r in ranges <==> r.start < i && IsToolRange(content, isTool, r)
    {
      if content[i] != '{' {
        continue;
      }
      var found, end := FindClose(content, i);
      if found && isTool(content[i..end]) {
        ghost var before := ranges;
        ranges := ranges + [Range(i, end)];
        forall r ensures r in ranges <==> r.start < i + 1 && IsToolRange(content, isTool, r) {
          assert r in ranges <==> r in before || r == Range(i, end);
          if r.start == i && IsToolRange(content, isTool, r) {
            ClosesIff(content, i, r.end);
            ClosesIff(content, i, end);
            ClosesOnce(content, i, r.end, end);
          }
        }
      } else {
        forall r: Range | r.start == i ensures !IsToolRange(content, isTool, r) {
          if found && IsToolRange(content, isTool, r) {
            ClosesIff(content, i, r.end);
            ClosesIff(content, i, end);
            ClosesOnce(content, i, r.end, end);
          }
        }
      }
    }
  }

  // --- cutting the ranges out ------------------------------------------------------------------

  function Take<T>(s: seq<T>, n: nat): seq<T> {
    if n <= |s| then s[..n] else s
  }

  function Drop<T>(s: seq<T>, n: nat): seq<T> {
    if n <= |s| then s[n..] else []
  }

  /** s.slice(0, start) + s.slice(end) */
  function Cut<T>(s: seq<T>, r: Range): seq<T> {
    Take(s, r.start) + Drop(s, r.end)
  }

  /** The ranges cut out, the last one first. */
  function Strip<T>(s: seq<T>, ranges: seq<Range>): seq<T> {
    if ranges == [] then s else Cut(Strip(s, ranges[1..]), ranges[0])
  }

  method StripRanges(content: string, ranges: seq<Range>) returns (result: string)
    ensures result == Strip(content, ranges)
  {
    result := content;
    var i := |ranges|;
    assert ranges[i..] == [];
    while i > 0
      invariant 0 <= i <= |ranges|
      invariant result == Strip(content, ranges[i..])
    {
      i := i - 1;
      assert ranges[i..][1..] == ranges[i + 1..];
      result := Take(result, ranges[i].start) + Drop(result, ranges[i].end);
    }
    assert ranges[0..] == ranges;
  }

  /** The positions of a text of length `n`. */
  function Positions(n: nat): (s: seq<nat>)
    ensures |s| == n && forall i | 0 <= i < n :: s[i] == i
  {
    if n == 0 then [] else Positions(n - 1) + [n - 1]
  }

  predicate Covered(ranges: seq<Range>, p: nat) {
    exists r | r in ranges :: r.start <= p < r.end
  }

  /** Ranges as they are found in a text of length `n`. */
  predicate Within(ranges: seq<Range>, n: nat) {
    StartsAscend(ranges) && forall r | r in ranges :: r.start < r.end <= n
  }

  predicate Ascends(s: seq<nat>) {
    forall i, j | 0 <= i < j < |s| :: s[i] < s[j]
  }

  /** What is left are exactly the positions that no range covers, in order. */
  ghost predicate LeavesUncovered(kept: seq<nat>, ranges: seq<Range>, n: nat) {
    Ascends(kept) && forall p: nat :: p in kept <==> p < n && !Covered(ranges, p)
  }

  /** The positions that cutting leaves. */
  function Kept(ranges: seq<Range>, n: nat): seq<nat> {
    Strip(Positions(n), ranges)
  }

  /** The text is made of the characters of `content` at these positions. */
  predicate ComesFrom(text: string, kept: seq<nat>, content: string) {
    |text| == |kept| && forall i | 0 <= i < |kept| :: kept[i] < |content| && text[i] == content[kept[i]]
  }

  /** Characters and their positions are cut alike. */
  lemma CutKeeps(content: string, text: string, kept: seq<nat>, r: Range)
    requires ComesFrom(text, kept, content)
    ensures ComesFrom(Cut(text, r), Cut(kept, r), content)
  {
  }

  /** The result is made of the characters at the positions left. */
  lemma {:induction false} StripKeeps(content: string, ranges: seq<Range>)
    ensures ComesFrom(Strip(content, ranges), Kept(ranges, |content|), content)
  {
    hide Positions;
    if ranges != [] {
      StripKeeps(content, ranges[1..]);
      CutKeeps(content, Strip(content, ranges[1..]), Kept(ranges[1..], |content|), ranges[0]);
    }
  }

  /** Where the first range starts, or the end of the text. */
  function FirstStart(ranges: seq<Range>, n: nat): nat {
    if ranges == [] then n else ranges[0].start
  }

  lemma {:induction false} AtLeastIndex(s: seq<nat>, i: nat)
    requires Ascends(s) && i < |s|
    ensures s[i] >= i
  {
    if i > 0 {
      AtLeastIndex(s, i - 1);
    }
  }

  /** Cutting keeps the order and leaves no position of the range. */
  lemma CutIs(before: seq<nat>, r: Range)
    requires Ascends(before) && r.start < r.end && r.start <= |before|
    requires forall i | 0 <= i < r.start :: before[i] == i
    ensures var kept := Cut(before, r);
            && Ascends(kept) && r.start <= |kept|
            && (forall i | 0 <= i < r.start :: kept[i] == i)
            && (forall p | p in kept :: p in before && !(r.start <= p < r.end))
  {
    hide Cut;
    var kept := Cut(before, r);
    CutAt(before, r);
    forall i | r.start <= i < |kept| ensures kept[i] == before[i - r.start + r.end] >= r.end {
      AtLeastIndex(before, i - r.start + r.end);
    }
  }

  lemma CutAt(s: seq<nat>, r: Range)
    requires r.start < r.end && r.start <= |s|
    ensures |Cut(s, r)| == r.start + if r.end <= |s| then |s| - r.end else 0
    ensures forall i | 0 <= i < r.start :: Cut(s, r)[i] == s[i]
    ensures forall i | r.start <= i < |Cut(s, r)| :: Cut(s, r)[i] == s[i - r.start + r.end]
  {
  }

  /** The text before the first range stays; whatever is left is covered by no range. */
  lemma {:induction false} StripLeaves(ranges: seq<Range>, n: nat)
    requires Within(ranges, n)
    ensures var kept := Kept(ranges, n);
            && Ascends(kept)
            && FirstStart(ranges, n) <= |kept| && (forall i | 0 <= i < FirstStart(ranges, n) :: kept[i] == i)
            && (forall p | p in kept :: p < n && !Covered(ranges, p))
  {
    if ranges != [] {
      var before := Kept(ranges[1..], n);
      StripLeaves(ranges[1..], n);
      CutIs(before, ranges[0]);
      forall p | p in Kept(ranges, n) ensures p < n && !Covered(ranges, p) {
        CoveredSplit(ranges, p);
      }
    }
  }

  lemma CoveredSplit(ranges: seq<Range>, p: nat)
    requires ranges != []
    ensures Covered(ranges, p) <==> Covered(ranges[1..], p) || ranges[0].start <= p < ranges[0].end
  {
    assert forall q :: q in ranges <==> q == ranges[0] || q in ranges[1..];
  }

  /**
   * Cutting is exact when no range overlaps the next one; otherwise, for the first that does, only
   * when nothing after its end is left uncovered.
   */
  predicate Safe(ranges: seq<Range>, n: nat) {
    ranges == []
    || if |ranges| > 1 && ranges[1].start < ranges[0].end then forall p | ranges[0].end <= p < n :: Covered(ranges, p)
       else Safe(ranges[1..], n)
  }

  /** A range clear of the next one is cut out exactly, and changes nothing for the others. */
  lemma CutClear(ranges: seq<Range>, n: nat)
    requires Within(ranges, n) && ranges != []
    requires |ranges| > 1 ==> ranges[0].end <= ranges[1].start
    ensures LeavesUncovered(Kept(ranges, n), ranges, n) <==> LeavesUncovered(Kept(ranges[1..], n), ranges[1..], n)
  {
    var before, r := Kept(ranges[1..], n), ranges[0];
    StripLeaves(ranges[1..], n);
    StripLeaves(ranges, n);
    forall p: nat
      ensures p in Kept(ranges, n) <==> p in before && !(r.start <= p < r.end)
      ensures r.start <= p < r.end ==> p in before && !Covered(ranges[1..], p)
      ensures Covered(ranges, p) <==> Covered(ranges[1..], p) || r.start <= p < r.end
    {
      InCut(before, r, p);
      CoveredSplit(ranges, p);
      assert r.start <= p < r.end ==> before[p] == p;
    }
  }

  lemma InCut(before: seq<nat>, r: Range, p: nat)
    requires Ascends(before) && r.start < r.end <= |before| && forall i | 0 <= i < r.end :: before[i] == i
    ensures p in Cut(before, r) <==> p in before && !(r.start <= p < r.end)
  {
    CutIs(before, r);
    if p in before && !(r.start <= p < r.end) {
      var i :| 0 <= i < |before| && before[i] == p;
      assert i < r.start || i >= r.end;
      assert Cut(before, r)[if i < r.start then i else i - r.end + r.start] == p;
    }
  }

  /** A range that overlaps the next one also cuts off the first character left after its end. */
  lemma CutTooMuch(ranges: seq<Range>, n: nat, p: nat)
    requires Within(ranges, n) && |ranges| > 1 && ranges[1].start < ranges[0].end
    requires ranges[0].end <= p < n && !Covered(ranges, p)
    ensures !LeavesUncovered(Kept(ranges, n), ranges, n)
  {
    var rest, r := ranges[1..], ranges[0];
    var before := Kept(rest, n);
    StripLeaves(rest, n);
    if p in Kept(ranges, n) {
      InCutTail(before, r, p);
      assert rest[0] in rest && Covered(rest, rest[0].start);
      Shifted(before, rest[0].start, r.end - 1);
      var q := before[r.end - 1];
      assert q in before;
      CoveredSplit(ranges, q);
      NotInCut(before, r);
    }
  }

  lemma InCutTail(before: seq<nat>, r: Range, p: nat)
    requires Ascends(before) && r.start < r.end <= p && r.start <= |before|
    requires forall i | 0 <= i < r.start :: before[i] == i
    requires p in Cut(before, r)
    ensures |before| > r.end
  {
    hide Cut;
    CutAt(before, r);
    var k :| 0 <= k < |Cut(before, r)| && Cut(before, r)[k] == p;
  }

  /** Past a missing position every value is ahead of its index. */
  lemma {:induction false} Shifted(s: seq<nat>, missing: nat, i: nat)
    requires Ascends(s) && missing !in s && missing <= i < |s|
    ensures s[i] > i
  {
    AtLeastIndex(s, missing);
    if i > missing {
      Shifted(s, missing, i - 1);
    }
  }

  lemma NotInCut(before: seq<nat>, r: Range)
    requires Ascends(before) && r.start < r.end < |before|
    ensures before[r.end - 1] !in Cut(before, r)
  {
    var q := before[r.end - 1];
    forall k | 0 <= k < |Cut(before, r)| ensures Cut(before, r)[k] != q {
      if k >= r.start {
        assert Cut(before, r)[k] == before[k - r.start + r.end];
      } else {
        assert Cut(before, r)[k] == before[k];
      }
    }
  }

  /** Cutting last to first deletes exactly the covered characters if and only if the ranges are safe. */
  lemma {:induction false} ExactIffSafe(ranges: seq<Range>, n: nat)
    requires Within(ranges, n)
    ensures LeavesUncovered(Kept(ranges, n), ranges, n) <==> Safe(ranges, n)
  {
    if ranges == [] {
      forall p: nat ensures p in Positions(n) <==> p < n {
        assert p < n ==> Positions(n)[p] == p;
      }
    } else if |ranges| > 1 && ranges[1].start < ranges[0].end {
      if forall p | ranges[0].end <= p < n :: Covered(ranges, p) {
        NothingAfter(ranges, n);
      } else {
        var p :| ranges[0].end <= p < n && !Covered(ranges, p);
        CutTooMuch(ranges, n, p);
      }
    } else {
      ExactIffSafe(ranges[1..], n);
      CutClear(ranges, n);
    }
  }

  lemma NothingAfter(ranges: seq<Range>, n: nat)
    requires Within(ranges, n) && ranges != []
    requires forall p | ranges[0].end <= p < n :: Covered(ranges, p)
    ensures LeavesUncovered(Kept(ranges, n), ranges, n)
  {
    StripLeaves(ranges, n);
    forall p: nat | p < n && !Covered(ranges, p) ensures p in Kept(ranges, n) {
      CoveredSplit(ranges, p);
      assert Kept(ranges, n)[p] == p;
    }
  }

  predicate PairwiseDisjoint(ranges: seq<Range>) {
    forall a, b | 0 <= a < b < |ranges| :: ranges[a].end <= ranges[b].start || ranges[b].end <= ranges[a].start
  }

  /** Disjoint ranges are safe. */
  lemma {:induction false} DisjointIsSafe(ranges: seq<Range>, n: nat)
    requires Within(ranges, n) && PairwiseDisjoint(ranges)
    ensures Safe(ranges, n)
  {
    if ranges != [] {
      DisjointIsSafe(ranges[1..], n);
    }
  }

  // --- from the text to the text without its tool calls ----------------------------------------

  /**
   * Finds the tool calls and cuts them out. The result is made of the characters at the positions kept, and
   * these are exactly the ones that no tool call covers if and only if the ranges are safe.
   */
  method StripToolJson(content: string, isTool: string -> bool) returns (result: string, ghost ranges: seq<Range>)
    ensures StartsAscend(ranges) && forall r :: r in ranges <==> IsToolRange(content, isTool, r)
    ensures var kept := Kept(ranges, |content|);
            && ComesFrom(result, kept, content)
            && (LeavesUncovered(kept, ranges, |content|) <==> Safe(ranges, |content|))
    ensures PairwiseDisjoint(ranges) ==> LeavesUncovered(Kept(ranges, |content|), ranges, |content|)
  {
    var found := FindToolJsonRanges(content, isTool);
    result := StripRanges(content, found);
    ranges := found;
    StripKeeps(content, ranges);
    ExactIffSafe(ranges, |content|);
    if PairwiseDisjoint(ranges) {
      DisjointIsSafe(ranges, |content|);
    }
  }

  // --- a tool call inside another one ----------------------------------------------------------

  predicate IsPlain(s: string) {
    forall k | 0 <= k < |s| :: s[k] != '{' && s[k] != '}' && s[k] != '"' && s[k] != '\\'
  }

  /** Other characters change neither the quoting nor the depth. */
  lemma {:induction false} ScanPlain(content: string, i: nat, j: nat, k: nat)
    requires i <= j <= k <= |content| && IsPlain(content[j..k]) && !QuoteAt(content, i, j).escaped
    ensures QuoteAt(content, i, k) == QuoteAt(content, i, j) && Depth(content, i, k) == Depth(content, i, j)
    decreases k
  {
    if j < k {
      var c := content[j..k][k - 1 - j];
      assert content[k - 1] == c;
      assert content[j..k - 1] == content[j..k][..k - 1 - j];
      ScanPlain(content, i, j, k - 1);
    }
  }

  lemma ScanBrace(content: string, i: nat, j: nat)
    requires i <= j < |content| && (content[j] == '{' || content[j] == '}')
    requires QuoteAt(content, i, j) == Quote(false, false)
    ensures QuoteAt(content, i, j + 1) == Quote(false, false)
    ensures Depth(content, i, j + 1) == Depth(content, i, j) + if content[j] == '{' then 1 else -1
  {
  }

  /** A call as a model may write it, the object inside it, and a reply that goes on after it. */
  const INNER := "{\"name\": \"create_task\"}"
  const CALL := "{\"function\": " + INNER + "}"
  const REPLY := CALL + " and more"

  /** Where the pieces of the reply are. */
  ghost predicate HasPieces(content: string) {
    && |content| == 46
    && content[0] == '{' && content[1] == '"' && IsPlain(content[2..10])
    && content[10] == '"' && IsPlain(content[11..13])
    && content[13] == '{' && content[14] == '"' && IsPlain(content[15..19]) && content[19] == '"'
    && IsPlain(content[20..22]) && content[22] == '"' && IsPlain(content[23..34]) && content[34] == '"'
    && content[35] == '}' && content[36] == '}' && IsPlain(content[37..46])
  }

  lemma InnerPieces(s: string)
    requires s == "{\"name\": \"create_task\"}"
    ensures |s| == 23 && s[0] == '{' && s[1] == '"' && IsPlain(s[2..6]) && s[6] == '"' && IsPlain(s[7..9])
    ensures s[9] == '"' && IsPlain(s[10..21]) && s[21] == '"' && s[22] == '}'
  {
    hide IsPlain;
    PlainWords();
    var head, rest := "{\"name\": \"", "create_task\"}";
    assert s == head + rest;
    assert s[2..6] == head[2..6] == "name" && s[7..9] == head[7..9] == ": ";
    assert s[10..21] == rest[..11] == "create_task";
  }

  lemma PlainWords()
    ensures IsPlain("name") && IsPlain(": ") && IsPlain("create_task") && IsPlain("function") && IsPlain(" and more")
  {
  }

  lemma ReplyPieces()
    ensures HasPieces(REPLY) && REPLY[0..37] == CALL && REPLY[13..36] == INNER
  {
    hide IsPlain;
    InnerPieces(INNER);
    var head := "{\"function\": ";
    HeadPieces(head);
    assert REPLY == head + INNER + "}" + " and more";
    Parts(head, INNER, "}" + " and more");
    assert REPLY == head + INNER + ("}" + " and more");
    assert REPLY[13..36] == INNER && REPLY[..13] == head;
    assert REPLY[2..10] == head[2..10] && REPLY[11..13] == head[11..13];
    assert REPLY[15..19] == INNER[2..6] && REPLY[20..22] == INNER[7..9] && REPLY[23..34] == INNER[10..21];
    assert REPLY[37..46] == " and more";
  }

  lemma Parts(a: string, b: string, c: string)
    ensures (a + b + c)[..|a|] == a && (a + b + c)[|a|..|a| + |b|] == b
  {
  }

  lemma HeadPieces(s: string)
    requires s == "{\"function\": "
    ensures |s| == 13 && s[0] == '{' && s[1] == '"' && IsPlain(s[2..10]) && s[10] == '"' && IsPlain(s[11..13])
    ensures IsPlain(" and more")
  {
    hide IsPlain;
    PlainWords();
    assert s[2..10] == "function" && s[11..13] == ": ";
  }

  /** The scan over `"name": "create_task"`, from just behind the inner brace. */
  lemma ScanInner(content: string, i: nat)
    requires HasPieces(content) && i <= 14 && QuoteAt(content, i, 14) == Quote(false, false)
    ensures QuoteAt(content, i, 35) == Quote(false, false) && Depth(content, i, 35) == Depth(content, i, 14)
  {
    hide QuoteAt, Depth, IsPlain;
    ScanQuote(content, i, 14);
    ScanPlain(content, i, 15, 19);
    ScanQuote(content, i, 19);
    ScanPlain(content, i, 20, 22);
    ScanQuote(content, i, 22);
    ScanPlain(content, i, 23, 34);
    ScanQuote(content, i, 34);
  }

  lemma ScanOuter(content: string)
    requires HasPieces(content)
    ensures QuoteAt(content, 0, 13) == Quote(false, false) && Depth(content, 0, 13) == 1
  {
    hide IsPlain;
    assert QuoteAt(content, 0, 0) == Quote(false, false) && Depth(content, 0, 0) == 0;
    hide QuoteAt, Depth;
    ScanBrace(content, 0, 0);
    ScanQuote(content, 0, 1);
    ScanPlain(content, 0, 2, 10);
    ScanQuote(content, 0, 10);
    ScanPlain(content, 0, 11, 13);
  }

  lemma PlainAt(content: string, j: nat, k: nat)
    requires j <= k <= |content| && IsPlain(content[j..k])
    ensures forall x | j <= x < k :: content[x] != '{' && content[x] != '}'
  {
    assert forall x | j <= x < k :: content[x] == content[j..k][x - j];
  }

  /** The only braces are the two opening ones and the last two characters of the call. */
  lemma Braces(content: string, x: nat)
    requires HasPieces(content) && x < 46
    ensures content[x] == '{' ==> x == 0 || x == 13
    ensures content[x] == '}' ==> x == 35 || x == 36
  {
    hide IsPlain;
    PlainAt(content, 2, 10);
    PlainAt(content, 11, 13);
    PlainAt(content, 15, 19);
    PlainAt(content, 20, 22);
    PlainAt(content, 23, 34);
    PlainAt(content, 37, 46);
  }

  lemma InnerCloses(content: string)
    requires HasPieces(content)
    ensures ClosesAt(content, 13, 36)
  {
    assert QuoteAt(content, 13, 13) == Quote(false, false) && Depth(content, 13, 13) == 0;
    hide QuoteAt, Depth, IsPlain;
    ScanBrace(content, 13, 13);
    ScanInner(content, 13);
    ScanBrace(content, 13, 35);
    forall x | 13 <= x < 35 ensures !IsBare(content, 13, x, '}') {
      Braces(content, x);
    }
  }

  lemma OuterCloses(content: string)
    requires HasPieces(content)
    ensures ClosesAt(content, 0, 37)
  {
    hide QuoteAt, Depth, IsPlain;
    ScanOuter(content);
    ScanBrace(content, 0, 13);
    ScanInner(content, 0);
    ScanBrace(content, 0, 35);
    ScanBrace(content, 0, 36);
    forall k | 0 < k < 37 && IsBare(content, 0, k - 1, '}') ensures Depth(content, 0, k) != 0 {
      Braces(content, k - 1);
    }
  }

  /**
   * The call and the object inside it both pass as the tool call. Their ranges are all that is found in the
   * reply; they are not safe, and cutting them out leaves nothing of the nine characters after them.
   */
  lemma NestedCallLosesText(isTool: string -> bool, ranges: seq<Range>)
    requires forall text :: isTool(text) <==> text == CALL || text == INNER
    requires StartsAscend(ranges) && forall r :: r in ranges <==> IsToolRange(REPLY, isTool, r)
    ensures ranges == [Range(0, 37), Range(13, 36)]
    ensures !Safe(ranges, |REPLY|) && Strip(REPLY, ranges) == ""
    ensures |REPLY| == 46 && forall p | 37 <= p < 46 :: !Covered(ranges, p)
  {
    hide IsPlain, Closes, ClosesAt;
    ReplyPieces();
    OuterCloses(REPLY);
    InnerCloses(REPLY);
    ClosesIff(REPLY, 0, 37);
    ClosesIff(REPLY, 13, 36);
    var outer, inner := Range(0, 37), Range(13, 36);
    assert IsToolRange(REPLY, isTool, outer) && IsToolRange(REPLY, isTool, inner);
    forall r | r in ranges ensures r == outer || r == inner {
      Braces(REPLY, r.start);
      ClosesIff(REPLY, r.start, r.end);
      ClosesOnce(REPLY, r.start, r.end, if r.start == 0 then 37 else 36);
    }
    TwoRanges(ranges, outer, inner);
    TwoCut(REPLY, ranges);
  }

  lemma {:induction false} RangesWithin(ranges: seq<Range>, all: set<Range>)
    requires StartsAscend(ranges) && forall r | r in ranges :: r in all
    ensures |ranges| <= |all|
    decreases |ranges|
  {
    if ranges != [] {
      var front, last := ranges[..|ranges| - 1], ranges[|ranges| - 1];
      forall r | r in front ensures r in all - {last} {
        var k :| 0 <= k < |front| && front[k] == r;
        assert ranges[k].start < last.start;
      }
      RangesWithin(front, all - {last});
    }
  }

  lemma TwoRanges(ranges: seq<Range>, a: Range, b: Range)
    requires StartsAscend(ranges) && a.start < b.start && forall r :: r in ranges <==> r == a || r == b
    ensures ranges == [a, b]
  {
    RangesWithin(ranges, {a, b});
    assert a in ranges && b in ranges;
    var i :| 0 <= i < |ranges| && ranges[i] == a;
    var j :| 0 <= j < |ranges| && ranges[j] == b;
    assert i == 0 && j == 1;
  }

  lemma TwoCut(content: string, ranges: seq<Range>)
    requires |content| == 46 && ranges == [Range(0, 37), Range(13, 36)]
    ensures Strip(content, ranges) == "" && !Safe(ranges, 46) && forall p | 37 <= p < 46 :: !Covered(ranges, p)
  {
    assert ranges[1..] == [Range(13, 36)] && ranges[1..][1..] == [];
    assert |Strip(content, ranges[1..])| == 23;
    assert !Covered(ranges, 37);
  }
}
