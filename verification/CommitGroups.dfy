/**
 * The copy of a collection in pages, and of a page in import commits bounded by document count
 * and by encoded size.
 */
module CommitGroups {
  import opened Wrappers

  /** `size` is the length of the document's JSON; ids are ordered as the store orders them. */
  datatype Doc = Doc(id: nat, size: nat)

  type Group = seq<Doc>

  function Bytes(docs: seq<Doc>): nat {
    if docs == [] then 0 else Bytes(docs[..|docs| - 1]) + docs[|docs| - 1].size
  }

  function Concat(groups: seq<Group>): seq<Doc> {
    if groups == [] then [] else groups[0] + Concat(groups[1..])
  }

  /** Within both bounds, or a single document. */
  predicate Legal(group: Group, maxDocs: int, maxBytes: int) {
    |group| == 1 || (|group| > 1 && |group| <= maxDocs && Bytes(group) <= maxBytes)
  }

  predicate AllLegal(groups: seq<Group>, maxDocs: int, maxBytes: int) {
    forall i | 0 <= i < |groups| :: Legal(groups[i], maxDocs, maxBytes)
  }

  /** A way to cut the documents into commits. */
  predicate IsSplit(docs: seq<Doc>, groups: seq<Group>, maxDocs: int, maxBytes: int) {
    AllLegal(groups, maxDocs, maxBytes) && Concat(groups) == docs
  }

  /** The longest legal prefix of at least `n` documents. */
  function Longest(docs: seq<Doc>, n: nat, maxDocs: int, maxBytes: int): (m: nat)
    requires 0 < n <= |docs|
    ensures n <= m <= |docs|
    decreases |docs| - n
  {
    if n < |docs| && Legal(docs[..n + 1], maxDocs, maxBytes) then Longest(docs, n + 1, maxDocs, maxBytes) else n
  }

  /** Cutting off the longest legal prefix again and again. */
  function Greedy(docs: seq<Doc>, maxDocs: int, maxBytes: int): seq<Group>
    decreases |docs|
  {
    if docs == [] then []
    else
      var n := Longest(docs, 1, maxDocs, maxBytes);
      [docs[..n]] + Greedy(docs[n..], maxDocs, maxBytes)
  }

  lemma {:induction false} BytesConcat(a: seq<Doc>, b: seq<Doc>)
    ensures Bytes(a + b) == Bytes(a) + Bytes(b)
  {
    if b == [] {
      assert a + b == a;
    } else {
      BytesConcat(a, b[..|b| - 1]);
      assert (a + b)[..|a + b| - 1] == a + b[..|b| - 1];
    }
  }

  /** Any part of a legal group is legal. */
  lemma PartIsLegal(group: Group, i: nat, j: nat, maxDocs: int, maxBytes: int)
    requires i < j <= |group| && Legal(group, maxDocs, maxBytes)
    ensures Legal(group[i..j], maxDocs, maxBytes)
  {
    hide Bytes;
    BytesConcat(group[..i], group[i..]);
    BytesConcat(group[i..j], group[j..]);
    assert group[..i] + group[i..] == group && group[i..j] + group[j..] == group[i..];
  }

  /** `Longest` is a legal prefix, and no longer prefix is legal. */
  lemma {:induction false} LongestIs(docs: seq<Doc>, n: nat, m: nat, maxDocs: int, maxBytes: int)
    requires 0 < n <= |docs| && Legal(docs[..n], maxDocs, maxBytes)
    ensures Legal(docs[..Longest(docs, n, maxDocs, maxBytes)], maxDocs, maxBytes)
    ensures Longest(docs, n, maxDocs, maxBytes) < m <= |docs| ==> !Legal(docs[..m], maxDocs, maxBytes)
    decreases |docs| - n
  {
    if n < |docs| && Legal(docs[..n + 1], maxDocs, maxBytes) {
      LongestIs(docs, n + 1, m, maxDocs, maxBytes);
    } else if n < m <= |docs| {
      assert docs[..m][0..n + 1] == docs[..n + 1];
      if Legal(docs[..m], maxDocs, maxBytes) {
        PartIsLegal(docs[..m], 0, n + 1, maxDocs, maxBytes);
      }
    }
  }

  /** The first group is `prefix` when it is legal and cannot be extended. */
  lemma {:induction false} LongestFrom(docs: seq<Doc>, n: nat, p: nat, maxDocs: int, maxBytes: int)
    requires 0 < n <= p <= |docs| && Legal(docs[..p], maxDocs, maxBytes)
    requires p < |docs| ==> !Legal(docs[..p + 1], maxDocs, maxBytes)
    ensures Longest(docs, n, maxDocs, maxBytes) == p
    decreases p - n
  {
    if n < p {
      PartIsLegal(docs[..p], 0, n + 1, maxDocs, maxBytes);
      assert docs[..p][0..n + 1] == docs[..n + 1];
      LongestFrom(docs, n + 1, p, maxDocs, maxBytes);
    }
  }

  lemma GreedyStep(prefix: Group, rest: seq<Doc>, maxDocs: int, maxBytes: int)
    requires Legal(prefix, maxDocs, maxBytes)
    requires rest != [] ==> !Legal(prefix + [rest[0]], maxDocs, maxBytes)
    ensures Greedy(prefix + rest, maxDocs, maxBytes) == [prefix] + Greedy(rest, maxDocs, maxBytes)
  {
    var docs, p := prefix + rest, |prefix|;
    assert docs[..p] == prefix && docs[p..] == rest;
    assert rest != [] ==> docs[..p + 1] == prefix + [rest[0]];
    LongestFrom(docs, 1, p, maxDocs, maxBytes);
  }

  /** The commits are a legal split: nothing lost, repeated or reordered, no empty commit. */
  lemma {:induction false} GreedySplits(docs: seq<Doc>, maxDocs: int, maxBytes: int)
    ensures IsSplit(docs, Greedy(docs, maxDocs, maxBytes), maxDocs, maxBytes)
    decreases |docs|
  {
    if docs != [] {
      var n := Longest(docs, 1, maxDocs, maxBytes);
      LongestIs(docs, 1, n, maxDocs, maxBytes);
      GreedySplits(docs[n..], maxDocs, maxBytes);
      assert docs == docs[..n] + docs[n..];
    }
  }

  /** No commit has room for the first document of the next. */
  lemma {:induction false} GreedyIsFull(docs: seq<Doc>, maxDocs: int, maxBytes: int, i: nat)
    requires i + 1 < |Greedy(docs, maxDocs, maxBytes)|
    ensures var groups := Greedy(docs, maxDocs, maxBytes);
            && groups[i + 1] != []
            && (|groups[i]| >= maxDocs || Bytes(groups[i]) + groups[i + 1][0].size > maxBytes)
    decreases i
  {
    hide Bytes, Longest;
    var n := Longest(docs, 1, maxDocs, maxBytes);
    if i > 0 {
      GreedyIsFull(docs[n..], maxDocs, maxBytes, i - 1);
    } else {
      var rest := docs[n..];
      assert rest != [];
      LongestIs(docs, 1, n + 1, maxDocs, maxBytes);
      assert docs[..n + 1] == docs[..n] + [rest[0]];
      Extended(docs[..n], rest[0]);
    }
  }

  /**
   * Nothing is lost, repeated or reordered, no commit is empty, every commit of several documents is within
   * the bounds, and none has room for the first document of the next.
   */
  ghost predicate AreCommits(docs: seq<Doc>, groups: seq<Group>, maxDocs: int, maxBytes: int) {
    && Concat(groups) == docs && [] !in groups
    && (forall g | g in groups && |g| > 1 :: |g| <= maxDocs && Bytes(g) <= maxBytes)
    && forall i {:trigger groups[i]} | 0 <= i < |groups| - 1 ::
         |groups[i]| >= maxDocs || Bytes(groups[i]) + groups[i + 1][0].size > maxBytes
  }

  lemma GreedyCommits(docs: seq<Doc>, maxDocs: int, maxBytes: int)
    ensures AreCommits(docs, Greedy(docs, maxDocs, maxBytes), maxDocs, maxBytes)
  {
    hide Bytes, Greedy;
    var groups := Greedy(docs, maxDocs, maxBytes);
    GreedySplits(docs, maxDocs, maxBytes);
    forall i {:trigger groups[i]} | 0 <= i < |groups| - 1
      ensures |groups[i]| >= maxDocs || Bytes(groups[i]) + groups[i + 1][0].size > maxBytes
    {
      GreedyIsFull(docs, maxDocs, maxBytes, i);
    }
  }

  /** Splits a page into import commits. */
  method Split(docs: seq<Doc>, maxDocs: int, maxBytes: int) returns (groups: seq<Group>)
    ensures groups == Greedy(docs, maxDocs, maxBytes)
    ensures AreCommits(docs, groups, maxDocs, maxBytes)
  {
    hide Greedy, AreCommits;
    groups := [];
    var current: Group := [];
    var bytes := 0;
    assert current + docs[0..] == docs;
    for i := 0 to |docs|
      invariant bytes == Bytes(current)
      invariant current == [] <==> i == 0
      invariant current == [] || Legal(current, maxDocs, maxBytes)
      invariant Greedy(docs, maxDocs, maxBytes) == groups + Greedy(current + docs[i..], maxDocs, maxBytes)
    {
      var size := docs[i].size;
      Extended(current, docs[i]);
      assert current + docs[i..] == (current + [docs[i]]) + docs[i + 1..];
      if |current| > 0 && (|current| >= maxDocs || bytes + size > maxBytes) {
        GreedyStep(current, docs[i..], maxDocs, maxBytes);
        groups := groups + [current];
        current := [];
        bytes := 0;
        Extended([], docs[i]);
        assert docs[i..] == [docs[i]] + docs[i + 1..];
      }
      current := current + [docs[i]];
      bytes := bytes + size;
    }
    assert current + docs[|docs|..] == current + [];
    if |current| > 0 {
      GreedyStep(current, [], maxDocs, maxBytes);
      groups := groups + [current];
    }
    NoDocs(maxDocs, maxBytes);
    GreedyCommits(docs, maxDocs, maxBytes);
  }

  lemma NoDocs(maxDocs: int, maxBytes: int)
    ensures Greedy([], maxDocs, maxBytes) == []
  {
  }

  lemma Extended(current: Group, doc: Doc)
    ensures Bytes(current + [doc]) == Bytes(current) + doc.size
  {
    assert (current + [doc])[..|current|] == current;
  }

  /** However far ahead `Greedy` starts, it needs no more commits than any legal split. */
  lemma {:induction false} StaysAhead(docs: seq<Doc>, k: nat, split: seq<Group>, maxDocs: int, maxBytes: int)
    requires k <= |docs| && IsSplit(docs, split, maxDocs, maxBytes)
    ensures |Greedy(docs[k..], maxDocs, maxBytes)| <= |split|
    decreases |split|
  {
    hide Legal, Bytes;
    if k < |docs| {
      var m, tail := |split[0]|, docs[|split[0]|..];
      assert docs[..m] == split[0];
      assert AllLegal(split[1..], maxDocs, maxBytes);
      if k >= m {
        assert tail[k - m..] == docs[k..];
        StaysAhead(tail, k - m, split[1..], maxDocs, maxBytes);
      } else {
        var rest := docs[k..];
        var n := Longest(rest, 1, maxDocs, maxBytes);
        PartIsLegal(split[0], k, m, maxDocs, maxBytes);
        assert rest[..m - k] == split[0][k..m];
        LongestIs(rest, 1, m - k, maxDocs, maxBytes);
        assert rest[n..] == tail[k + n - m..];
        StaysAhead(tail, k + n - m, split[1..], maxDocs, maxBytes);
      }
    }
  }

  /** No legal split has fewer commits. */
  lemma GreedyIsFewest(docs: seq<Doc>, split: seq<Group>, maxDocs: int, maxBytes: int)
    requires IsSplit(docs, split, maxDocs, maxBytes)
    ensures |Greedy(docs, maxDocs, maxBytes)| <= |split|
  {
    assert docs[0..] == docs;
    StaysAhead(docs, 0, split, maxDocs, maxBytes);
  }

  // --- pages -----------------------------------------------------------------------------------

  predicate Ascending(docs: seq<Doc>) {
    forall i, j | 0 <= i < j < |docs| :: docs[i].id < docs[j].id
  }

  predicate IsAfter(doc: Doc, after: Option<nat>) {
    after.None? || doc.id > after.value
  }

  /** The first `limit` documents after the given id, in id order. */
  function Find(collection: seq<Doc>, after: Option<nat>, limit: nat): (page: seq<Doc>)
    ensures |page| <= limit
  {
    if collection == [] || limit == 0 then []
    else if IsAfter(collection[0], after) then [collection[0]] + Find(collection[1..], after, limit - 1)
    else Find(collection[1..], after, limit)
  }

  /** The first `limit` documents, or all. */
  function First(docs: seq<Doc>, limit: nat): seq<Doc> {
    if limit <= |docs| then docs[..limit] else docs
  }

  lemma FirstStep(docs: seq<Doc>, limit: nat)
    requires docs != [] && limit > 0
    ensures First(docs, limit) == [docs[0]] + First(docs[1..], limit - 1)
  {
    if limit <= |docs| {
      assert docs[..limit] == [docs[0]] + docs[1..][..limit - 1];
    } else {
      assert docs == [docs[0]] + docs[1..];
    }
  }

  lemma DropStep(docs: seq<Doc>, k: nat)
    requires 0 < k <= |docs|
    ensures docs[1..][k - 1..] == docs[k..]
  {
  }

  /** Past the first `k` documents, the page is the next ones. */
  lemma {:induction false} FindIsNext(collection: seq<Doc>, k: nat, after: Option<nat>, limit: nat)
    requires k <= |collection|
    requires forall i | 0 <= i < |collection| :: IsAfter(collection[i], after) <==> i >= k
    ensures Find(collection, after, limit) == First(collection[k..], limit)
  {
    hide IsAfter, First;
    if collection == [] || limit == 0 {
      NoneFound(collection[k..], limit);
    } else {
      var rest, k' := collection[1..], if k == 0 then 0 else k - 1;
      assert IsAfter(collection[0], after) <==> k == 0;
      forall i | 0 <= i < |rest| ensures IsAfter(rest[i], after) <==> i >= k' {
        assert rest[i] == collection[i + 1];
      }
      if k == 0 {
        FirstStep(collection, limit);
        assert collection[0..] == collection && rest[0..] == rest;
        FindIsNext(rest, 0, after, limit - 1);
      } else {
        DropStep(collection, k);
        FindIsNext(rest, k', after, limit);
      }
    }
  }

  lemma NoneFound(docs: seq<Doc>, limit: nat)
    requires docs == [] || limit == 0
    ensures First(docs, limit) == []
  {
  }

  /** Copies a collection: the commits, over all pages, hold every document once and in order. */
  method Backfill(collection: seq<Doc>, limit: nat, maxDocs: int, maxBytes: int) returns (commits: seq<Group>)
    requires Ascending(collection) && limit > 0
    ensures IsSplit(collection, commits, maxDocs, maxBytes)
  {
    hide Greedy, IsSplit, Find;
    commits := [];
    var after: Option<nat> := None;
    ghost var k := 0;
    NothingToCopy(collection, maxDocs, maxBytes);
    while true
      invariant ReadTo(collection, k, after)
      invariant IsSplit(collection[..k], commits, maxDocs, maxBytes)
      decreases |collection| - k
    {
      PageIs(collection, k, after, limit);
      var page := Find(collection, after, limit);
      if |page| == 0 {
        break;
      }
      var groups := Split(page, maxDocs, maxBytes);
      GreedySplits(page, maxDocs, maxBytes);
      SplitsJoin(collection[..k], commits, page, groups, maxDocs, maxBytes);
      assert collection[..k] + page == collection[..k + |page|];
      commits := commits + groups;
      after := Some(page[|page| - 1].id);
      k := k + |page|;
    }
    assert collection[..k] == collection;
  }

  lemma NothingToCopy(collection: seq<Doc>, maxDocs: int, maxBytes: int)
    ensures IsSplit(collection[..0], [], maxDocs, maxBytes)
  {
  }

  /** The documents after the last one read are those from index `k` on. */
  predicate ReadTo(collection: seq<Doc>, k: nat, after: Option<nat>) {
    k <= |collection| && if after.None? then k == 0 else k > 0 && after.value == collection[k - 1].id
  }

  lemma PageIs(collection: seq<Doc>, k: nat, after: Option<nat>, limit: nat)
    requires Ascending(collection) && ReadTo(collection, k, after) && limit > 0
    ensures var page := Find(collection, after, limit);
            && k + |page| <= |collection| && page == collection[k..k + |page|]
            && (page == [] ==> k == |collection|)
            && (page != [] ==> ReadTo(collection, k + |page|, Some(page[|page| - 1].id)))
  {
    hide Find;
    forall i | 0 <= i < |collection| ensures IsAfter(collection[i], after) <==> i >= k {
      assert after.Some? && i > k - 1 ==> collection[k - 1].id < collection[i].id;
      assert after.Some? && i < k - 1 ==> collection[i].id < collection[k - 1].id;
    }
    FindIsNext(collection, k, after, limit);
  }

  lemma SplitsJoin(a: seq<Doc>, x: seq<Group>, b: seq<Doc>, y: seq<Group>, maxDocs: int, maxBytes: int)
    requires IsSplit(a, x, maxDocs, maxBytes) && IsSplit(b, y, maxDocs, maxBytes)
    ensures IsSplit(a + b, x + y, maxDocs, maxBytes)
  {
    hide Legal, Concat;
    ConcatJoins(x, y);
  }

  lemma ConcatFirst(groups: seq<Group>)
    ensures groups != [] ==> Concat(groups) == groups[0] + Concat(groups[1..])
    ensures groups == [] ==> Concat(groups) == []
  {
    hide Legal;
  }

  lemma {:induction false} ConcatJoins(a: seq<Group>, b: seq<Group>)
    ensures Concat(a + b) == Concat(a) + Concat(b)
  {
    hide Legal, Concat;
    ConcatFirst(a);
    ConcatFirst(a + b);
    if a == [] {
      assert a + b == b;
    } else {
      ConcatJoins(a[1..], b);
      assert (a + b)[1..] == a[1..] + b;
    }
  }
}
