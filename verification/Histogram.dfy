/**
 * The latency histogram of the benchmark: log-linear buckets over whole microseconds, with exact
 * count, sum, minimum and maximum beside them. `real` stands for the original's floating point.
 */
module Histogram {
  import opened Bits
  import opened Wrappers

  // --- buckets ---------------------------------------------------------------------------------

  /** Milliseconds to whole microseconds, rounded half up and at least one. */
  function Us(ms: real): nat {
    var rounded := (ms * 1000.0 + 0.5).Floor;
    if rounded < 1 then 1 else rounded
  }

  /** The nearest whole microsecond, the larger one when two are, but one for less than one and a half. */
  lemma UsIs(ms: real)
    ensures Us(ms) >= 1
    ensures ms * 1000.0 < 1.5 ==> Us(ms) == 1
    ensures ms * 1000.0 >= 0.5 ==> Us(ms) as real - 0.5 <= ms * 1000.0 < Us(ms) as real + 0.5
  {
  }

  /** floor(log2(us / 64)) + 1 */
  function Exponent(us: nat): nat
    requires us >= 64
  {
    if us < 128 then 1 else 1 + Exponent(us / 2)
  }

  function BucketOf(us: nat): nat {
    if us < 64 then us else Exponent(us) * 64 + us / Pow2(Exponent(us))
  }

  function UpperEdge(key: nat): nat {
    if key < 64 then key else (key % 64 + 1) * Pow2(key / 64)
  }

  lemma {:induction false} ExponentIs(us: nat)
    requires us >= 64
    ensures Exponent(us) >= 1
    ensures 32 * Pow2(Exponent(us)) <= us < 64 * Pow2(Exponent(us))
  {
    if us < 128 {
      assert Pow2(1) == 2 * Pow2(0);
    } else {
      ExponentIs(us / 2);
    }
  }

  lemma SlotIs(us: nat, p: nat)
    requires p >= 1 && 32 * p <= us < 64 * p
    ensures 32 <= us / p < 64
    ensures us / p * p <= us < (us / p + 1) * p <= us + p
  {
    DivLess(us, p, 32);
    DivLess(us, p, 64);
  }

  lemma DivLess(us: nat, p: nat, k: nat)
    requires p >= 1
    ensures us / p < k <==> us < k * p
    ensures us / p * p <= us < us / p * p + p
  {
    assert us == us / p * p + us % p;
    if us / p < k {
      MulLe(us / p + 1, k, p);
    } else {
      MulLe(k, us / p, p);
    }
  }

  lemma MulLe(a: nat, b: nat, p: nat)
    requires a <= b
    ensures a * p <= b * p
  {
  }

  /** The slot is always in 32..63, so the key splits back into exponent and slot. */
  lemma KeySplits(us: nat)
    requires us >= 64
    ensures BucketOf(us) / 64 == Exponent(us)
    ensures BucketOf(us) % 64 == us / Pow2(Exponent(us)) >= 32
  {
    ExponentIs(us);
    SlotIs(us, Pow2(Exponent(us)));
  }

  /** The edge of a value's bucket is at least the value, by at most one part in 32; exact below 64. */
  lemma EdgeCovers(us: nat)
    ensures us < 64 ==> UpperEdge(BucketOf(us)) == us
    ensures us >= 64 ==> us < UpperEdge(BucketOf(us)) && 32 * UpperEdge(BucketOf(us)) <= 33 * us
  {
    if us >= 64 {
      KeySplits(us);
      ExponentIs(us);
      SlotIs(us, Pow2(Exponent(us)));
    }
  }

  /** How far a value lies below the edge of its bucket. */
  function Slack(us: nat): nat
    requires us >= 64
  {
    Pow2(Exponent(us)) - us % Pow2(Exponent(us))
  }

  /** The edge exceeds the value by its slack, so by one part in 64 or less if and only if that is small enough. */
  lemma OneIn64Iff(us: nat)
    requires us >= 64
    ensures UpperEdge(BucketOf(us)) == us + Slack(us)
    ensures 64 * UpperEdge(BucketOf(us)) <= 65 * us <==> 64 * Slack(us) <= us
  {
    KeySplits(us);
    ExponentIs(us);
    NextMultiple(us, Pow2(Exponent(us)));
  }

  lemma NextMultiple(us: nat, p: nat)
    requires p >= 1
    ensures (us / p + 1) * p == us + (p - us % p)
  {
    assert us == us / p * p + us % p;
  }

  lemma {:induction false} ExponentMonotone(a: nat, b: nat)
    requires 64 <= a <= b
    ensures Exponent(a) <= Exponent(b)
  {
    if a >= 128 {
      ExponentMonotone(a / 2, b / 2);
    } else {
      ExponentIs(b);
    }
  }

  lemma DivMonotone(a: nat, b: nat, p: nat)
    requires a <= b && p >= 1
    ensures a / p <= b / p
  {
    assert a == a / p * p + a % p && b == b / p * p + b % p;
    if b / p < a / p {
      MulLe(b / p + 1, a / p, p);
    }
  }

  lemma BucketMonotone(a: nat, b: nat)
    requires a <= b
    ensures BucketOf(a) <= BucketOf(b)
  {
    if b >= 64 {
      ExponentIs(b);
      SlotIs(b, Pow2(Exponent(b)));
      if a >= 64 {
        ExponentMonotone(a, b);
        ExponentIs(a);
        SlotIs(a, Pow2(Exponent(a)));
        if Exponent(a) == Exponent(b) {
          DivMonotone(a, b, Pow2(Exponent(b)));
        }
      }
    }
  }

  /** The bucket of a latency. */
  function Key(ms: real): nat {
    BucketOf(Us(ms))
  }

  lemma KeyMonotone(a: real, b: real)
    requires a <= b
    ensures Key(a) <= Key(b)
  {
    assert a * 1000.0 + 0.5 <= b * 1000.0 + 0.5;
    assert (a * 1000.0 + 0.5).Floor <= (b * 1000.0 + 0.5).Floor;
    BucketMonotone(Us(a), Us(b));
  }

  // --- the histogram ---------------------------------------------------------------------------

  type Counts = map<nat, nat>

  /** The fields of a histogram. `min` is missing while it is infinite. */
  datatype Totals = Totals(counts: Counts, count: nat, sum: real, min: Option<real>, max: real)

  /** What toJSON writes: the buckets as a list, an infinite minimum as null. */
  datatype Data = Data(counts: seq<(nat, nat)>, count: nat, sum: real, min: Option<real>, max: real)

  const NOTHING := Totals(map[], 0, 0.0, None, 0.0)

  function At(counts: Counts, key: nat): nat {
    if key in counts then counts[key] else 0
  }

  function Lower(a: Option<real>, b: Option<real>): Option<real> {
    if a.None? || (b.Some? && b.value < a.value) then b else a
  }

  function Larger(a: real, b: real): real {
    if b > a then b else a
  }

  function Smaller(a: real, b: real): real {
    if b < a then b else a
  }

  function Recorded(t: Totals, ms: real): Totals {
    Totals(t.counts[Key(ms) := At(t.counts, Key(ms)) + 1], t.count + 1, t.sum + ms,
           Lower(t.min, Some(ms)), Larger(t.max, ms))
  }

  function MergedCounts(a: Counts, b: Counts): Counts {
    map k | k in a.Keys + b.Keys :: At(a, k) + At(b, k)
  }

  function Merged(a: Totals, b: Totals): Totals {
    Totals(MergedCounts(a.counts, b.counts), a.count + b.count, a.sum + b.sum,
           Lower(a.min, b.min), Larger(a.max, b.max))
  }

  /** The entries set one after another. */
  function FromEntries(entries: seq<(nat, nat)>): Counts {
    if entries == [] then map[]
    else
      var last := entries[|entries| - 1];
      FromEntries(entries[..|entries| - 1])[last.0 := last.1]
  }

  function FromData(d: Data): Totals {
    Totals(FromEntries(d.counts), d.count, d.sum, d.min, d.max)
  }

  /** How many values the buckets up to `key` hold. */
  function SumUpTo(counts: Counts, key: int): nat
    decreases key + 1
  {
    if key < 0 then 0 else SumUpTo(counts, key - 1) + At(counts, key)
  }

  function Ceil(x: real): int {
    -((-x).Floor)
  }

  function Rank(q: real, count: nat): nat {
    var r := Ceil(q * count as real);
    if r < 1 then 1 else r
  }

  /** `r` is the edge of the first bucket that reaches the rank, and never above the maximum. */
  ghost predicate IsQuantile(t: Totals, q: real, r: real) {
    if t.count == 0 then r == 0.0
    else
      var rank := Rank(q, t.count);
      if forall k: nat :: SumUpTo(t.counts, k) < rank then r == t.max
      else exists k: nat ::
          SumUpTo(t.counts, k - 1) < rank <= SumUpTo(t.counts, k) && r == Smaller(t.max, UpperEdge(k) as real / 1000.0)
  }

  lemma {:induction false} SumMonotone(counts: Counts, a: int, b: int)
    requires a <= b
    ensures SumUpTo(counts, a) <= SumUpTo(counts, b)
    decreases b - a
  {
    if a < b && b >= 0 {
      SumMonotone(counts, a, b - 1);
    }
  }

  /** Empty buckets add nothing. */
  lemma {:induction false} SumSkips(counts: Counts, a: int, b: int)
    requires a <= b
    requires forall k: nat | a < k <= b :: k !in counts
    ensures SumUpTo(counts, a) == SumUpTo(counts, b)
    decreases b - a
  {
    if a < b {
      SumSkips(counts, a, b - 1);
    }
  }

  predicate Ascending(keys: seq<nat>) {
    forall i, j | 0 <= i < j < |keys| :: keys[i] < keys[j]
  }

  /** The keys of the map in ascending order. */
  method SortedKeys(counts: Counts) returns (keys: seq<nat>)
    ensures Ascending(keys)
    ensures forall k :: k in keys <==> k in counts
  {
    keys := [];
    var rest := counts.Keys;
    while rest != {}
      invariant rest <= counts.Keys
      invariant forall k :: k in keys <==> k in counts.Keys - rest
      invariant Ascending(keys)
      invariant forall i, j | 0 <= i < |keys| && j in rest :: keys[i] < j
      decreases rest
    {
      var least := Least(rest);
      keys := keys + [least];
      rest := rest - {least};
    }
  }

  method Least(s: set<nat>) returns (least: nat)
    requires s != {}
    ensures least in s
    ensures forall k | k in s :: least <= k
  {
    least :| least in s;
    var rest := s - {least};
    while rest != {}
      invariant rest <= s && least in s
      invariant forall k | k in s && k !in rest :: least <= k
      decreases rest
    {
      var k :| k in rest;
      if k < least {
        least := k;
      }
      rest := rest - {k};
    }
  }

  class Histogram {
    var counts: Counts
    var count: nat
    var sum: real
    var min: Option<real>
    var max: real

    function View(): Totals
      reads this
    {
      Totals(counts, count, sum, min, max)
    }

    constructor ()
      ensures View() == NOTHING
    {
      counts, count, sum, min, max := map[], 0, 0.0, None, 0.0;
    }

    /** The histogram that toJSON wrote. */
    constructor From(data: Data)
      ensures View() == FromData(data)
    {
      count, sum, min, max := data.count, data.sum, data.min, data.max;
      counts := map[];
      new;
      for i := 0 to |data.counts|
        invariant counts == FromEntries(data.counts[..i])
        invariant (count, sum, min, max) == (data.count, data.sum, data.min, data.max)
      {
        assert data.counts[..i + 1][..i] == data.counts[..i];
        counts := counts[data.counts[i].0 := data.counts[i].1];
      }
      assert data.counts[..|data.counts|] == data.counts;
    }

    method Record(ms: real)
      modifies this
      ensures View() == Recorded(old(View()), ms)
    {
      var key := BucketOf(Us(ms));
      counts := counts[key := (if key in counts then counts[key] else 0) + 1];
      count := count + 1;
      sum := sum + ms;
      if min.None? || ms < min.value {
        min := Some(ms);
      }
      if ms > max {
        max := ms;
      }
    }

    /** The loop of merge. `other` may be this histogram itself. */
    method MergeCounts(other: Histogram)
      modifies `counts
      ensures counts == MergedCounts(old(counts), old(other.counts))
    {
      var rest := other.counts.Keys;
      while rest != {}
        invariant rest <= old(other.counts).Keys <= other.counts.Keys
        invariant counts.Keys == old(counts).Keys + (old(other.counts).Keys - rest)
        invariant other != this ==> other.counts == old(other.counts)
        invariant forall k | k in counts ::
                    counts[k] == At(old(counts), k) + if k in rest then 0 else At(old(other.counts), k)
        decreases rest
      {
        var k :| k in rest;
        counts := counts[k := (if k in counts then counts[k] else 0) + other.counts[k]];
        rest := rest - {k};
      }
    }

    /** `other` may be this histogram itself. */
    method Merge(other: Histogram)
      modifies this
      ensures View() == Merged(old(View()), old(other.View()))
    {
      MergeCounts(other);
      count := count + other.count;
      sum := sum + other.sum;
      min := Lower(min, other.min);
      max := Larger(max, other.max);
    }

    method ToJson() returns (data: Data)
      ensures FromData(data) == View()
    {
      var entries: seq<(nat, nat)> := [];
      var rest := counts.Keys;
      while rest != {}
        invariant rest <= counts.Keys
        invariant FromEntries(entries).Keys == counts.Keys - rest
        invariant forall k | k in FromEntries(entries) :: FromEntries(entries)[k] == counts[k]
        decreases rest
      {
        var k :| k in rest;
        ghost var before := entries;
        entries := entries + [(k, counts[k])];
        assert entries[..|entries| - 1] == before;
        rest := rest - {k};
      }
      assert FromEntries(entries) == counts;
      data := Data(entries, count, sum, min, max);
    }

    method Quantile(q: real) returns (r: real)
      ensures IsQuantile(View(), q, r)
    {
      if count == 0 {
        return 0.0;
      }
      var rank := Rank(q, count);
      var keys := SortedKeys(counts);
      var seen := 0;
      for i := 0 to |keys|
        invariant seen == SumUpTo(counts, if i == 0 then -1 else keys[i - 1])
        invariant seen < rank
      {
        ghost var before := if i == 0 then -1 else keys[i - 1];
        ghost var here: int := keys[i];
        forall k: nat | before < k <= here - 1 ensures k !in counts {
          NothingBetween(keys, i, k);
        }
        SumSkips(counts, before, here - 1);
        seen := seen + counts[keys[i]];
        if seen >= rank {
          return Smaller(max, UpperEdge(keys[i]) as real / 1000.0);
        }
      }
      forall k: nat ensures SumUpTo(counts, k) < rank {
        ghost var last := if |keys| == 0 then -1 else keys[|keys| - 1];
        if k <= last {
          SumMonotone(counts, k, last);
        } else {
          forall j: nat | last < j <= k ensures j !in counts {
            NothingBetween(keys, |keys|, j);
          }
          SumSkips(counts, last, k);
        }
      }
      r := max;
    }
  }

  lemma NothingBetween(keys: seq<nat>, i: nat, k: nat)
    requires Ascending(keys) && i <= |keys|
    requires i > 0 ==> keys[i - 1] < k
    requires i < |keys| ==> k < keys[i]
    ensures k !in keys
  {
    forall j | 0 <= j < |keys| ensures keys[j] != k {
      if j < i {
        assert keys[j] <= keys[i - 1];
      } else {
        assert keys[i] <= keys[j];
      }
    }
  }

  // --- the exact form --------------------------------------------------------------------------

  predicate SortedValues(s: seq<real>) {
    forall i, j | 0 <= i <= j < |s| :: s[i] <= s[j]
  }

  /** The exact percentile by nearest rank of the admin pages. */
  function Percentile(sorted: seq<real>, p: real): real {
    if |sorted| == 0 then 0.0
    else
      var index := Ceil(p * |sorted| as real) - 1;
      var low := if index < 0 then 0 else index;
      sorted[if |sorted| - 1 < low then |sorted| - 1 else low]
  }

  /** How many of the values are at most `v`. */
  function AtMost(values: seq<real>, v: real): nat {
    if values == [] then 0 else AtMost(values[..|values| - 1], v) + if values[|values| - 1] <= v then 1 else 0
  }

  lemma {:induction false} AtMostSorted(s: seq<real>, v: real, i: nat)
    requires SortedValues(s) && i < |s|
    ensures s[i] <= v ==> AtMost(s, v) > i
    ensures v < s[i] ==> AtMost(s, v) <= i
  {
    var last := |s| - 1;
    if i < last {
      AtMostSorted(s[..last], v, i);
    } else if i > 0 {
      AtMostSorted(s[..last], v, i - 1);
    }
    assert s[..last] == [] ==> last == 0;
    AtMostBound(s[..last], v);
  }

  lemma {:induction false} AtMostBound(s: seq<real>, v: real)
    ensures AtMost(s, v) <= |s|
  {
    if s != [] {
      AtMostBound(s[..|s| - 1], v);
    }
  }

  /** The nearest rank: the least of the values that at least a share `p` of them does not exceed. */
  lemma PercentileIs(s: seq<real>, p: real, v: real)
    requires SortedValues(s) && s != [] && p <= 1.0 && v in s
    ensures var m := Percentile(s, p);
            m in s && AtMost(s, m) as real >= p * |s| as real && (v < m ==> (AtMost(s, v) as real) < p * |s| as real)
  {
    hide AtMost;
    var m, x, k := Percentile(s, p), p * |s| as real, Ceil(p * |s| as real);
    assert x <= |s| as real && k <= |s|;
    var i := if k < 1 then 0 else k - 1;
    assert m == s[i];
    AtMostSorted(s, m, i);
    AtMostSorted(s, v, i);
    var j :| 0 <= j < |s| && s[j] == v;
    assert v < m ==> j < i;
  }

  function Sum(values: seq<real>): real {
    if values == [] then 0.0 else Sum(values[..|values| - 1]) + values[|values| - 1]
  }

  /** How many of the values fall into the buckets up to `key`. */
  function KeysUpTo(values: seq<real>, key: int): (n: nat)
    ensures n <= |values|
  {
    if values == [] then 0
    else KeysUpTo(values[..|values| - 1], key) + if Key(values[|values| - 1]) <= key then 1 else 0
  }

  /** The totals are those of the values, bucket by bucket. */
  ghost predicate Describes(t: Totals, values: seq<real>) {
    && (forall k: int :: SumUpTo(t.counts, k) == KeysUpTo(values, k))
    && t.count == |values|
    && t.sum == Sum(values)
    && (t.min.None? <==> values == [])
    && (t.min.Some? ==> t.min.value in values && forall v | v in values :: t.min.value <= v)
    && (t.max == 0.0 || t.max in values)
    && (forall v | v in values :: v <= t.max) && 0.0 <= t.max
  }

  /** Any sequence of recordings, merges and trips through JSON. */
  datatype History =
    | Fresh
    | Record(before: History, ms: real)
    | Merge(left: History, right: History)
    | Reload(before: History, data: Data)   // `data` is what toJSON wrote

  function Build(h: History): Totals {
    match h
    case Fresh => NOTHING
    case Record(before, ms) => Recorded(Build(before), ms)
    case Merge(left, right) => Merged(Build(left), Build(right))
    case Reload(before, data) => FromData(data)
  }

  /** The data of every trip through JSON is what toJSON wrote, with its entries in any order. */
  ghost predicate Honest(h: History) {
    match h
    case Fresh => true
    case Record(before, ms) => Honest(before)
    case Merge(left, right) => Honest(left) && Honest(right)
    case Reload(before, data) => Honest(before) && FromData(data) == Build(before)
  }

  /** All values recorded into the histogram or into one merged into it. */
  function Values(h: History): seq<real> {
    match h
    case Fresh => []
    case Record(before, ms) => Values(before) + [ms]
    case Merge(left, right) => Values(left) + Values(right)
    case Reload(before, data) => Values(before)
  }

  lemma {:induction false} SumRecorded(counts: Counts, at: nat, k: int)
    ensures SumUpTo(counts[at := At(counts, at) + 1], k) == SumUpTo(counts, k) + if at <= k then 1 else 0
    decreases k + 1
  {
    if k >= 0 {
      SumRecorded(counts, at, k - 1);
    }
  }

  lemma {:induction false} SumMerged(a: Counts, b: Counts, k: int)
    ensures SumUpTo(MergedCounts(a, b), k) == SumUpTo(a, k) + SumUpTo(b, k)
    decreases k + 1
  {
    if k >= 0 {
      SumMerged(a, b, k - 1);
    }
  }

  lemma {:induction false} KeysConcat(a: seq<real>, b: seq<real>, k: int)
    ensures KeysUpTo(a + b, k) == KeysUpTo(a, k) + KeysUpTo(b, k)
  {
    if b == [] {
      assert a + b == a;
    } else {
      KeysConcat(a, b[..|b| - 1], k);
      assert (a + b)[..|a + b| - 1] == a + b[..|b| - 1];
    }
  }

  lemma {:induction false} SumConcat(a: seq<real>, b: seq<real>)
    ensures Sum(a + b) == Sum(a) + Sum(b)
  {
    if b == [] {
      assert a + b == a;
    } else {
      SumConcat(a, b[..|b| - 1]);
      assert (a + b)[..|a + b| - 1] == a + b[..|b| - 1];
    }
  }

  lemma {:induction false} SumNothing(k: int)
    ensures SumUpTo(map[], k) == 0
    decreases k + 1
  {
    if k >= 0 {
      SumNothing(k - 1);
    }
  }

  lemma RecordDescribes(t: Totals, values: seq<real>, ms: real)
    requires Describes(t, values)
    ensures Describes(Recorded(t, ms), values + [ms])
  {
    assert (values + [ms])[..|values|] == values;
    forall k: int ensures SumUpTo(Recorded(t, ms).counts, k) == KeysUpTo(values + [ms], k) {
      SumRecorded(t.counts, Key(ms), k);
    }
  }

  lemma MergeDescribes(t: Totals, a: seq<real>, u: Totals, b: seq<real>)
    requires Describes(t, a) && Describes(u, b)
    ensures Describes(Merged(t, u), a + b)
  {
    SumConcat(a, b);
    forall k: int ensures SumUpTo(Merged(t, u).counts, k) == KeysUpTo(a + b, k) {
      SumMerged(t.counts, u.counts, k);
      KeysConcat(a, b, k);
    }
  }

  /** Whatever was recorded, merged and reloaded, the totals are those of all the values. */
  lemma {:induction false} BuildDescribes(h: History)
    requires Honest(h)
    ensures Describes(Build(h), Values(h))
  {
    match h
    case Fresh =>
      forall k: int ensures SumUpTo(map[], k) == 0 {
        SumNothing(k);
      }
    case Record(before, ms) =>
      BuildDescribes(before);
      RecordDescribes(Build(before), Values(before), ms);
    case Merge(left, right) =>
      BuildDescribes(left);
      BuildDescribes(right);
      MergeDescribes(Build(left), Values(left), Build(right), Values(right));
    case Reload(before, data) =>
      BuildDescribes(before);
  }

  // --- the histogram against the exact form ----------------------------------------------------

  lemma {:induction false} KeysOfSorted(s: seq<real>, i: nat)
    requires SortedValues(s) && i < |s|
    ensures KeysUpTo(s, Key(s[i]) - 1) <= i < KeysUpTo(s, Key(s[i]))
  {
    var front := s[..|s| - 1];
    forall j | 0 <= j < |s| ensures j <= i ==> Key(s[j]) <= Key(s[i]) {
      if j <= i {
        KeyMonotone(s[j], s[i]);
      }
    }
    forall j | 0 <= j < |s| ensures j >= i ==> Key(s[j]) >= Key(s[i]) {
      if j >= i {
        KeyMonotone(s[i], s[j]);
      }
    }
    if i == |s| - 1 {
      AllUpTo(s, Key(s[i]));
    } else {
      KeysOfSorted(front, i);
    }
  }

  lemma {:induction false} AllUpTo(s: seq<real>, k: int)
    requires forall j | 0 <= j < |s| :: Key(s[j]) <= k
    ensures KeysUpTo(s, k) == |s|
  {
    if s != [] {
      AllUpTo(s[..|s| - 1], k);
    }
  }

  /** Only the multiset of the values matters. */
  lemma {:induction false} KeysPermute(a: seq<real>, b: seq<real>, k: int)
    requires multiset(a) == multiset(b)
    ensures KeysUpTo(a, k) == KeysUpTo(b, k)
  {
    SameLength(a, b);
    if a != [] {
      var last := |a| - 1;
      assert a[last] in multiset(b);
      var j :| 0 <= j < |b| && b[j] == a[last];
      KeysRemove(b, j, k);
      KeysRemove(a, last, k);
      KeysPermute(a[..last] + a[last + 1..], b[..j] + b[j + 1..], k);
    }
  }

  lemma KeysRemove(b: seq<real>, j: nat, k: int)
    requires j < |b|
    ensures KeysUpTo(b, k) == KeysUpTo(b[..j] + b[j + 1..], k) + if Key(b[j]) <= k then 1 else 0
    ensures multiset(b[..j] + b[j + 1..]) == multiset(b) - multiset{b[j]}
  {
    hide KeysUpTo, Key;
    var front, v, back := b[..j], b[j], b[j + 1..];
    assert b == front + [v] + back;
    SplitMultiset(front, v, back);
    KeysConcat(front, back, k);
    KeysConcat(front + [v], back, k);
    KeysPush(front, v, k);
  }

  lemma KeysPush(front: seq<real>, v: real, k: int)
    ensures KeysUpTo(front + [v], k) == KeysUpTo(front, k) + if Key(v) <= k then 1 else 0
  {
    hide Key;
    assert (front + [v])[..|front|] == front;
  }

  lemma SplitMultiset(front: seq<real>, v: real, back: seq<real>)
    ensures multiset(front + [v] + back) - multiset{v} == multiset(front + back)
  {
    assert multiset(front + [v] + back) == multiset(front) + multiset{v} + multiset(back);
  }

  /** The quantile is the upper edge of the bucket that the exact percentile falls in. */
  lemma QuantileIsEdgeOfPercentile(h: History, sorted: seq<real>, q: real, r: real)
    requires Honest(h)
    requires SortedValues(sorted) && multiset(sorted) == multiset(Values(h))
    requires IsQuantile(Build(h), q, r)
    ensures sorted == [] ==> r == Percentile(sorted, q) == 0.0
    ensures sorted != [] && q <= 1.0 ==>
              r == Smaller(Build(h).max, UpperEdge(Key(Percentile(sorted, q))) as real / 1000.0)
    ensures sorted != [] && q > 1.0 ==> r == Build(h).max
    ensures forall v | v in sorted :: v <= Build(h).max
  {
    SortedDescribes(h, sorted);
    if sorted != [] {
      if q > 1.0 {
        RankAbove(q, |sorted|);
      } else {
        RankWithin(q, |sorted|);
        RankOfPercentile(sorted, q);
        FirstToReach(Build(h), q, r, Key(Percentile(sorted, q)));
      }
    }
  }

  /** The totals describe the values in ascending order as well. */
  lemma SortedDescribes(h: History, sorted: seq<real>)
    requires Honest(h) && multiset(sorted) == multiset(Values(h))
    ensures Build(h).count == |sorted|
    ensures forall k: int :: SumUpTo(Build(h).counts, k) == KeysUpTo(sorted, k)
    ensures forall v | v in sorted :: v <= Build(h).max
  {
    BuildDescribes(h);
    SameLength(sorted, Values(h));
    forall k: int ensures SumUpTo(Build(h).counts, k) == KeysUpTo(sorted, k) {
      KeysPermute(sorted, Values(h), k);
    }
    forall v | v in sorted ensures v <= Build(h).max {
      assert v in multiset(sorted);
      assert v in Values(h);
    }
  }

  lemma RankOfPercentile(s: seq<real>, q: real)
    requires SortedValues(s) && s != [] && 1 <= Rank(q, |s|) <= |s|
    ensures var key := Key(Percentile(s, q)); KeysUpTo(s, key - 1) < Rank(q, |s|) <= KeysUpTo(s, key)
  {
    hide KeysUpTo, Key;
    KeysOfSorted(s, Rank(q, |s|) - 1);
    assert Percentile(s, q) == s[Rank(q, |s|) - 1];
  }

  lemma SameLength(a: seq<real>, b: seq<real>)
    requires multiset(a) == multiset(b)
    ensures |a| == |b|
  {
    assert |multiset(a)| == |a| && |multiset(b)| == |b|;
  }

  lemma RankAbove(q: real, n: nat)
    requires q > 1.0 && n > 0
    ensures Rank(q, n) > n
  {
    assert (q - 1.0) * n as real > 0.0;
    assert q * n as real > n as real;
  }

  lemma RankWithin(q: real, n: nat)
    requires q <= 1.0 && n > 0
    ensures 1 <= Rank(q, n) <= n
  {
    assert (1.0 - q) * n as real >= 0.0;
    assert q * n as real <= n as real;
  }

  /** Only one bucket can be the first to reach the rank. */
  lemma FirstToReach(t: Totals, q: real, r: real, key: nat)
    requires t.count > 0 && IsQuantile(t, q, r)
    requires SumUpTo(t.counts, key - 1) < Rank(q, t.count) <= SumUpTo(t.counts, key)
    ensures r == Smaller(t.max, UpperEdge(key) as real / 1000.0)
  {
    var rank := Rank(q, t.count);
    var k: nat :| SumUpTo(t.counts, k - 1) < rank <= SumUpTo(t.counts, k)
      && r == Smaller(t.max, UpperEdge(k) as real / 1000.0);
    if k < key {
      SumMonotone(t.counts, k, key - 1);
    } else if key < k {
      SumMonotone(t.counts, key, k - 1);
    }
  }

  /**
   * The quantile against the exact percentile `m`, in microseconds: at most half a microsecond
   * below it, and at most one part in 32 above the microseconds `m` was counted as. It is not
   * below `m` exactly when `m` was not rounded down or was counted as 64 or more.
   */
  lemma QuantileBounds(h: History, sorted: seq<real>, q: real, r: real)
    requires Honest(h)
    requires SortedValues(sorted) && multiset(sorted) == multiset(Values(h)) && sorted != [] && q <= 1.0
    requires IsQuantile(Build(h), q, r)
    ensures var m := Percentile(sorted, q);
            && 1000.0 * r >= 1000.0 * m - 0.5
            && 32.0 * 1000.0 * r <= 33.0 * Us(m) as real
            && (Us(m) < 64 ==> 1000.0 * r <= Us(m) as real)
            && (r >= m <==> 1000.0 * m <= Us(m) as real || Us(m) >= 64)
  {
    QuantileIsEdgeOfPercentile(h, sorted, q, r);
    var m := Percentile(sorted, q);
    assert m in sorted;
    EdgeCovers(Us(m));
    var edge := UpperEdge(Key(m));
    assert 32 * edge <= 33 * Us(m);
    assert 32.0 * edge as real <= 33.0 * Us(m) as real;
    assert 1000.0 * m < Us(m) as real + 0.5;
    assert Us(m) >= 64 ==> edge >= Us(m) + 1;
    assert r >= m <==> edge as real >= 1000.0 * m;
  }

  /** On whole microseconds the quantile is never below the percentile, and exact below 64. */
  lemma QuantileOfWholeMicroseconds(h: History, sorted: seq<real>, q: real, r: real, us: nat)
    requires Honest(h)
    requires SortedValues(sorted) && multiset(sorted) == multiset(Values(h)) && sorted != [] && q <= 1.0
    requires IsQuantile(Build(h), q, r)
    requires us >= 1 && Percentile(sorted, q) == us as real / 1000.0
    ensures us as real <= 1000.0 * r && 32.0 * 1000.0 * r <= 33.0 * us as real
    ensures us < 64 ==> 1000.0 * r == us as real
  {
    var m := Percentile(sorted, q);
    assert m * 1000.0 + 0.5 == us as real + 0.5;
    assert Us(m) == us;
    QuantileBounds(h, sorted, q, r);
  }

  /**
   * When one part in 64 is kept: for a percentile counted as 64 microseconds or more, if and only if that
   * count lies close enough below the edge of its bucket, or the maximum does and cuts the edge off.
   */
  lemma QuantileWithinOneIn64Iff(h: History, sorted: seq<real>, q: real, r: real)
    requires Honest(h)
    requires SortedValues(sorted) && multiset(sorted) == multiset(Values(h)) && sorted != [] && q <= 1.0
    requires IsQuantile(Build(h), q, r)
    requires Us(Percentile(sorted, q)) >= 64
    ensures var us := Us(Percentile(sorted, q));
            64.0 * 1000.0 * r <= 65.0 * us as real <==>
            64 * Slack(us) <= us || 64.0 * 1000.0 * Build(h).max <= 65.0 * us as real
  {
    QuantileIsEdgeOfPercentile(h, sorted, q, r);
    var us := Us(Percentile(sorted, q));
    OneIn64Iff(us);
    var edge := UpperEdge(BucketOf(us));
    assert 64 * edge <= 65 * us <==> 64.0 * edge as real <= 65.0 * us as real;
    EdgeOrMaximum(edge as real, Build(h).max, us as real, r);
  }

  lemma EdgeOrMaximum(edge: real, max: real, us: real, r: real)
    requires r == Smaller(max, edge / 1000.0)
    ensures 64.0 * 1000.0 * r <= 65.0 * us <==> 64.0 * edge <= 65.0 * us || 64.0 * 1000.0 * max <= 65.0 * us
  {
  }

  lemma MedianOfTwo(a: real, b: real, r: real)
    requires a <= b && IsQuantile(Build(Record(Record(Fresh, a), b)), 0.5, r)
    ensures r == Smaller(Larger(Larger(0.0, a), b), UpperEdge(Key(a)) as real / 1000.0)
  {
    hide IsQuantile, At, BucketOf, Rank, MergedCounts, FromData, UpperEdge, Smaller;
    var h := Record(Fresh, a);
    assert Values(h) == [] + [a];
    assert Build(h) == Recorded(NOTHING, a);
    assert Build(Record(h, b)) == Recorded(Build(h), b);
    var values := [a] + [b];
    assert Values(Record(h, b)) == values;
    QuantileIsEdgeOfPercentile(Record(h, b), values, 0.5, r);
    assert Percentile(values, 0.5) == values[0];
  }

  /** One part in 32 is reached: 64 microseconds beside a longer latency are reported as 66. */
  lemma OneIn32IsReached(r: real)
    requires IsQuantile(Build(Record(Record(Fresh, 0.064), 1.0)), 0.5, r)
    ensures r == 0.066
  {
    MedianOfTwo(0.064, 1.0, r);
    EdgeOf64(64);
  }

  lemma EdgeOf64(us: nat)
    requires us == 64
    ensures UpperEdge(BucketOf(us)) == 66
  {
    assert Exponent(us) == 1 && Pow2(1) == 2 * Pow2(0) == 2;
    assert us / Pow2(1) == 32;
  }

  /** A latency of 1.4 microseconds is reported as 1. */
  lemma RoundedDownIsBelow(r: real)
    requires IsQuantile(Build(Record(Record(Fresh, 0.0014), 1.0)), 0.5, r)
    ensures r == 0.001
  {
    MedianOfTwo(0.0014, 1.0, r);
    assert Us(0.0014) == 1;
  }
}
