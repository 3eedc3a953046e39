/** Of which starts one call repairs every change their tasks can make, whatever the contents of the tasks. */
module RollupStarts {
  import opened Wrappers
  import opened Rollup

  // --- the condition ---------------------------------------------------------------------------

  /** `p` is rolled up from its tasks. */
  predicate IsLeaf(ps: Projects, p: nat) {
    ChildrenOf(ps, p, |ps|) == []
  }

  /** Unstaged projects lead from `id` to one already seen. */
  predicate Arrives(ps: Projects, id: Option<nat>, seen: set<nat>)
    decreases Ids(ps) - seen
  {
    && id.Some? && id.value < |ps|
    && (id.value in seen || (!ps[id.value].staged && Arrives(ps, ps[id.value].parent, seen + {id.value})))
  }

  /** The walk from `id` passes an unstaged start with tasks of its own, and from there stops at a seen project. */
  predicate Loses(ps: Projects, starts: seq<nat>, id: Option<nat>, seen: set<nat>)
    decreases Ids(ps) - seen
  {
    && id.Some? && id.value < |ps| && id.value !in seen
    && var p, after := id.value, seen + {id.value};
       || (p in starts && IsLeaf(ps, p) && !ps[p].staged && Arrives(ps, ps[p].parent, after))
       || Loses(ps, starts, ps[p].parent, after)
  }

  /** The walk from start k can lose a change: links, stagings and starts decide it, not the tasks. */
  predicate LosesAt(ps: Projects, starts: seq<nat>, k: nat)
    requires k < |starts|
  {
    Loses(ps, starts, Some(starts[k]), WalkAll(ps, [], starts[..k]).seen)
  }

  /** Only the tasks of the starts differ. */
  predicate OnlyTasksOf(starts: seq<nat>, before: seq<Task>, after: seq<Task>, n: nat) {
    forall p | 0 <= p < n && p !in starts :: SameTasks(before, after, p)
  }

  /** Whatever was cached and whatever the tasks of the starts become, one call makes all caches agree again. */
  ghost predicate RepairsEveryChange(links: Projects, starts: seq<nat>) {
    forall ps: Projects, before: seq<Task>, after: seq<Task> ::
      SameLinks(links, ps) && AllAgree(ps, before) && OnlyTasksOf(starts, before, after, |ps|) ==>
        AllAgree(WalkAll(ps, after, starts).projects, after)
  }

  // --- what is walked depends on the links only ------------------------------------------------

  lemma {:induction false} WalkSeen(ps: Projects, qs: Projects, ts: seq<Task>, us: seq<Task>, id: Option<nat>,
                                    seen: set<nat>)
    requires SameLinks(ps, qs)
    ensures Walk(ps, ts, id, seen).seen == Walk(qs, us, id, seen).seen >= seen
    ensures SameLinks(ps, Walk(ps, ts, id, seen).projects) && SameLinks(qs, Walk(qs, us, id, seen).projects)
    ensures id.Some? ==> id.value in Walk(ps, ts, id, seen).seen
    decreases Ids(ps) - seen
  {
    hide Computed;
    if id.Some? && id.value !in seen && id.value < |ps| {
      var p := id.value;
      WalkSeen(Refreshed(ps, ts, p), Refreshed(qs, us, p), ts, us, ps[p].parent, seen + {p});
    }
  }

  lemma {:induction false} WalkAllSeen(ps: Projects, qs: Projects, ts: seq<Task>, us: seq<Task>, starts: seq<nat>)
    requires SameLinks(ps, qs)
    ensures WalkAll(ps, ts, starts).seen == WalkAll(qs, us, starts).seen
    ensures SameLinks(ps, WalkAll(ps, ts, starts).projects) && SameLinks(qs, WalkAll(qs, us, starts).projects)
    ensures forall s | s in starts :: s in WalkAll(ps, ts, starts).seen
  {
    if starts != [] {
      var front, s := starts[..|starts| - 1], starts[|starts| - 1];
      WalkAllSeen(ps, qs, ts, us, front);
      var v, w := WalkAll(ps, ts, front), WalkAll(qs, us, front);
      WalkSeen(v.projects, w.projects, ts, us, Some(s), v.seen);
      assert forall t | t in starts :: t in front || t == s;
    }
  }

  // --- when nothing can be lost, everything is repaired ----------------------------------------

  predicate ChildrenKept(ps: Projects, qs: Projects, p: nat)
    requires |ps| == |qs|
  {
    forall c | 0 <= c < |ps| && ps[c].parent == Some(p) && !ps[c].staged :: ps[c].percent == qs[c].percent
  }

  lemma KeptComputes(ps: Projects, qs: Projects, ts: seq<Task>, us: seq<Task>, p: nat)
    requires SameLinks(ps, qs) && p < |ps| && ChildrenKept(ps, qs, p)
    requires IsLeaf(ps, p) ==> SameTasks(ts, us, p)
    ensures Computed(ps, ts, p) == Computed(qs, us, p)
  {
    SameChildren(ps, qs, p, |ps|);
  }

  /** The parent of a seen project is missing, seen as well, or the next to be walked. */
  predicate Closed(ps: Projects, seen: set<nat>, next: Option<nat>) {
    forall c | 0 <= c < |ps| && c in seen && ps[c].parent.Some? && ps[c].parent.value < |ps| ::
      ps[c].parent.value in seen || ps[c].parent == next
  }

  /** Unseen projects are as they were, and the seen ones agree but the next to be walked. */
  predicate Settled(ps: Projects, qs: Projects, ts: seq<Task>, seen: set<nat>, next: Option<nat>) {
    && SameLinks(ps, qs) && Closed(ps, seen, next)
    && (forall p | 0 <= p < |ps| && p !in seen :: qs[p] == ps[p])
    && (forall p | 0 <= p < |ps| && p in seen && Some(p) != next :: Agrees(qs, ts, p))
  }

  /** What is known of the next project when the walk brings it no change. */
  predicate Calm(ps: Projects, qs: Projects, ts: seq<Task>, seen: set<nat>, next: Option<nat>)
    requires |ps| == |qs|
  {
    next.Some? && next.value < |ps| ==>
      if next.value in seen then Agrees(qs, ts, next.value) else ChildrenKept(ps, qs, next.value)
  }

  lemma SettledStep(ps: Projects, qs: Projects, ts: seq<Task>, rank: seq<nat>, p: nat, seen: set<nat>)
    requires RanksUpwards(ps, rank) && p < |ps| && p !in seen && Settled(ps, qs, ts, seen, Some(p))
    ensures Settled(ps, Refreshed(qs, ts, p), ts, seen + {p}, ps[p].parent)
  {
    hide Computed;
    var qs', next := Refreshed(qs, ts, p), ps[p].parent;
    forall q | 0 <= q < |ps| && q in seen + {p} && Some(q) != next ensures Agrees(qs', ts, q) {
      RefreshDisturbs(qs, ts, p, q);
    }
  }

  lemma CalmStep(ps: Projects, qs: Projects, ts: seq<Task>, rank: seq<nat>, p: nat, seen: set<nat>)
    requires RanksUpwards(ps, rank) && p < |ps| && p !in seen && Settled(ps, qs, ts, seen, Some(p))
    requires Computed(qs, ts, p).percent == ps[p].percent || ps[p].staged
    ensures Calm(ps, Refreshed(qs, ts, p), ts, seen + {p}, ps[p].parent)
  {
    hide Computed;
    var qs', next := Refreshed(qs, ts, p), ps[p].parent;
    if next.Some? && next.value < |ps| {
      if next.value in seen {
        KeptComputes(qs, qs', ts, ts, next.value);
      } else {
        forall c | 0 <= c < |ps| && ps[c].parent == next && !ps[c].staged ensures ps[c].percent == qs'[c].percent {
          assert c !in seen || c == p;
        }
      }
    }
  }

  /** A walk that can lose nothing leaves all it has seen in agreement. */
  lemma {:induction false} WalkSettles(ps: Projects, before: seq<Task>, after: seq<Task>, starts: seq<nat>,
                                       rank: seq<nat>, qs: Projects, id: Option<nat>, seen: set<nat>, hot: bool)
    requires RanksUpwards(ps, rank) && AllAgree(ps, before) && OnlyTasksOf(starts, before, after, |ps|)
    requires Settled(ps, qs, after, seen, id) && !Loses(ps, starts, id, seen)
    requires if hot then !Arrives(ps, id, seen) else Calm(ps, qs, after, seen, id)
    ensures var w := Walk(qs, after, id, seen); Settled(ps, w.projects, after, w.seen, None)
    decreases Ids(ps) - seen
  {
    hide Computed, IsLeaf;
    if id.Some? && id.value < |ps| && id.value !in seen {
      var p := id.value;
      var warm := hot || (p in starts && IsLeaf(ps, p));
      if !warm {
        assert Agrees(ps, before, p);
        KeptComputes(ps, qs, before, after, p);
      }
      SettledStep(ps, qs, after, rank, p, seen);
      if !warm || ps[p].staged {
        CalmStep(ps, qs, after, rank, p, seen);
      }
      WalkSettles(ps, before, after, starts, rank, Refreshed(qs, after, p), ps[p].parent, seen + {p},
                  warm && !ps[p].staged);
    }
  }

  lemma StartIsCalm(ps: Projects, qs: Projects, ts: seq<Task>, seen: set<nat>, s: nat)
    requires Settled(ps, qs, ts, seen, None)
    ensures Settled(ps, qs, ts, seen, Some(s)) || (s < |ps| && s in seen)
    ensures Calm(ps, qs, ts, seen, Some(s))
  {
    hide Computed;
  }

  lemma {:induction false} StartsSettle(ps: Projects, before: seq<Task>, after: seq<Task>, starts: seq<nat>,
                                        rank: seq<nat>, k: nat)
    requires RanksUpwards(ps, rank) && AllAgree(ps, before) && OnlyTasksOf(starts, before, after, |ps|)
    requires k <= |starts| && forall i | 0 <= i < k :: !LosesAt(ps, starts, i)
    ensures var w := WalkAll(ps, after, starts[..k]); Settled(ps, w.projects, after, w.seen, None)
  {
    hide Agrees, Loses, Arrives;
    if k > 0 {
      StartsSettle(ps, before, after, starts, rank, k - 1);
      var s, v := starts[k - 1], WalkAll(ps, after, starts[..k - 1]);
      assert starts[..k][..k - 1] == starts[..k - 1] && starts[..k][k - 1] == s;
      WalkAllSeen(ps, ps, after, [], starts[..k - 1]);
      assert !LosesAt(ps, starts, k - 1);
      StartIsCalm(ps, v.projects, after, v.seen, s);
      WalkSettles(ps, before, after, starts, rank, v.projects, Some(s), v.seen, false);
    }
  }

  lemma NothingLost(ps: Projects, before: seq<Task>, after: seq<Task>, starts: seq<nat>, rank: seq<nat>)
    requires RanksUpwards(ps, rank) && AllAgree(ps, before) && OnlyTasksOf(starts, before, after, |ps|)
    requires forall i | 0 <= i < |starts| :: !LosesAt(ps, starts, i)
    ensures AllAgree(WalkAll(ps, after, starts).projects, after)
  {
    hide Computed, LosesAt;
    StartsSettle(ps, before, after, starts, rank, |starts|);
    assert starts[..|starts|] == starts;
    WalkAllSeen(ps, ps, after, [], starts);
    var w := WalkAll(ps, after, starts);
    forall p | 0 <= p < |ps| && p !in w.seen ensures Agrees(w.projects, after, p) {
      assert Agrees(ps, before, p) && SameTasks(before, after, p);
      KeptComputes(ps, w.projects, before, after, p);
    }
  }

  // --- when something can be lost, it is: one task that moves by one percent -------------------

  /** The least number of ones among n zeros and ones that makes their mean round to one. */
  function Half(n: nat): nat {
    (n + 1) / 2
  }

  lemma TwiceLe(q: nat, d: nat)
    ensures q >= 2 ==> q * d >= 2 * d
    ensures q == 0 ==> q * d == 0
  {
    if q >= 2 {
      assert q * d == 2 * d + (q - 2) * d;
    }
  }

  lemma OnceOrNever(a: nat, d: nat)
    requires d > 0 && a < 2 * d
    ensures a / d == if a < d then 0 else 1
  {
    assert a == a / d * d + a % d;
    TwiceLe(a / d, d);
  }

  lemma MeanOfOnes(sum: nat, n: nat)
    requires n > 0 && sum <= n
    ensures Mean(sum, n) == if sum < Half(n) then 0 else 1
  {
    OnceOrNever(2 * sum + n, 2 * n);
  }

  function Kids(ps: Projects, z: nat): nat {
    |ChildrenOf(ps, z, |ps|)|
  }

  function SumOf(ps: Projects, z: nat): int {
    ProjectSum(ChildrenOf(ps, z, |ps|))
  }

  predicate IsChild(ps: Projects, c: nat, z: nat)
    requires c < |ps|
  {
    ps[c].parent == Some(z) && !ps[c].staged
  }

  /** How many of the first n projects are children of `z` and in `sel`. */
  function Count(ps: Projects, sel: set<nat>, z: nat, n: nat): nat
    requires n <= |ps|
  {
    if n == 0 then 0 else Count(ps, sel, z, n - 1) + if IsChild(ps, n - 1, z) && n - 1 in sel then 1 else 0
  }

  lemma {:induction false} CountSame(ps: Projects, a: set<nat>, b: set<nat>, z: nat, n: nat)
    requires n <= |ps| && forall c | 0 <= c < n && IsChild(ps, c, z) :: c in a <==> c in b
    ensures Count(ps, a, z, n) == Count(ps, b, z, n)
  {
    if n > 0 {
      CountSame(ps, a, b, z, n - 1);
    }
  }

  lemma {:induction false} CountBound(ps: Projects, sel: set<nat>, z: nat, n: nat)
    requires n <= |ps|
    ensures Count(ps, sel, z, n) <= |ChildrenOf(ps, z, n)|
    ensures (forall c | 0 <= c < n && IsChild(ps, c, z) :: c in sel) ==> Count(ps, sel, z, n) == |ChildrenOf(ps, z, n)|
    ensures (forall c | 0 <= c < n && IsChild(ps, c, z) :: c !in sel) ==> Count(ps, sel, z, n) == 0
  {
    if n > 0 {
      CountBound(ps, sel, z, n - 1);
    }
  }

  predicate ChildrenOnly(ps: Projects, sel: set<nat>, z: nat) {
    forall s | s in sel :: s < |ps| && IsChild(ps, s, z)
  }

  /** Any number of children of `z`, all but one of them at most. */
  lemma {:induction false} Choose(ps: Projects, z: nat, c: nat, n: nat, k: nat) returns (sel: set<nat>)
    requires n <= |ps| && c < |ps| && IsChild(ps, c, z)
    requires k + (if c < n then 1 else 0) <= |ChildrenOf(ps, z, n)|
    ensures Count(ps, sel, z, n) == k && ChildrenOnly(ps, sel, z) && c !in sel && forall s | s in sel :: s < n
  {
    if k == 0 {
      sel := {};
      CountBound(ps, sel, z, n);
    } else if IsChild(ps, n - 1, z) && n - 1 != c {
      var rest := Choose(ps, z, c, n - 1, k - 1);
      sel := rest + {n - 1};
      CountSame(ps, rest, sel, z, n - 1);
    } else {
      sel := Choose(ps, z, c, n - 1, k);
    }
  }

  lemma ChildCounts(ps: Projects, c: nat, z: nat, n: nat)
    requires c < n <= |ps| && IsChild(ps, c, z)
    ensures |ChildrenOf(ps, z, n)| >= 1
  {
    if c < n - 1 {
      ChildCounts(ps, c, z, n - 1);
    }
  }

  // --- the caches before the change ------------------------------------------------------------

  predicate AllBelow(ps: Projects, rank: seq<nat>, sel: set<nat>, z: nat)
    requires z < |rank|
  {
    forall s | s in sel :: s < |rank| && rank[s] < rank[z]
  }

  /** On the way from `id`, entered from `c`, one selected child more makes each project round up. */
  predicate Primed(ps: Projects, rank: seq<nat>, sel: set<nat>, id: Option<nat>, seen: set<nat>, c: nat)
    decreases Ids(ps) - seen
  {
    && id.Some? && id.value < |ps| == |rank| && c < |ps| && IsChild(ps, c, id.value) && c !in sel
    && var z := id.value;
       && Count(ps, sel, z, |ps|) == Half(Kids(ps, z)) - 1
       && if z in seen then AllBelow(ps, rank, sel, z) else Primed(ps, rank, sel, ps[z].parent, seen + {z}, z)
  }

  /** No project has enough selected children to round up. */
  predicate Sparse(ps: Projects, sel: set<nat>) {
    forall z | 0 <= z < |ps| && Kids(ps, z) > 0 :: Count(ps, sel, z, |ps|) < Half(Kids(ps, z))
  }

  /** Selecting children of a project further down changes nothing above it. */
  lemma {:induction false} PrimedMore(ps: Projects, rank: seq<nat>, sel: set<nat>, more: set<nat>, id: Option<nat>,
                                      seen: set<nat>, c: nat, z: nat)
    requires RanksUpwards(ps, rank) && Primed(ps, rank, sel, id, seen, c)
    requires z < |ps| && ChildrenOnly(ps, more, z) && rank[z] < rank[id.value]
    ensures Primed(ps, rank, sel + more, id, seen, c)
    decreases Ids(ps) - seen
  {
    var x := id.value;
    CountSame(ps, sel, sel + more, x, |ps|);
    if x !in seen {
      PrimedMore(ps, rank, sel, more, ps[x].parent, seen + {x}, x, z);
    }
  }

  predicate ParentsFrom(ps: Projects, rank: seq<nat>, sel: set<nat>, z: nat)
    requires |rank| == |ps| && z < |ps|
  {
    forall s | s in sel :: s < |ps| && ps[s].parent.Some? &&
      ps[s].parent.value < |ps| && rank[z] <= rank[ps[s].parent.value]
  }

  lemma SparseMore(ps: Projects, rank: seq<nat>, sel: set<nat>, more: set<nat>, z: nat)
    requires |rank| == |ps| && z < |ps| && Sparse(ps, sel) && ChildrenOnly(ps, more, z)
    requires forall s | s in sel :: s < |ps| && ps[s].parent != Some(z)
    requires Kids(ps, z) > 0 ==> Count(ps, more, z, |ps|) < Half(Kids(ps, z))
    ensures Sparse(ps, sel + more)
    ensures Count(ps, sel + more, z, |ps|) == Count(ps, more, z, |ps|)
  {
    forall x | 0 <= x < |ps| && Kids(ps, x) > 0 ensures Count(ps, sel + more, x, |ps|) < Half(Kids(ps, x)) {
      CountSame(ps, sel + more, if x == z then more else sel, x, |ps|);
    }
    CountSame(ps, sel + more, more, z, |ps|);
  }

  /** Children to select so that every project on the way is one child short of rounding up. */
  lemma {:induction false} Prime(ps: Projects, rank: seq<nat>, id: Option<nat>, seen: set<nat>, c: nat)
    returns (sel: set<nat>)
    requires RanksUpwards(ps, rank) && Arrives(ps, id, seen) && c < |ps| && IsChild(ps, c, id.value)
    ensures Primed(ps, rank, sel, id, seen, c) && Sparse(ps, sel) && ParentsFrom(ps, rank, sel, id.value)
    decreases Ids(ps) - seen
  {
    var z := id.value;
    var rest: set<nat> := {};
    if z in seen {
      forall x | 0 <= x < |ps| ensures Count(ps, rest, x, |ps|) == 0 {
        CountBound(ps, rest, x, |ps|);
      }
    } else {
      rest := Prime(ps, rank, ps[z].parent, seen + {z}, z);
    }
    ChildCounts(ps, c, z, |ps|);
    var mine := Choose(ps, z, c, |ps|, Half(Kids(ps, z)) - 1);
    SparseMore(ps, rank, rest, mine, z);
    sel := rest + mine;
    if z !in seen {
      PrimedMore(ps, rank, rest, mine, ps[z].parent, seen + {z}, z, z);
    }
  }

  // --- lit projects ----------------------------------------------------------------------------

  function Highest(rank: seq<nat>): (h: nat)
    ensures forall p | 0 <= p < |rank| :: rank[p] <= h
  {
    if rank == [] then 0
    else
      var h := Highest(rank[..|rank| - 1]);
      assert forall p | 0 <= p < |rank| - 1 :: rank[p] == rank[..|rank| - 1][p];
      if rank[|rank| - 1] > h then rank[|rank| - 1] else h
  }

  /** Selected, or somewhere under a selected project. */
  predicate IsLit(ps: Projects, rank: seq<nat>, sel: set<nat>, p: nat)
    requires RanksUpwards(ps, rank) && p < |ps|
    decreases Highest(rank) - rank[p]
  {
    p in sel || (ps[p].parent.Some? && ps[p].parent.value < |ps| && IsLit(ps, rank, sel, ps[p].parent.value))
  }

  function Lit(ps: Projects, rank: seq<nat>, sel: set<nat>): set<nat>
    requires RanksUpwards(ps, rank)
  {
    set p: nat | p < |ps| && IsLit(ps, rank, sel, p)
  }

  lemma {:induction false} HighUnlit(ps: Projects, rank: seq<nat>, sel: set<nat>, p: nat)
    requires RanksUpwards(ps, rank) && p < |ps| && AllBelow(ps, rank, sel, p)
    ensures !IsLit(ps, rank, sel, p)
    decreases Highest(rank) - rank[p]
  {
    if ps[p].parent.Some? && ps[p].parent.value < |ps| {
      HighUnlit(ps, rank, sel, ps[p].parent.value);
    }
  }

  lemma {:induction false} PathUnlit(ps: Projects, rank: seq<nat>, sel: set<nat>, id: Option<nat>, seen: set<nat>,
                                     c: nat)
    requires RanksUpwards(ps, rank) && Primed(ps, rank, sel, id, seen, c)
    ensures !IsLit(ps, rank, sel, id.value) && !IsLit(ps, rank, sel, c)
    decreases Ids(ps) - seen
  {
    var z := id.value;
    if z in seen {
      HighUnlit(ps, rank, sel, z);
    } else {
      PathUnlit(ps, rank, sel, ps[z].parent, seen + {z}, z);
    }
  }

  /** Lit projects have only lit children, the others only the selected ones. */
  lemma LitChildren(ps: Projects, rank: seq<nat>, sel: set<nat>, z: nat)
    requires RanksUpwards(ps, rank) && z < |ps|
    ensures Count(ps, Lit(ps, rank, sel), z, |ps|) ==
            if z in Lit(ps, rank, sel) then Kids(ps, z) else Count(ps, sel, z, |ps|)
  {
    var lit := Lit(ps, rank, sel);
    forall c | 0 <= c < |ps| && IsChild(ps, c, z) ensures c in lit <==> c in sel || z in lit {
    }
    if z in lit {
      CountBound(ps, lit, z, |ps|);
    } else {
      CountSame(ps, lit, sel, z, |ps|);
    }
  }

  /** One percent cached for the lit projects, nothing for the others. */
  function Cached(ps: Projects, lit: set<nat>): (qs: Projects)
    ensures SameLinks(ps, qs)
  {
    seq(|ps|, p requires 0 <= p < |ps| =>
      ps[p].(percent := if p in lit then 1 else 0,
             status := if ps[p].doneOverride then Done else if p in lit then InProgress else Todo))
  }

  lemma NoChildren(qs: Projects, z: nat)
    ensures ChildrenOf(qs, z, 0) == [] && ProjectSum([]) == 0
  {
  }

  lemma {:induction false} CachedSum(ps: Projects, lit: set<nat>, z: nat, n: nat)
    requires n <= |ps|
    ensures ProjectSum(ChildrenOf(Cached(ps, lit), z, n)) == Count(ps, lit, z, n)
    ensures |ChildrenOf(Cached(ps, lit), z, n)| == |ChildrenOf(ps, z, n)|
  {
    hide ChildrenOf, ProjectSum;
    if n == 0 {
      NoChildren(ps, z);
      NoChildren(Cached(ps, lit), z);
    } else {
      CachedSum(ps, lit, z, n - 1);
      AddChild(Cached(ps, lit), z, n);
      AddChild(ps, z, n);
    }
  }

  /** The tasks: one for all lit projects, and one for the project whose change is lost. */
  function Tasks(lit: set<nat>, src: nat, percent: nat): seq<Task> {
    [Task(lit, false, InProgress, 1), Task({src}, false, if percent == 0 then Todo else InProgress, percent)]
  }

  lemma LiveTasks(lit: set<nat>, src: nat, percent: nat, p: nat)
    requires src !in lit
    ensures OfTasks(LiveOf(Tasks(lit, src, percent), p)) ==
            if p in lit then Rollup(InProgress, 1)
            else if p == src then Rollup(if percent == 0 then Todo else InProgress, percent) else Rollup(Todo, 0)
  {
    var ts := Tasks(lit, src, percent);
    assert ts[..1] == [ts[0]] && ts[..1][..0] == [] && ts[..0] == [];
    LiveOne(ts[0], p);
    assert LiveOf(ts, p) == LiveOf([ts[0]], p) + if p == src then [ts[1]] else [];
    if p in lit {
      assert LiveOf(ts, p) == [ts[0]];
      OneTask(ts[0]);
    } else if p == src {
      assert LiveOf(ts, p) == [ts[1]];
      OneTask(ts[1]);
    }
  }

  lemma LiveOne(t: Task, p: nat)
    ensures LiveOf([t], p) == if !t.staged && p in t.projects && !t.status.Cancelled? then [t] else []
  {
    assert [t][..0] == [];
  }

  lemma OneTask(t: Task)
    requires t.status.Todo? || t.status.InProgress?
    ensures OfTasks([t]) == Rollup(t.status, t.percent)
  {
    assert [t][..0] == [];
    assert TaskSum([t]) == t.percent;
  }

  lemma CachedComputes(ps: Projects, lit: set<nat>, ts: seq<Task>, z: nat)
    requires z < |ps|
    ensures var r := Computed(Cached(ps, lit), ts, z);
            && (r.percent == if Kids(ps, z) == 0 then OfTasks(LiveOf(ts, z)).percent
                             else Mean(Count(ps, lit, z, |ps|), Kids(ps, z)))
            && (r.status == if ps[z].doneOverride then Done
                            else if Kids(ps, z) == 0 then OfTasks(LiveOf(ts, z)).status
                            else if r.percent == 100 then Done else if r.percent > 0 then InProgress else Todo)
  {
    hide OfTasks, LiveOf, Mean, Cached;
    var qs := Cached(ps, lit);
    assert SameLinks(ps, qs);
    CachedSum(ps, lit, z, |ps|);
  }

  /** Before the change all caches agree; after it all but the changed project's. */
  lemma CachedAgrees(ps: Projects, rank: seq<nat>, sel: set<nat>, src: nat, percent: nat, z: nat)
    requires RanksUpwards(ps, rank) && Sparse(ps, sel) && src !in Lit(ps, rank, sel) && z < |ps|
    requires percent == 0 || z != src
    ensures var lit := Lit(ps, rank, sel); Agrees(Cached(ps, lit), Tasks(lit, src, percent), z)
  {
    hide Computed, OfTasks, LiveOf, Mean, Tasks, Half;
    var lit := Lit(ps, rank, sel);
    CachedComputes(ps, lit, Tasks(lit, src, percent), z);
    LiveTasks(lit, src, percent, z);
    LitChildren(ps, rank, sel, z);
    CountBound(ps, sel, z, |ps|);
    if Kids(ps, z) > 0 {
      MeanOfOnes(Count(ps, lit, z, |ps|), Kids(ps, z));
      HalfWithin(Kids(ps, z));
    }
  }

  lemma HalfWithin(n: nat)
    requires n > 0
    ensures 1 <= Half(n) <= n
  {
  }

  // --- the run that loses the change -----------------------------------------------------------

  /** A walk over projects that agree changes nothing. */
  lemma {:induction false} IdleWalk(ps: Projects, ts: seq<Task>, id: Option<nat>, seen: set<nat>)
    requires forall p | 0 <= p < |ps| && p in Walk(ps, ts, id, seen).seen && p !in seen :: Agrees(ps, ts, p)
    ensures Walk(ps, ts, id, seen).projects == ps
    decreases Ids(ps) - seen
  {
    hide Computed;
    if id.Some? && id.value < |ps| && id.value !in seen {
      var p := id.value;
      WalkSeen(Refreshed(ps, ts, p), Refreshed(ps, ts, p), ts, ts, ps[p].parent, seen + {p});
      assert p in Walk(ps, ts, id, seen).seen;
      assert Refreshed(ps, ts, p) == ps;
      IdleWalk(ps, ts, ps[p].parent, seen + {p});
    }
  }

  /** Starts that walk only projects that agree change nothing. */
  lemma {:induction false} IdleStarts(ps: Projects, ts: seq<Task>, starts: seq<nat>)
    requires forall p | 0 <= p < |ps| && p in WalkAll(ps, ts, starts).seen :: Agrees(ps, ts, p)
    ensures WalkAll(ps, ts, starts).projects == ps
  {
    hide Agrees;
    if starts != [] {
      var front, s := starts[..|starts| - 1], starts[|starts| - 1];
      var v := WalkAll(ps, ts, front);
      WalkSeen(v.projects, v.projects, ts, ts, Some(s), v.seen);
      IdleStarts(ps, ts, front);
      IdleWalk(ps, ts, Some(s), v.seen);
    }
  }

  lemma NextStart(ps: Projects, ts: seq<Task>, starts: seq<nat>, k: nat)
    requires k < |starts|
    ensures var u := WalkAll(ps, ts, starts[..k]);
            WalkAll(ps, ts, starts[..k + 1]) == Walk(u.projects, ts, Some(starts[k]), u.seen)
  {
    hide Walk;
    assert starts[..k + 1][..k] == starts[..k] && starts[..k + 1][k] == starts[k];
  }

  /** The starts after the first k walk only projects that agree. */
  lemma {:induction false} IdleRest(ps: Projects, ts: seq<Task>, starts: seq<nat>, k: nat, m: nat)
    requires k <= m <= |starts|
    requires var v := WalkAll(ps, ts, starts[..k]);
             |v.projects| == |ps| && forall p | 0 <= p < |ps| && p !in v.seen :: Agrees(v.projects, ts, p)
    ensures var v, w := WalkAll(ps, ts, starts[..k]), WalkAll(ps, ts, starts[..m]);
            w.projects == v.projects && v.seen <= w.seen
    decreases m
  {
    hide Agrees, WalkAll, Walk;
    if k < m {
      IdleRest(ps, ts, starts, k, m - 1);
      var u := WalkAll(ps, ts, starts[..m - 1]);
      NextStart(ps, ts, starts, m - 1);
      WalkSeen(u.projects, u.projects, ts, ts, Some(starts[m - 1]), u.seen);
      IdleWalk(u.projects, ts, Some(starts[m - 1]), u.seen);
    }
  }

  /** Cached percentages with `more` of one at `id`, none at the projects above, one short of rounding up. */
  predicate Ready(qs: Projects, id: Option<nat>, seen: set<nat>, more: nat)
    decreases Ids(qs) - seen
  {
    && id.Some? && id.value < |qs|
    && var z := id.value;
       && qs[z].percent == 0 && Kids(qs, z) > 0 && SumOf(qs, z) == Half(Kids(qs, z)) - 1 + more
       && (z in seen || (!qs[z].staged && Ready(qs, qs[z].parent, seen + {z}, 0)))
  }

  lemma {:induction false} SumRaised(qs: Projects, x: nat, y: Project, z: nat, n: nat)
    requires x < |qs| && n <= |qs| && IsChild(qs, x, z) && y.parent == qs[x].parent && !y.staged
    ensures |ChildrenOf(qs[x := y], z, n)| == |ChildrenOf(qs, z, n)|
    ensures ProjectSum(ChildrenOf(qs[x := y], z, n)) ==
            ProjectSum(ChildrenOf(qs, z, n)) + if x < n then y.percent - qs[x].percent else 0
  {
    hide ChildrenOf, ProjectSum;
    if n == 0 {
      NoChildren(qs, z);
      NoChildren(qs[x := y], z);
    } else {
      SumRaised(qs, x, y, z, n - 1);
      AddChild(qs, z, n);
      AddChild(qs[x := y], z, n);
    }
  }

  /** Further up nothing depends on x. */
  lemma {:induction false} ReadyKept(qs: Projects, rank: seq<nat>, x: nat, y: Project, id: Option<nat>,
                                     seen: set<nat>, z: nat)
    requires RanksUpwards(qs, rank) && x < |qs| && qs[x].parent == Some(z) && z < |qs|
    requires y.parent == qs[x].parent && y.staged == qs[x].staged
    requires Ready(qs, id, seen, 0) && rank[z] < rank[id.value]
    ensures Ready(qs[x := y], id, seen, 0)
    decreases Ids(qs) - seen
  {
    hide Half;
    ChildrenUnchanged(qs, x, y, id.value, |qs|);
    if id.value !in seen {
      ReadyKept(qs, rank, x, y, qs[id.value].parent, seen + {id.value}, z);
    }
  }

  lemma ReadyRaised(qs: Projects, rank: seq<nat>, x: nat, y: Project, seen: set<nat>)
    requires RanksUpwards(qs, rank) && x < |qs| && !qs[x].staged && Ready(qs, qs[x].parent, seen, 0)
    requires y.parent == qs[x].parent && !y.staged && y.percent == qs[x].percent + 1
    ensures Ready(qs[x := y], qs[x].parent, seen, 1)
  {
    hide Half;
    var z := qs[x].parent.value;
    SumRaised(qs, x, y, z, |qs|);
    if z !in seen {
      ReadyKept(qs, rank, x, y, qs[z].parent, seen + {z}, z);
    }
  }

  lemma ReadyComputes(qs: Projects, ts: seq<Task>, id: Option<nat>, seen: set<nat>)
    requires Ready(qs, id, seen, 1)
    ensures Computed(qs, ts, id.value).percent == 1
  {
    HalfWithin(Kids(qs, id.value));
    MeanOfOnes(SumOf(qs, id.value), Kids(qs, id.value));
  }

  /** The change is carried up to the seen project, which the walk leaves stale. */
  lemma {:induction false} WalkLoses(qs: Projects, ts: seq<Task>, rank: seq<nat>, id: Option<nat>, seen: set<nat>)
    returns (stale: nat)
    requires RanksUpwards(qs, rank) && Ready(qs, id, seen, 1)
    requires forall p | 0 <= p < |qs| && p !in seen && Some(p) != id :: Agrees(qs, ts, p)
    ensures var w := Walk(qs, ts, id, seen);
            && SameLinks(qs, w.projects) && stale < |qs| && !Agrees(w.projects, ts, stale)
            && stale in w.seen
            && forall p | 0 <= p < |qs| && p !in w.seen :: Agrees(w.projects, ts, p)
    decreases Ids(qs) - seen
  {
    hide Computed, Half;
    var z := id.value;
    ReadyComputes(qs, ts, id, seen);
    if z in seen {
      stale := z;
    } else {
      var after, next := Refreshed(qs, ts, z), qs[z].parent;
      forall p | 0 <= p < |qs| && p !in seen + {z} && Some(p) != next ensures Agrees(after, ts, p) {
        RefreshDisturbs(qs, ts, z, p);
      }
      ReadyRaised(qs, rank, z, after[z], seen + {z});
      stale := WalkLoses(after, ts, rank, next, seen + {z});
    }
  }

  // --- the equivalence -------------------------------------------------------------------------

  lemma {:induction false} PrimedReady(ps: Projects, rank: seq<nat>, sel: set<nat>, id: Option<nat>, seen: set<nat>,
                                       c: nat)
    requires RanksUpwards(ps, rank) && Primed(ps, rank, sel, id, seen, c)
    ensures Ready(Cached(ps, Lit(ps, rank, sel)), id, seen, 0)
    decreases Ids(ps) - seen
  {
    hide Half, Lit;
    var z, lit := id.value, Lit(ps, rank, sel);
    PathUnlit(ps, rank, sel, id, seen, c);
    NotLit(ps, rank, sel, z);
    LitChildren(ps, rank, sel, z);
    CachedSum(ps, lit, z, |ps|);
    ChildCounts(ps, c, z, |ps|);
    if z !in seen {
      PrimedReady(ps, rank, sel, ps[z].parent, seen + {z}, z);
    }
  }

  lemma NotLit(ps: Projects, rank: seq<nat>, sel: set<nat>, p: nat)
    requires RanksUpwards(ps, rank) && p < |ps|
    ensures p in Lit(ps, rank, sel) <==> IsLit(ps, rank, sel, p)
  {
  }

  datatype Place = Place(project: nat, seen: set<nat>)

  /** Where a walk meets the start whose change it loses. */
  function Source(ps: Projects, starts: seq<nat>, id: Option<nat>, seen: set<nat>): (src: Place)
    requires Loses(ps, starts, id, seen)
    ensures src.project < |ps| && src.project in starts && src.project !in src.seen && seen <= src.seen
    ensures IsLeaf(ps, src.project) && !ps[src.project].staged
    ensures Arrives(ps, ps[src.project].parent, src.seen + {src.project})
    decreases Ids(ps) - seen
  {
    var p, after := id.value, seen + {id.value};
    if p in starts && IsLeaf(ps, p) && !ps[p].staged && Arrives(ps, ps[p].parent, after) then Place(p, seen)
    else Source(ps, starts, ps[p].parent, after)
  }

  lemma {:induction false} WalkToSource(ps: Projects, qs: Projects, ts: seq<Task>, starts: seq<nat>, id: Option<nat>,
                                        seen: set<nat>)
    requires SameLinks(ps, qs) && Loses(ps, starts, id, seen)
    requires forall p | 0 <= p < |ps| && p != Source(ps, starts, id, seen).project :: Agrees(qs, ts, p)
    ensures var src := Source(ps, starts, id, seen);
            Walk(qs, ts, id, seen) == Walk(qs, ts, Some(src.project), src.seen)
    decreases Ids(ps) - seen
  {
    hide Computed, IsLeaf;
    var p := id.value;
    if Source(ps, starts, id, seen) != Place(p, seen) {
      assert p in Source(ps, starts, ps[p].parent, seen + {p}).seen;
      assert Agrees(qs, ts, p);
      assert Refreshed(qs, ts, p) == qs;
      WalkToSource(ps, qs, ts, starts, ps[p].parent, seen + {p});
    }
  }

  /** The change of the source's own cache, and the projects on its way up ready for it. */
  lemma SourceRaised(ps: Projects, rank: seq<nat>, sel: set<nat>, src: nat, seen: set<nat>) returns (stale: nat)
    requires RanksUpwards(ps, rank) && src < |ps| && src !in seen && IsLeaf(ps, src) && !ps[src].staged
    requires Sparse(ps, sel) && Primed(ps, rank, sel, ps[src].parent, seen + {src}, src)
    ensures src !in Lit(ps, rank, sel)
    ensures var lit := Lit(ps, rank, sel);
            var qs, after := Cached(ps, lit), Tasks(lit, src, 1);
            var w := Walk(qs, after, Some(src), seen);
            && SameLinks(qs, w.projects) && stale < |ps| && stale in w.seen && !Agrees(w.projects, after, stale)
            && forall p | 0 <= p < |ps| && p !in w.seen :: Agrees(w.projects, after, p)
  {
    hide Computed, Cached, Lit, Tasks, OfTasks, Sparse, Primed, ChildrenOf, SumOf, IsLit;
    var lit := Lit(ps, rank, sel);
    PathUnlit(ps, rank, sel, ps[src].parent, seen + {src}, src);
    NotLit(ps, rank, sel, src);
    var qs, after := Cached(ps, lit), Tasks(lit, src, 1);
    PrimedReady(ps, rank, sel, ps[src].parent, seen + {src}, src);
    CachedComputes(ps, lit, after, src);
    LiveTasks(lit, src, 1, src);
    CachedPercent(ps, lit, src);
    var raised := Refreshed(qs, after, src);
    ReadyRaised(qs, rank, src, raised[src], seen + {src});
    forall p | 0 <= p < |ps| && p !in seen + {src} && Some(p) != ps[src].parent ensures Agrees(raised, after, p) {
      CachedAgrees(ps, rank, sel, src, 1, p);
      RefreshDisturbs(qs, after, src, p);
    }
    stale := WalkLoses(raised, after, rank, ps[src].parent, seen + {src});
  }

  lemma CachedPercent(ps: Projects, lit: set<nat>, p: nat)
    requires p < |ps|
    ensures Cached(ps, lit)[p].percent == if p in lit then 1 else 0
  {
  }

  /** One task of one project, from nothing to one percent. */
  predicate IsSmallChange(before: seq<Task>, after: seq<Task>) {
    && |before| == 2 && before[1].status == Todo && before[1].percent == 0
    && (forall t | t in before :: 0 <= t.percent <= 1)
    && after == before[1 := before[1].(status := InProgress, percent := 1)]
  }

  /** A change that a call can lose is lost by some run. */
  lemma LossIsReached(ps: Projects, starts: seq<nat>, k: nat)
    returns (qs: Projects, before: seq<Task>, after: seq<Task>)
    requires Acyclic(ps) && k < |starts| && LosesAt(ps, starts, k)
    ensures SameLinks(ps, qs) && AllAgree(qs, before) && OnlyTasksOf(starts, before, after, |ps|)
    ensures IsSmallChange(before, after) && !AllAgree(WalkAll(qs, after, starts).projects, after)
  {
    hide Agrees, Loses, Lit, LiveOf, Walk, ParentsFrom, ChildrenOf, Count, Source;
    var rank :| RanksUpwards(ps, rank);
    var seen := WalkAll(ps, [], starts[..k]).seen;
    var src := Source(ps, starts, Some(starts[k]), seen);
    var p, next := src.project, ps[src.project].parent;
    assert next.Some? && next.value < |ps| by { ArrivesSomewhere(ps, next, src.seen + {p}); }
    var sel := Prime(ps, rank, next, src.seen + {p}, p);
    var stale := SourceRaised(ps, rank, sel, p, src.seen);
    var lit := Lit(ps, rank, sel);
    qs, before, after := Cached(ps, lit), Tasks(lit, p, 0), Tasks(lit, p, 1);
    forall z | 0 <= z < |ps| ensures Agrees(qs, before, z) && (z != p ==> Agrees(qs, after, z)) {
      CachedAgrees(ps, rank, sel, p, 0, z);
      if z != p {
        CachedAgrees(ps, rank, sel, p, 1, z);
      }
    }
    assert after == before[1 := after[1]];
    forall z | 0 <= z < |ps| && z !in starts ensures SameTasks(before, after, z) {
      EditConcerns(before, 1, after[1], z);
    }
    WalkAllSeen(ps, qs, [], after, starts[..k]);
    IdleStarts(qs, after, starts[..k]);
    WalkToSource(ps, qs, after, starts, Some(starts[k]), seen);
    assert starts[..k + 1][..k] == starts[..k] && starts[..k + 1][k] == starts[k];
    IdleRest(qs, after, starts, k + 1, |starts|);
    assert starts[..|starts|] == starts;
  }

  lemma ArrivesSomewhere(ps: Projects, id: Option<nat>, seen: set<nat>)
    requires Arrives(ps, id, seen)
    ensures id.Some? && id.value < |ps|
  {
  }

  lemma {:induction false} SameKids(ps: Projects, qs: Projects, z: nat, n: nat)
    requires SameLinks(ps, qs) && n <= |ps|
    ensures |ChildrenOf(ps, z, n)| == |ChildrenOf(qs, z, n)|
  {
    if n > 0 {
      SameKids(ps, qs, z, n - 1);
    }
  }

  lemma {:induction false} ArrivesSame(ps: Projects, qs: Projects, id: Option<nat>, seen: set<nat>)
    requires SameLinks(ps, qs)
    ensures Arrives(ps, id, seen) == Arrives(qs, id, seen)
    decreases Ids(ps) - seen
  {
    if id.Some? && id.value !in seen && id.value < |ps| {
      ArrivesSame(ps, qs, ps[id.value].parent, seen + {id.value});
    }
  }

  lemma {:induction false} LosesSame(ps: Projects, qs: Projects, starts: seq<nat>, id: Option<nat>, seen: set<nat>)
    requires SameLinks(ps, qs)
    ensures Loses(ps, starts, id, seen) == Loses(qs, starts, id, seen)
    decreases Ids(ps) - seen
  {
    hide Arrives;
    if id.Some? && id.value !in seen && id.value < |ps| {
      var p := id.value;
      SameKids(ps, qs, p, |ps|);
      ArrivesSame(ps, qs, ps[p].parent, seen + {p});
      LosesSame(ps, qs, starts, ps[p].parent, seen + {p});
    }
  }

  /**
   * For all acyclic links and all starts: one call repairs every change of the starts' tasks, over every
   * cache that agreed before it, exactly when no start's walk can lose one.
   */
  lemma RepairsEveryChangeIff(ps: Projects, starts: seq<nat>)
    requires Acyclic(ps)
    ensures RepairsEveryChange(ps, starts) <==> forall k | 0 <= k < |starts| :: !LosesAt(ps, starts, k)
  {
    hide Loses, AllAgree, OnlyTasksOf;
    if k :| 0 <= k < |starts| && LosesAt(ps, starts, k) {
      var qs, before, after := LossIsReached(ps, starts, k);
      assert !RepairsEveryChange(ps, starts);
    } else {
      var rank :| RanksUpwards(ps, rank);
      forall qs: Projects, before: seq<Task>, after: seq<Task> |
        SameLinks(ps, qs) && AllAgree(qs, before) && OnlyTasksOf(starts, before, after, |qs|)
        ensures AllAgree(WalkAll(qs, after, starts).projects, after)
      {
        forall k | 0 <= k < |starts| ensures !LosesAt(qs, starts, k) {
          WalkAllSeen(ps, qs, [], [], starts[..k]);
          assert !LosesAt(ps, starts, k);
          LosesSame(ps, qs, starts, Some(starts[k]), WalkAll(ps, [], starts[..k]).seen);
        }
        NothingLost(qs, before, after, starts, rank);
      }
    }
  }
}
