/**
 * The cached status and percentage of projects, kept up to date by walking from a changed project
 * to its ancestors. A project's id is its place in the store; one call runs undisturbed.
 */
module Rollup {
  import opened Wrappers

  datatype Status = Todo | InProgress | Done | Cancelled

  datatype Task = Task(projects: set<nat>, staged: bool, status: Status, percent: int)

  datatype Project = Project(parent: Option<nat>, staged: bool, doneOverride: bool, status: Status, percent: int)

  type Projects = seq<Project>

  // --- recomputation ---------------------------------------------------------------------------

  /** The children of `p` among the first `n` projects. */
  function ChildrenOf(ps: Projects, p: nat, n: nat): seq<Project>
    requires n <= |ps|
  {
    if n == 0 then []
    else ChildrenOf(ps, p, n - 1) + if ps[n - 1].parent == Some(p) && !ps[n - 1].staged then [ps[n - 1]] else []
  }

  /** The tasks of `p` that are not cancelled. */
  function LiveOf(ts: seq<Task>, p: nat): seq<Task> {
    if ts == [] then []
    else
      var t := ts[|ts| - 1];
      LiveOf(ts[..|ts| - 1], p) + if !t.staged && p in t.projects && !t.status.Cancelled? then [t] else []
  }

  function ProjectSum(ps: seq<Project>): int {
    if ps == [] then 0 else ProjectSum(ps[..|ps| - 1]) + ps[|ps| - 1].percent
  }

  function TaskSum(ts: seq<Task>): int {
    if ts == [] then 0 else TaskSum(ts[..|ts| - 1]) + ts[|ts| - 1].percent
  }

  /** sum / n rounded to the nearest integer, halves up */
  function Mean(sum: int, n: nat): int
    requires n > 0
  {
    (2 * sum + n) / (2 * n)
  }

  datatype Rollup = Rollup(status: Status, percent: int)

  /** Of a project without children, from its live tasks. */
  function OfTasks(live: seq<Task>): Rollup {
    Rollup(
      if live == [] then Todo
      else if forall t | t in live :: t.status.Done? then Done
      else if exists t | t in live :: !t.status.Todo? then InProgress
      else Todo,
      if live == [] then 0 else Mean(TaskSum(live), |live|))
  }

  function OfChildren(children: seq<Project>): Rollup
    requires children != []
  {
    var percent := Mean(ProjectSum(children), |children|);
    Rollup(if percent == 100 then Done else if percent > 0 then InProgress else Todo, percent)
  }

  function Computed(ps: Projects, ts: seq<Task>, p: nat): Rollup
    requires p < |ps|
  {
    var children := ChildrenOf(ps, p, |ps|);
    var r := if children == [] then OfTasks(LiveOf(ts, p)) else OfChildren(children);
    if ps[p].doneOverride then Rollup(Done, r.percent) else r
  }

  /** What is cached for `p` is what recomputation gives. */
  predicate Agrees(ps: Projects, ts: seq<Task>, p: nat)
    requires p < |ps|
  {
    Rollup(ps[p].status, ps[p].percent) == Computed(ps, ts, p)
  }

  predicate AllAgree(ps: Projects, ts: seq<Task>) {
    forall p | 0 <= p < |ps| :: Agrees(ps, ts, p)
  }

  function Refreshed(ps: Projects, ts: seq<Task>, p: nat): Projects
    requires p < |ps|
  {
    var r := Computed(ps, ts, p);
    ps[p := ps[p].(status := r.status, percent := r.percent)]
  }

  // --- what recomputation gives ----------------------------------------------------------------

  function Total(values: seq<int>): int {
    if values == [] then 0 else Total(values[..|values| - 1]) + values[|values| - 1]
  }

  /** The places of the tasks of `p` that are neither staged nor cancelled. */
  function Counting(ts: seq<Task>, p: nat): set<nat> {
    set i | 0 <= i < |ts| && p in ts[i].projects && !ts[i].staged && ts[i].status != Cancelled
  }

  /** The places of the projects under `p` that are not staged. */
  function Under(ps: Projects, p: nat): set<nat> {
    set i | 0 <= i < |ps| && ps[i].parent == Some(p) && !ps[i].staged
  }

  /** The percentages that count, with 0 at the other places. */
  function TaskShares(ts: seq<Task>, p: nat): seq<int> {
    seq(|ts|, i requires 0 <= i < |ts| => if i in Counting(ts, p) then ts[i].percent else 0)
  }

  function ProjectShares(ps: Projects, p: nat): seq<int> {
    seq(|ps|, i requires 0 <= i < |ps| => if i in Under(ps, p) then ps[i].percent else 0)
  }

  /** `q` is the integer nearest to sum / n, the larger one when two are. */
  predicate IsNearest(q: int, sum: int, n: nat) {
    (2 * q - 1) * n <= 2 * sum < (2 * q + 1) * n
  }

  /** With projects under it, a project takes the mean of their percentages, and its status from that. */
  predicate FromChildren(ps: Projects, p: nat, status: Status, percent: int)
    requires p < |ps|
  {
    && IsNearest(percent, Total(ProjectShares(ps, p)), |Under(ps, p)|)
    && status == if ps[p].doneOverride || percent == 100 then Done else if percent > 0 then InProgress else Todo
  }

  /** Without, it is done when it has tasks that count and all of these are, and in progress when one is not to do. */
  predicate FromTasks(ps: Projects, ts: seq<Task>, p: nat, status: Status, percent: int)
    requires p < |ps|
  {
    var counting := Counting(ts, p);
    && (status == Done <==> ps[p].doneOverride || (counting != {} && forall i | i in counting :: ts[i].status == Done))
    && (status == InProgress <==> status != Done && exists i | i in counting :: ts[i].status != Todo)
    && status != Cancelled
    && if counting == {} then percent == 0 else IsNearest(percent, Total(TaskShares(ts, p)), |counting|)
  }

  /** What the cache of a project has to hold. */
  predicate RollsUp(ps: Projects, ts: seq<Task>, p: nat, status: Status, percent: int)
    requires p < |ps|
  {
    if Under(ps, p) == {} then FromTasks(ps, ts, p, status, percent) else FromChildren(ps, p, status, percent)
  }

  lemma MeanIsNearest(q: int, sum: int, n: nat)
    requires n > 0
    ensures IsNearest(q, sum, n) <==> q == Mean(sum, n)
  {
    var d, m := 2 * n, Mean(sum, n);
    DivBounds(2 * sum + n, d);
    HalfProducts(q, n);
    if q > m {
      MulMonotone(m + 1, q, d);
    } else if q < m {
      MulMonotone(q + 1, m, d);
    }
  }

  lemma DivBounds(a: int, d: nat)
    requires d > 0
    ensures a / d * d <= a < (a / d + 1) * d
  {
  }

  lemma HalfProducts(q: int, n: nat)
    ensures (2 * q - 1) * n == q * (2 * n) - n && (2 * q + 1) * n == (q + 1) * (2 * n) - n
  {
  }

  lemma MulMonotone(a: int, b: int, d: nat)
    requires a <= b
    ensures a * d <= b * d
  {
  }

  lemma SharesSnoc(ts: seq<Task>, t: Task, p: nat)
    ensures var counts := p in t.projects && !t.staged && t.status != Cancelled;
            && Counting(ts + [t], p) == Counting(ts, p) + (if counts then {|ts|} else {})
            && |ts| !in Counting(ts, p)
            && Total(TaskShares(ts + [t], p)) == Total(TaskShares(ts, p)) + (if counts then t.percent else 0)
  {
    var more := TaskShares(ts + [t], p);
    assert Counting(ts + [t], p) ==
           Counting(ts, p) + if p in t.projects && !t.staged && t.status != Cancelled then {|ts|} else {};
    assert more[..|ts|] == TaskShares(ts, p);
  }

  lemma LiveSnoc(ts: seq<Task>, t: Task, p: nat)
    ensures var live := LiveOf(ts, p);
            if !t.staged && p in t.projects && !t.status.Cancelled? then
              LiveOf(ts + [t], p) == live + [t] && TaskSum(live + [t]) == TaskSum(live) + t.percent
            else LiveOf(ts + [t], p) == live
  {
    assert (ts + [t])[..|ts|] == ts;
    assert (LiveOf(ts, p) + [t])[..|LiveOf(ts, p)|] == LiveOf(ts, p);
  }

  /** The live tasks are those that count. */
  lemma {:induction false} LiveIs(ts: seq<Task>, p: nat)
    ensures |LiveOf(ts, p)| == |Counting(ts, p)| && TaskSum(LiveOf(ts, p)) == Total(TaskShares(ts, p))
  {
    if ts != [] {
      var front, t := ts[..|ts| - 1], ts[|ts| - 1];
      assert ts == front + [t];
      LiveIs(front, p);
      hide LiveOf, TaskShares, Counting, TaskSum, Total;
      LiveSnoc(front, t, p);
      SharesSnoc(front, t, p);
    }
  }

  lemma {:induction false} LiveAt(ts: seq<Task>, p: nat, t: Task)
    ensures t in LiveOf(ts, p) <==> t in ts && p in t.projects && !t.staged && t.status != Cancelled
  {
    if ts != [] {
      LiveAt(ts[..|ts| - 1], p, t);
      assert ts == ts[..|ts| - 1] + [ts[|ts| - 1]];
    }
  }

  lemma UnderSnoc(ps: Projects, p: nat, n: nat)
    requires n < |ps|
    ensures ps[..n + 1] == ps[..n] + [ps[n]]
    ensures var counts := ps[n].parent == Some(p) && !ps[n].staged;
            && Under(ps[..n + 1], p) == Under(ps[..n], p) + (if counts then {n} else {})
            && n !in Under(ps[..n], p)
            && Total(ProjectShares(ps[..n + 1], p)) ==
               Total(ProjectShares(ps[..n], p)) + (if counts then ps[n].percent else 0)
  {
    var more := ProjectShares(ps[..n + 1], p);
    assert Under(ps[..n + 1], p) ==
           Under(ps[..n], p) + if ps[n].parent == Some(p) && !ps[n].staged then {n} else {};
    assert more[..n] == ProjectShares(ps[..n], p);
  }

  lemma ChildrenSnoc(ps: Projects, p: nat, n: nat)
    requires n < |ps|
    ensures var children := ChildrenOf(ps, p, n);
            if ps[n].parent == Some(p) && !ps[n].staged then
              ChildrenOf(ps, p, n + 1) == children + [ps[n]] &&
              ProjectSum(children + [ps[n]]) == ProjectSum(children) + ps[n].percent
            else ChildrenOf(ps, p, n + 1) == children
  {
    assert (ChildrenOf(ps, p, n) + [ps[n]])[..|ChildrenOf(ps, p, n)|] == ChildrenOf(ps, p, n);
  }

  lemma {:induction false} ChildrenAre(ps: Projects, p: nat, n: nat)
    requires n <= |ps|
    ensures |ChildrenOf(ps, p, n)| == |Under(ps[..n], p)|
    ensures ProjectSum(ChildrenOf(ps, p, n)) == Total(ProjectShares(ps[..n], p))
  {
    if n > 0 {
      ChildrenAre(ps, p, n - 1);
      hide ChildrenOf, Under, ProjectShares, ProjectSum, Total;
      ChildrenSnoc(ps, p, n - 1);
      UnderSnoc(ps, p, n - 1);
    }
  }

  /** Recomputation gives what the cache has to hold. */
  lemma ComputedRollsUp(ps: Projects, ts: seq<Task>, p: nat)
    requires p < |ps|
    ensures RollsUp(ps, ts, p, Computed(ps, ts, p).status, Computed(ps, ts, p).percent)
  {
    var children, r := ChildrenOf(ps, p, |ps|), Computed(ps, ts, p);
    ChildrenAre(ps, p, |ps|);
    assert ps[..|ps|] == ps;
    hide ChildrenOf, IsNearest;
    if children == [] {
      TasksRollUp(ps, ts, p, r);
    } else {
      MeanIsNearest(r.percent, ProjectSum(children), |children|);
    }
  }

  lemma RollsUpOnce(ps: Projects, ts: seq<Task>, p: nat, a: Rollup, b: Rollup)
    requires p < |ps| && RollsUp(ps, ts, p, a.status, a.percent) && RollsUp(ps, ts, p, b.status, b.percent)
    ensures a == b
  {
    hide IsNearest;
    if Under(ps, p) != {} {
      NearestOnce(a.percent, b.percent, Total(ProjectShares(ps, p)), |Under(ps, p)|);
    } else if Counting(ts, p) != {} {
      NearestOnce(a.percent, b.percent, Total(TaskShares(ts, p)), |Counting(ts, p)|);
    }
  }

  lemma NearestOnce(a: int, b: int, sum: int, n: nat)
    requires n > 0
    ensures IsNearest(a, sum, n) && IsNearest(b, sum, n) ==> a == b
  {
    MeanIsNearest(a, sum, n);
    MeanIsNearest(b, sum, n);
  }

  /** A project agrees if and only if its cache holds what it has to. */
  lemma AgreesIff(ps: Projects, ts: seq<Task>, p: nat)
    requires p < |ps|
    ensures Agrees(ps, ts, p) <==> RollsUp(ps, ts, p, ps[p].status, ps[p].percent)
  {
    hide Computed, RollsUp;
    ComputedRollsUp(ps, ts, p);
    if RollsUp(ps, ts, p, ps[p].status, ps[p].percent) {
      RollsUpOnce(ps, ts, p, Rollup(ps[p].status, ps[p].percent), Computed(ps, ts, p));
    }
  }

  lemma TasksRollUp(ps: Projects, ts: seq<Task>, p: nat, r: Rollup)
    requires p < |ps|
    requires r.percent == OfTasks(LiveOf(ts, p)).percent
    requires r.status == if ps[p].doneOverride then Done else OfTasks(LiveOf(ts, p)).status
    ensures FromTasks(ps, ts, p, r.status, r.percent)
  {
    hide LiveOf, IsNearest, TaskShares;
    var live := LiveOf(ts, p);
    LiveIs(ts, p);
    forall t ensures t in live <==> exists i | i in Counting(ts, p) :: ts[i] == t {
      LiveAt(ts, p, t);
      if t in live {
        var i :| 0 <= i < |ts| && ts[i] == t;
        assert i in Counting(ts, p);
      }
    }
    if live != [] {
      MeanIsNearest(r.percent, TaskSum(live), |live|);
    }
  }

  // --- the walk --------------------------------------------------------------------------------

  datatype Walked = Walked(projects: Projects, seen: set<nat>)

  function Below(n: nat): (r: set<nat>)
    ensures forall p: nat :: p in r <==> p < n
  {
    if n == 0 then {} else Below(n - 1) + {n - 1}
  }

  function Ids(ps: Projects): set<nat> {
    Below(|ps|)
  }

  /** One start: refresh it and its ancestors until a root, a missing project or one already seen. */
  function Walk(ps: Projects, ts: seq<Task>, id: Option<nat>, seen: set<nat>): Walked
    decreases Ids(ps) - seen
  {
    if id.None? || id.value in seen then Walked(ps, seen)
    else if id.value >= |ps| then Walked(ps, seen + {id.value})
    else Walk(Refreshed(ps, ts, id.value), ts, ps[id.value].parent, seen + {id.value})
  }

  function WalkAll(ps: Projects, ts: seq<Task>, starts: seq<nat>): Walked {
    if starts == [] then Walked(ps, {})
    else
      var w := WalkAll(ps, ts, starts[..|starts| - 1]);
      Walk(w.projects, ts, Some(starts[|starts| - 1]), w.seen)
  }

  class Store {
    var projects: Projects
    const tasks: seq<Task>

    constructor (projects: Projects, tasks: seq<Task>)
      ensures this.projects == projects && this.tasks == tasks
    {
      this.projects, this.tasks := projects, tasks;
    }

    /** Terminates for any parent links. */
    method RecalculateProjects(starts: seq<nat>)
      modifies this
      ensures projects == WalkAll(old(projects), tasks, starts).projects
    {
      var seen: set<nat> := {};
      for i := 0 to |starts|
        invariant Walked(projects, seen) == WalkAll(old(projects), tasks, starts[..i])
      {
        assert starts[..i + 1][..i] == starts[..i];
        ghost var before := Walked(projects, seen);
        var id: Option<nat> := Some(starts[i]);
        while id.Some? && id.value !in seen
          invariant Walk(projects, tasks, id, seen) == Walk(before.projects, tasks, Some(starts[i]), before.seen)
          decreases Ids(projects) - seen, id.Some? && id.value !in seen
        {
          seen := seen + {id.value};
          if id.value >= |projects| {
            break;
          }
          var parent := projects[id.value].parent;
          RecalculateSingle(id.value);
          id := parent;
        }
      }
      assert starts[..|starts|] == starts;
    }

    method RecalculateSingle(id: nat)
      requires id < |projects|
      modifies this
      ensures projects == Refreshed(old(projects), tasks, id)
      ensures |projects| == |old(projects)|
      ensures RollsUp(old(projects), tasks, id, projects[id].status, projects[id].percent)
      ensures forall p | 0 <= p < |projects| && p != id :: projects[p] == old(projects)[p]
    {
      ComputedRollsUp(projects, tasks, id);
      hide RollsUp;
      var r;
      var children := FindChildren(id);
      if children == [] {
        var live := FindLive(id);
        r := RollUpTasks(live);
      } else {
        r := RollUpChildren(children);
      }
      var status := if projects[id].doneOverride then Done else r.status;
      projects := projects[id := projects[id].(status := status, percent := r.percent)];
    }

    static method RollUpTasks(live: seq<Task>) returns (r: Rollup)
      ensures r == OfTasks(live)
    {
      var sum := 0;
      for i := 0 to |live|
        invariant sum == TaskSum(live[..i])
      {
        assert live[..i + 1][..i] == live[..i];
        sum := sum + live[i].percent;
      }
      assert live[..|live|] == live;
      var percent := if |live| > 0 then Mean(sum, |live|) else 0;
      var status :=
        if |live| > 0 && forall t | t in live :: t.status.Done? then Done
        else if exists t | t in live :: !t.status.Todo? then InProgress
        else Todo;
      r := Rollup(status, percent);
    }

    static method RollUpChildren(children: seq<Project>) returns (r: Rollup)
      requires children != []
      ensures r == OfChildren(children)
    {
      var sum := 0;
      for i := 0 to |children|
        invariant sum == ProjectSum(children[..i])
      {
        assert children[..i + 1][..i] == children[..i];
        sum := sum + children[i].percent;
      }
      assert children[..|children|] == children;
      var percent := Mean(sum, |children|);
      r := Rollup(if percent == 100 then Done else if percent > 0 then InProgress else Todo, percent);
    }

    method FindChildren(id: nat) returns (children: seq<Project>)
      ensures children == ChildrenOf(projects, id, |projects|)
    {
      children := [];
      for i := 0 to |projects|
        invariant children == ChildrenOf(projects, id, i)
      {
        if projects[i].parent == Some(id) && !projects[i].staged {
          children := children + [projects[i]];
        }
      }
    }

    method FindLive(id: nat) returns (live: seq<Task>)
      ensures live == LiveOf(tasks, id)
    {
      live := [];
      for i := 0 to |tasks|
        invariant live == LiveOf(tasks[..i], id)
      {
        assert tasks[..i + 1][..i] == tasks[..i];
        if !tasks[i].staged && id in tasks[i].projects && !tasks[i].status.Cancelled? {
          live := live + [tasks[i]];
        }
      }
      assert tasks[..|tasks|] == tasks;
    }
  }

  // --- what a refresh disturbs -----------------------------------------------------------------

  lemma {:induction false} ChildrenUnchanged(ps: Projects, x: nat, y: Project, q: nat, n: nat)
    requires x < |ps| && n <= |ps|
    requires ps[x].parent != Some(q) && y.parent == ps[x].parent
    ensures ChildrenOf(ps[x := y], q, n) == ChildrenOf(ps, q, n)
  {
    if n > 0 {
      ChildrenUnchanged(ps, x, y, q, n - 1);
    }
  }

  /** Refreshing `p` makes it agree, unless it is its own parent, and disturbs only its parent. */
  lemma RefreshDisturbs(ps: Projects, ts: seq<Task>, p: nat, q: nat)
    requires p < |ps| && q < |ps|
    requires Agrees(ps, ts, q) || q == p
    requires ps[p].parent != Some(q)
    ensures Agrees(Refreshed(ps, ts, p), ts, q)
  {
    var r := Computed(ps, ts, p);
    ChildrenUnchanged(ps, p, ps[p].(status := r.status, percent := r.percent), q, |ps|);
  }

  predicate SameLinks(ps: Projects, qs: Projects) {
    |ps| == |qs| && forall p | 0 <= p < |ps| ::
      ps[p].parent == qs[p].parent && ps[p].staged == qs[p].staged && ps[p].doneOverride == qs[p].doneOverride
  }

  /** The project already seen that the walk stops at, when it has walked at least one project. */
  function StopsAt(ps: Projects, id: Option<nat>, seen: set<nat>): set<nat>
    decreases Ids(ps) - seen
  {
    if id.None? || id.value in seen || id.value >= |ps| then {}
    else
      var next, after := ps[id.value].parent, seen + {id.value};
      if next.Some? && next.value in after then {next.value} else StopsAt(ps, next, after)
  }

  lemma {:induction false} StopsSame(ps: Projects, qs: Projects, id: Option<nat>, seen: set<nat>)
    requires SameLinks(ps, qs)
    ensures StopsAt(ps, id, seen) == StopsAt(qs, id, seen)
    decreases Ids(ps) - seen
  {
    if id.Some? && id.value !in seen && id.value < |ps| {
      StopsSame(ps, qs, ps[id.value].parent, seen + {id.value});
    }
  }

  /** All projects agree but those in `stale` and the one given. */
  predicate AgreeBut(ps: Projects, ts: seq<Task>, stale: set<nat>, id: Option<nat>) {
    forall p | 0 <= p < |ps| && p !in stale && Some(p) != id :: Agrees(ps, ts, p)
  }

  /** A walk repairs all it walks; what it may leave stale is the seen project it stops at. */
  lemma {:induction false} WalkRepairs(ps: Projects, ts: seq<Task>, id: Option<nat>, seen: set<nat>, stale: set<nat>)
    requires AgreeBut(ps, ts, stale, id)
    requires id.Some? ==> id.value !in seen
    ensures var w := Walk(ps, ts, id, seen);
            && SameLinks(ps, w.projects) && seen <= w.seen && (id.Some? ==> id.value in w.seen)
            && AgreeBut(w.projects, ts, stale - (w.seen - seen) + StopsAt(ps, id, seen), None)
    decreases Ids(ps) - seen
  {
    hide ChildrenOf, Agrees, OfTasks, LiveOf;
    if id.Some? && id.value < |ps| {
      var p := id.value;
      var next, qs, after := ps[p].parent, Refreshed(ps, ts, p), seen + {p};
      forall q | 0 <= q < |qs| && q !in stale - {p} && Some(q) != next ensures Agrees(qs, ts, q) {
        RefreshDisturbs(ps, ts, p, q);
      }
      StopsSame(ps, qs, next, after);
      if next.Some? && next.value in after {
        assert AgreeBut(qs, ts, stale - {p} + {next.value}, None);
      } else {
        WalkRepairs(qs, ts, next, after, stale - {p});
        var w := Walk(qs, ts, next, after);
        assert stale - {p} - (w.seen - after) == stale - (w.seen - seen);
      }
    }
  }

  // --- one start -------------------------------------------------------------------------------

  /** No project is its own ancestor: `rank` grows towards the roots. */
  predicate RanksUpwards(ps: Projects, rank: seq<nat>) {
    |rank| == |ps| && forall p | 0 <= p < |ps| ::
      ps[p].parent.Some? && ps[p].parent.value < |ps| ==> rank[p] < rank[ps[p].parent.value]
  }

  ghost predicate Acyclic(ps: Projects) {
    exists rank :: RanksUpwards(ps, rank)
  }

  lemma {:induction false} NeverStops(ps: Projects, rank: seq<nat>, id: Option<nat>, seen: set<nat>)
    requires RanksUpwards(ps, rank)
    requires forall s | s in seen && s < |ps| && id.Some? && id.value < |ps| :: rank[s] < rank[id.value]
    requires forall s | s in seen :: s < |ps|
    ensures StopsAt(ps, id, seen) == {}
    decreases Ids(ps) - seen
  {
    if id.Some? && id.value !in seen && id.value < |ps| {
      NeverStops(ps, rank, ps[id.value].parent, seen + {id.value});
    }
  }

  /** The project `p` has the same live tasks in both. */
  predicate SameTasks(ts: seq<Task>, us: seq<Task>, p: nat) {
    LiveOf(ts, p) == LiveOf(us, p)
  }

  /** Editing a task only concerns the projects it was in and those it is in now. */
  lemma {:induction false} EditConcerns(ts: seq<Task>, i: nat, t: Task, p: nat)
    requires i < |ts| && p !in ts[i].projects + t.projects
    ensures SameTasks(ts, ts[i := t], p)
  {
    var n := |ts| - 1;
    if i < n {
      EditConcerns(ts[..n], i, t, p);
      assert ts[i := t][..n] == ts[..n][i := t];
    } else {
      assert ts[i := t][..n] == ts[..n];
    }
  }

  /**
   * All caches agreed before the tasks of one project changed: after `RecalculateProjects` on that
   * project they agree again, for any acyclic links.
   */
  lemma OneStartRepairs(ps: Projects, before: seq<Task>, after: seq<Task>, start: nat)
    requires Acyclic(ps) && AllAgree(ps, before)
    requires forall p | 0 <= p < |ps| && p != start :: SameTasks(before, after, p)
    ensures var w := WalkAll(ps, after, [start]);
            SameLinks(ps, w.projects) && AllAgree(w.projects, after)
  {
    var rank :| RanksUpwards(ps, rank);
    forall p | 0 <= p < |ps| && p != start ensures Agrees(ps, after, p) {
      assert Agrees(ps, before, p) && SameTasks(before, after, p);
    }
    var none: seq<nat> := [];
    assert [start][..0] == none;
    assert WalkAll(ps, after, [start]) == Walk(ps, after, Some(start), {});
    NeverStops(ps, rank, Some(start), {});
    WalkRepairs(ps, after, Some(start), {}, {});
  }

  lemma {:induction false} SameChildren(ps: Projects, qs: Projects, p: nat, n: nat)
    requires SameLinks(ps, qs) && n <= |ps|
    requires forall c | 0 <= c < n && ps[c].parent == Some(p) && !ps[c].staged :: ps[c].percent == qs[c].percent
    ensures var a, b := ChildrenOf(ps, p, n), ChildrenOf(qs, p, n);
            |a| == |b| && ProjectSum(a) == ProjectSum(b)
  {
    if n > 0 {
      SameChildren(ps, qs, p, n - 1);
      AddChild(ps, p, n);
      AddChild(qs, p, n);
    }
  }

  lemma AddChild(ps: Projects, p: nat, n: nat)
    requires 0 < n <= |ps|
    ensures var c, front := ps[n - 1], ChildrenOf(ps, p, n - 1);
            && |ChildrenOf(ps, p, n)| == |front| + (if c.parent == Some(p) && !c.staged then 1 else 0)
            && ProjectSum(ChildrenOf(ps, p, n)) ==
               ProjectSum(front) + (if c.parent == Some(p) && !c.staged then c.percent else 0)
  {
    SumPush(ChildrenOf(ps, p, n - 1), ps[n - 1]);
    assert ChildrenOf(ps, p, n - 1) + [] == ChildrenOf(ps, p, n - 1);
  }

  lemma SumPush(children: seq<Project>, c: Project)
    ensures ProjectSum(children + [c]) == ProjectSum(children) + c.percent
  {
    assert (children + [c])[..|children|] == children;
  }

  /** Over acyclic links only one cache agrees with the tasks. */
  lemma {:induction false} AgreementIsUnique(ps: Projects, qs: Projects, ts: seq<Task>, rank: seq<nat>, p: nat)
    requires RanksUpwards(ps, rank) && SameLinks(ps, qs) && AllAgree(ps, ts) && AllAgree(qs, ts) && p < |ps|
    ensures ps[p] == qs[p]
    decreases rank[p]
  {
    forall c | 0 <= c < |ps| && ps[c].parent == Some(p) ensures ps[c].percent == qs[c].percent {
      AgreementIsUnique(ps, qs, ts, rank, c);
    }
    SameChildren(ps, qs, p, |ps|);
    assert Agrees(ps, ts, p) && Agrees(qs, ts, p);
  }

  /** The walk from one start leaves exactly the cache that recomputing everything would. */
  lemma WalkIsRecomputation(ps: Projects, before: seq<Task>, after: seq<Task>, start: nat, full: Projects)
    requires Acyclic(ps) && AllAgree(ps, before)
    requires forall p | 0 <= p < |ps| && p != start :: SameTasks(before, after, p)
    requires SameLinks(ps, full) && AllAgree(full, after)
    ensures WalkAll(ps, after, [start]).projects == full
  {
    OneStartRepairs(ps, before, after, start);
    var w := WalkAll(ps, after, [start]);
    var rank :| RanksUpwards(ps, rank);
    assert RanksUpwards(w.projects, rank);
    forall p | 0 <= p < |ps| ensures w.projects[p] == full[p] {
      AgreementIsUnique(w.projects, full, after, rank, p);
    }
  }

  // --- several starts --------------------------------------------------------------------------

  /** The projects that the walks of later starts stop at. */
  function AllStops(ps: Projects, ts: seq<Task>, starts: seq<nat>): set<nat> {
    if starts == [] then {}
    else
      var front := starts[..|starts| - 1];
      AllStops(ps, ts, front) + StopsAt(ps, Some(starts[|starts| - 1]), WalkAll(ps, ts, front).seen)
  }

  /** With several starts, only a project that a later walk stopped at can be left stale. */
  lemma {:induction false} SeveralStartsRepair(ps: Projects, ts: seq<Task>, starts: seq<nat>, stale: set<nat>)
    requires AgreeBut(ps, ts, stale, None)
    ensures var w := WalkAll(ps, ts, starts);
            && SameLinks(ps, w.projects)
            && AgreeBut(w.projects, ts, (stale - w.seen) + AllStops(ps, ts, starts), None)
            && forall s | s in starts :: s in w.seen
  {
    if starts != [] {
      var front, s := starts[..|starts| - 1], starts[|starts| - 1];
      SeveralStartsRepair(ps, ts, front, stale);
      var v, w := WalkAll(ps, ts, front), WalkAll(ps, ts, starts);
      assert forall t | t in starts :: t in front || t == s;
      if s !in v.seen {
        var left := (stale - v.seen) + AllStops(ps, ts, front);
        WalkRepairs(v.projects, ts, Some(s), v.seen, left);
        StopsSame(ps, v.projects, Some(s), v.seen);
      }
    }
  }

  /** When no walk runs into an earlier one, several changed projects are repaired in one call. */
  lemma SeparateStartsRepair(ps: Projects, before: seq<Task>, after: seq<Task>, starts: seq<nat>)
    requires AllAgree(ps, before)
    requires forall p | 0 <= p < |ps| && p !in starts :: SameTasks(before, after, p)
    requires AllStops(ps, after, starts) == {}
    ensures AllAgree(WalkAll(ps, after, starts).projects, after)
  {
    var stale := set s | s in starts;
    forall p | 0 <= p < |ps| && p !in stale ensures Agrees(ps, after, p) {
      assert Agrees(ps, before, p) && SameTasks(before, after, p);
    }
    SeveralStartsRepair(ps, after, starts, stale);
    assert stale - WalkAll(ps, after, starts).seen == {};
  }

  lemma LiveOfOne(t: Task, p: nat)
    requires p in t.projects && !t.staged && (t.status.Todo? || t.status.Done?)
    ensures OfTasks(LiveOf([t], p)) == Rollup(t.status, t.percent)
  {
    assert [t][..0] == [];
    assert LiveOf([t], p) == [t];
    assert TaskSum([t]) == t.percent;
  }

  lemma RefreshLeaf(ps: Projects, ts: seq<Task>, r: Rollup, p: nat)
    requires p < |ps| && |ChildrenOf(ps, p, |ps|)| == 0 && !ps[p].doneOverride
    requires r == OfTasks(LiveOf(ts, p))
    ensures Computed(ps, ts, p) == r
  {
  }

  lemma ChildrenOfTwo(ps: Projects, a: Project, b: Project, c: Project)
    requires ps == [a, b, c]
    requires a.parent == b.parent == Some(2) && c.parent == None && !a.staged && !b.staged
    ensures ChildrenOf(ps, 2, |ps|) == [a, b]
    ensures |ChildrenOf(ps, 0, |ps|)| == |ChildrenOf(ps, 1, |ps|)| == 0
  {
    assert ChildrenOf(ps, 2, 0) == ChildrenOf(ps, 0, 0) == ChildrenOf(ps, 1, 0) == [];
    assert ChildrenOf(ps, 2, 1) == [a];
    assert ChildrenOf(ps, 2, 2) == [a, b];
    assert |ChildrenOf(ps, 0, 1)| == |ChildrenOf(ps, 1, 1)| == 0;
    assert |ChildrenOf(ps, 0, 2)| == |ChildrenOf(ps, 1, 2)| == 0;
  }

  lemma OfTwo(a: Project, b: Project)
    ensures OfChildren([a, b]).percent == (2 * (a.percent + b.percent) + 2) / 4
    ensures a.percent == b.percent == 0 ==> OfChildren([a, b]) == Rollup(Todo, 0)
  {
    assert [a, b][..1] == [a] && [a][..0] == [];
    assert ProjectSum([a]) == a.percent;
  }

  /** One of two projects under a third, without tasks of its own but `t`. */
  function Leaf(status: Status, percent: int): Project {
    Project(Some(2), false, false, status, percent)
  }

  function Root(status: Status, percent: int): Project {
    Project(None, false, false, status, percent)
  }

  function Family(a: Project, b: Project, c: Project): Projects {
    [a, b, c]
  }

  lemma LeafOfFamily(a: Project, b: Project, c: Project, t: Task, p: nat)
    requires a.parent == b.parent == Some(2) && c.parent == None && !a.staged && !b.staged
    requires p < 2 && p in t.projects && !t.staged && (t.status.Todo? || t.status.Done?)
    requires !a.doneOverride && !b.doneOverride
    ensures Computed(Family(a, b, c), [t], p) == Rollup(t.status, t.percent)
  {
    hide ChildrenOf, OfTasks, LiveOf, Computed;
    ChildrenOfTwo(Family(a, b, c), a, b, c);
    LiveOfOne(t, p);
    RefreshLeaf(Family(a, b, c), [t], Rollup(t.status, t.percent), p);
  }

  lemma RootOfFamily(a: Project, b: Project, c: Project, ts: seq<Task>)
    requires a.parent == b.parent == Some(2) && c.parent == None && !a.staged && !b.staged && !c.doneOverride
    ensures Computed(Family(a, b, c), ts, 2) == OfChildren([a, b])
  {
    ChildrenOfTwo(Family(a, b, c), a, b, c);
  }

  lemma FirstWalk(ts: seq<Task>, a: Projects, b: Projects, c: Projects)
    requires |a| == 3 && a[0].parent == Some(2) && a[2].parent == None
    requires b == Refreshed(a, ts, 0) && c == Refreshed(b, ts, 2)
    ensures WalkAll(a, ts, [0]) == Walked(c, {0, 2})
  {
    assert Walk(c, ts, None, {0, 2}) == Walked(c, {0, 2});
    assert Walk(b, ts, Some(2), {0}) == Walk(c, ts, None, {0} + {2});
    assert Walk(a, ts, Some(0), {}) == Walk(b, ts, Some(2), {} + {0});
    var none: seq<nat> := [];
    assert [0][..0] == none;
  }

  lemma SecondWalk(a: Projects, ts: seq<Task>, c: Projects, d: Projects)
    requires |c| == 3 && c[1].parent == Some(2) && d == Refreshed(c, ts, 1)
    requires WalkAll(a, ts, [0]) == Walked(c, {0, 2})
    ensures WalkAll(a, ts, [0, 1]) == Walked(d, {0, 1, 2})
  {
    assert Walk(d, ts, Some(2), {0, 2} + {1}) == Walked(d, {0, 2} + {1});
    assert [0, 1][..1] == [0];
  }

  lemma SharedParentBefore(open: Task)
    requires open == Task({0, 1}, false, Todo, 0)
    ensures AllAgree(Family(Leaf(Todo, 0), Leaf(Todo, 0), Root(Todo, 0)), [open])
  {
    var leaf, root := Leaf(Todo, 0), Root(Todo, 0);
    LeafOfFamily(leaf, leaf, root, open, 0);
    LeafOfFamily(leaf, leaf, root, open, 1);
    RootOfFamily(leaf, leaf, root, [open]);
    OfTwo(leaf, leaf);
    var a := Family(leaf, leaf, root);
    forall p | 0 <= p < |a| ensures Agrees(a, [open], p) {
      assert p == 0 || p == 1 || p == 2;
    }
  }

  lemma SharedParentAfter(finished: Task) returns (d: Projects)
    requires finished == Task({0, 1}, false, Done, 100)
    ensures d == WalkAll(Family(Leaf(Todo, 0), Leaf(Todo, 0), Root(Todo, 0)), [finished], [0, 1]).projects
    ensures |d| == 3 && !Agrees(d, [finished], 2)
  {
    var old0, new0, ts := Leaf(Todo, 0), Leaf(Done, 100), [finished];
    LeafOfFamily(old0, old0, Root(Todo, 0), finished, 0);
    var a, b := Family(old0, old0, Root(Todo, 0)), Family(new0, old0, Root(Todo, 0));
    assert Refreshed(a, ts, 0) == b;
    RootOfFamily(new0, old0, Root(Todo, 0), ts);
    OfTwo(new0, old0);
    var c := Family(new0, old0, Root(InProgress, 50));
    assert Refreshed(b, ts, 2) == c;
    FirstWalk(ts, a, b, c);
    LeafOfFamily(new0, old0, Root(InProgress, 50), finished, 1);
    d := Family(new0, new0, Root(InProgress, 50));
    assert Refreshed(c, ts, 1) == d;
    SecondWalk(a, ts, c, d);
    RootOfFamily(new0, new0, Root(InProgress, 50), ts);
    OfTwo(new0, new0);
  }

  /** A task in two projects that share a parent: the parent misses the second one's change. */
  lemma SharedParentIsLeftStale(open: Task, finished: Task)
    requires open == Task({0, 1}, false, Todo, 0) && finished == Task({0, 1}, false, Done, 100)
    ensures var ps := Family(Leaf(Todo, 0), Leaf(Todo, 0), Root(Todo, 0));
            && Acyclic(ps) && AllAgree(ps, [open])
            && !AllAgree(WalkAll(ps, [finished], [0, 1]).projects, [finished])
  {
    assert RanksUpwards(Family(Leaf(Todo, 0), Leaf(Todo, 0), Root(Todo, 0)), [0, 0, 1]);
    SharedParentBefore(open);
    var d := SharedParentAfter(finished);
    assert !Agrees(d, [finished], 2);
  }
}
