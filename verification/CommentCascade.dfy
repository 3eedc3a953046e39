/**
 * Deleting a thread while comments are created: finding the replies to a comment, going down to one of
 * them and deleting a comment are separate steps, and a creation is written some time after its check.
 */
module CommentCascade {
  import opened Wrappers
  import opened Comments

  /** A call of the recursion: before its search for replies, or with the replies still to be deleted. */
  datatype Frame = Visit(id: nat) | Open(id: nat, todo: set<nat>)

  datatype State = State(
    comments: Comments,
    made: Comments,       // what there would be without the deletion
    past: set<Comments>,  // what creations may have been checked against
    stack: seq<Frame>
  )

  datatype Event =
    | Find
    | Descend(c: nat)
    | Remove
    | Insert(id: nat, r: Request, checked: Comments)

  function Top(s: State): Frame
    requires s.stack != []
  {
    s.stack[|s.stack| - 1]
  }

  ghost predicate Known(s: State, id: nat) {
    id in s.made || exists p :: p in s.past && id in p
  }

  ghost predicate Enabled(s: State, e: Event) {
    match e
    case Find => s.stack != [] && Top(s).Visit?
    case Descend(c) => s.stack != [] && Top(s).Open? && c in Top(s).todo
    case Remove => s.stack != [] && Top(s).Open? && Top(s).todo == {}
    case Insert(id, r, checked) =>
      checked in s.past && Refusal(checked, r).None? && CleanPath(Normalized(r.path)) && !Known(s, id)
  }

  ghost function Apply(s: State, e: Event): State
    requires Enabled(s, e)
  {
    match e
    case Find =>
      var id := Top(s).id;
      s.(stack := s.stack[..|s.stack| - 1] + [Open(id, set c | c in s.comments && IsReply(s.comments, c, id))])
    case Descend(c) =>
      s.(stack := s.stack[..|s.stack| - 1] + [Open(Top(s).id, Top(s).todo - {c}), Visit(c)])
    case Remove =>
      var left := s.comments - {Top(s).id};
      s.(comments := left, past := s.past + {left}, stack := s.stack[..|s.stack| - 1])
    case Insert(id, r, _) =>
      var more := s.comments[id := New(r)];
      s.(comments := more, made := s.made[id := New(r)], past := s.past + {more})
  }

  ghost predicate Next(s: State, e: Event, t: State) {
    Enabled(s, e) && t == Apply(s, e)
  }

  ghost predicate Run(s: State, events: seq<Event>, t: State) {
    if events == [] then s == t
    else
      var before := events[..|events| - 1];
      exists u :: Run(s, before, u) && Next(u, events[|events| - 1], t)
  }

  /** The deletion of `root` begins; creations may have been checked before. */
  ghost predicate Init(s: State, root: nat) {
    && Valid(s.comments) && s.made == s.comments && root in s.comments && s.stack == [Visit(root)]
    && forall p | p in s.past :: Valid(p) && Agree(p, s.comments)
  }

  /** The replies to this comment have been searched for, and it is not deleted yet. */
  ghost predicate IsOpen(s: State, id: nat) {
    exists f :: f in s.stack && f.Open? && f.id == id
  }

  /** A creation replies to nothing, or to a comment that is still there and not searched for replies yet. */
  ghost predicate InTime(s: State, e: Event) {
    e.Insert? && e.r.parent.Some? ==> e.r.parent.value in s.comments && !IsOpen(s, e.r.parent.value)
  }

  ghost predicate AllInTime(s: State, events: seq<Event>, t: State) {
    if events == [] then s == t
    else
      var before, e := events[..|events| - 1], events[|events| - 1];
      exists u :: AllInTime(s, before, u) && Next(u, e, t) && InTime(u, e)
  }

  // --- the stack -------------------------------------------------------------------------------

  ghost predicate Within(a: Comments, b: Comments) {
    forall x | x in a :: x in b && a[x] == b[x]
  }

  /** Frame i is of a comment that is there, under the one before it; its replies left are there as well. */
  ghost predicate FrameFits(s: State, i: nat)
    requires i < |s.stack|
  {
    var f := s.stack[i];
    && f.id in s.comments
    && (i > 0 ==> s.comments[f.id].parent == Some(s.stack[i - 1].id))
    && (i < |s.stack| - 1 ==> f.Open?)
    && (f.Open? ==> forall c | c in f.todo ::
          IsReply(s.comments, c, f.id) && (i < |s.stack| - 1 ==> c != s.stack[i + 1].id))
  }

  ghost predicate StackFits(s: State, root: nat, n: nat) {
    && Within(s.comments, s.made) && LevelIs(s.made, root, n)
    && (s.stack == [] ==> root !in s.comments)
    && (s.stack != [] ==> s.stack[0].id == root)
    && forall i | 0 <= i < |s.stack| :: FrameFits(s, i)
  }

  lemma {:induction false} StackLevels(s: State, root: nat, n: nat, i: nat)
    requires StackFits(s, root, n) && i < |s.stack|
    ensures LevelIs(s.made, s.stack[i].id, n + i)
  {
    assert FrameFits(s, i);
    if i > 0 {
      StackLevels(s, root, n, i - 1);
    }
  }

  /** No comment is on the stack twice. */
  lemma StackApart(s: State, root: nat, n: nat, i: nat, j: nat)
    requires StackFits(s, root, n) && i < |s.stack| && j < |s.stack| && s.stack[i].id == s.stack[j].id
    ensures i == j
  {
    StackLevels(s, root, n, i);
    StackLevels(s, root, n, j);
    LevelOnce(s.made, s.stack[i].id, n + i, n + j);
  }

  lemma {:induction false} LevelGrows(s: Comments, id: nat, c: Comment, x: nat, n: nat)
    requires id !in s && LevelIs(s, x, n)
    ensures LevelIs(s[id := c], x, n)
    decreases n
  {
    if s[x].parent.Some? {
      LevelGrows(s, id, c, s[x].parent.value, n - 1);
    }
  }

  lemma InsertFits(s: State, root: nat, n: nat, e: Event)
    requires StackFits(s, root, n) && Enabled(s, e) && e.Insert?
    ensures StackFits(Apply(s, e), root, n)
  {
    var t := Apply(s, e);
    LevelGrows(s.made, e.id, New(e.r), root, n);
    forall i | 0 <= i < |t.stack| ensures FrameFits(t, i) {
      assert FrameFits(s, i);
    }
  }

  lemma FindFits(s: State, root: nat, n: nat)
    requires StackFits(s, root, n) && Enabled(s, Find)
    ensures StackFits(Apply(s, Find), root, n)
  {
    var t := Apply(s, Find);
    forall i | 0 <= i < |t.stack| ensures FrameFits(t, i) {
      assert FrameFits(s, i);
    }
  }

  lemma DescendFits(s: State, root: nat, n: nat, c: nat)
    requires StackFits(s, root, n) && Enabled(s, Descend(c))
    ensures StackFits(Apply(s, Descend(c)), root, n)
  {
    var t, last := Apply(s, Descend(c)), |s.stack| - 1;
    assert FrameFits(s, last);
    forall i | 0 <= i < |t.stack| ensures FrameFits(t, i) {
      if i <= last {
        assert FrameFits(s, i);
      }
    }
  }

  lemma RemoveFits(s: State, root: nat, n: nat)
    requires StackFits(s, root, n) && Enabled(s, Remove)
    ensures StackFits(Apply(s, Remove), root, n)
  {
    var t, last := Apply(s, Remove), |s.stack| - 1;
    forall i | 0 <= i < |t.stack| ensures FrameFits(t, i) {
      assert FrameFits(s, i) && FrameFits(s, last);
      if s.stack[i].id == s.stack[last].id {
        StackApart(s, root, n, i, last);
      }
      if s.stack[i].id == s.stack[last - 1].id {
        StackApart(s, root, n, i, last - 1);
      }
    }
  }

  lemma StepFits(s: State, e: Event, root: nat, n: nat)
    requires StackFits(s, root, n) && Enabled(s, e)
    ensures StackFits(Apply(s, e), root, n)
  {
    match e
    case Find => FindFits(s, root, n);
    case Descend(c) => DescendFits(s, root, n, c);
    case Remove => RemoveFits(s, root, n);
    case Insert(_, _, _) => InsertFits(s, root, n, e);
  }

  // --- a reply that came too late --------------------------------------------------------------

  /** The reply x is there and will not be found, and what it answers is gone or about to go. */
  ghost predicate Stray(s: State, x: nat) {
    && x in s.comments && s.comments[x].parent.Some?
    && (forall f | f in s.stack :: f.id != x && (f.Open? ==> x !in f.todo))
    && var p := s.comments[x].parent.value;
       Known(s, p) && (p !in s.comments || IsOpen(s, p))
  }

  lemma LateIsStray(s: State, e: Event, root: nat, n: nat)
    requires StackFits(s, root, n) && Enabled(s, e) && !InTime(s, e)
    ensures Stray(Apply(s, e), e.id)
  {
    var t, p := Apply(s, e), e.r.parent.value;
    assert p in e.checked;
    forall f | f in t.stack ensures f.id != e.id && (f.Open? ==> e.id !in f.todo) {
      var i :| 0 <= i < |s.stack| && s.stack[i] == f;
      assert FrameFits(s, i);
    }
    if IsOpen(s, p) {
      var f :| f in s.stack && f.Open? && f.id == p;
      assert f in t.stack;
    }
  }

  lemma StaysKnown(s: State, e: Event, p: nat)
    requires Enabled(s, e) && Known(s, p)
    ensures Known(Apply(s, e), p)
  {
    if p !in s.made {
      var q :| q in s.past && p in q;
      assert q in Apply(s, e).past;
    }
  }

  /** A step other than a deletion leaves open what is open. */
  lemma StaysOpen(s: State, e: Event, root: nat, n: nat, p: nat)
    requires StackFits(s, root, n) && Enabled(s, e) && IsOpen(s, p)
    ensures IsOpen(Apply(s, e), p) || p !in Apply(s, e).comments
  {
    var t := Apply(s, e);
    var f :| f in s.stack && f.Open? && f.id == p;
    var i :| 0 <= i < |s.stack| && s.stack[i] == f;
    if i < |s.stack| - 1 || e.Insert? {
      assert t.stack[i] == f;
    } else if e.Descend? {
      assert t.stack[i].Open? && t.stack[i].id == p;
    }
  }

  lemma StrayStays(s: State, e: Event, root: nat, n: nat, x: nat)
    requires StackFits(s, root, n) && Enabled(s, e) && Stray(s, x)
    ensures Stray(Apply(s, e), x)
  {
    var t, p := Apply(s, e), s.comments[x].parent.value;
    StaysKnown(s, e, p);
    if IsOpen(s, p) {
      StaysOpen(s, e, root, n, p);
    }
    StrayUnfound(s, e, root, n, x);
  }

  lemma StrayUnfound(s: State, e: Event, root: nat, n: nat, x: nat)
    requires StackFits(s, root, n) && Enabled(s, e) && Stray(s, x)
    ensures x in Apply(s, e).comments
    ensures forall f | f in Apply(s, e).stack :: f.id != x && (f.Open? ==> x !in f.todo)
  {
    if e.Find? {
      var last, p := |s.stack| - 1, s.comments[x].parent.value;
      assert FrameFits(s, last);
      if p == s.stack[last].id {
        var f :| f in s.stack && f.Open? && f.id == p;
        var i :| 0 <= i < |s.stack| && s.stack[i] == f;
        StackApart(s, root, n, i, last);
      }
    }
  }

  lemma {:induction false} StrayForever(s: State, events: seq<Event>, t: State, root: nat, n: nat)
    requires StackFits(s, root, n) && Run(s, events, t)
    ensures StackFits(t, root, n)
    ensures AllInTime(s, events, t) || exists x :: Stray(t, x)
    decreases |events|
  {
    hide Enabled, Apply, StackFits, Stray, InTime;
    if events != [] {
      var before, e := events[..|events| - 1], events[|events| - 1];
      var u :| Run(s, before, u) && Next(u, e, t);
      StrayForever(s, before, u, root, n);
      StepFits(u, e, root, n);
      if x :| Stray(u, x) {
        StrayStays(u, e, root, n, x);
      } else if !InTime(u, e) {
        LateIsStray(u, e, root, n);
      }
    }
  }

  lemma StrayIsOrphan(s: State, x: nat)
    requires Stray(s, x) && s.stack == []
    ensures !Valid(s.comments)
  {
    var p := s.comments[x].parent.value;
    forall n: nat ensures !LevelIs(s.comments, x, n) {
      assert n > 0 ==> !LevelIs(s.comments, p, n - 1);
    }
    assert !HasLevel(s.comments, x);
  }

  // --- creations in time -----------------------------------------------------------------------

  /** Every reply to an open comment is still to be deleted. */
  ghost predicate Complete(s: State) {
    forall i, c | 0 <= i < |s.stack| && s.stack[i].Open? && IsReply(s.comments, c, s.stack[i].id) ::
      c in s.stack[i].todo || (i < |s.stack| - 1 && s.stack[i + 1].id == c)
  }

  /** Only comments under `root` are deleted, and only those are on the stack. */
  ghost predicate OnlyUnder(s: State, root: nat) {
    && (forall x | x in s.made && x !in s.comments :: Under(s.made, x, root))
    && (forall f | f in s.stack :: Under(s.made, f.id, root))
  }

  ghost predicate PastAgrees(s: State) {
    forall p | p in s.past :: Valid(p) && Agree(p, s.made)
  }

  ghost predicate Sound(s: State, root: nat, n: nat) {
    && Valid(s.comments) && Valid(s.made) && StackFits(s, root, n)
    && Complete(s) && OnlyUnder(s, root) && PastAgrees(s)
  }

  lemma SoundParts(s: State, root: nat, n: nat)
    requires Sound(s, root, n)
    ensures StackFits(s, root, n) && Valid(s.comments)
  {
  }

  lemma InitSound(s: State, root: nat) returns (n: nat)
    requires Init(s, root)
    ensures Sound(s, root, n)
  {
    n := LevelOf(s.comments, root);
    UnderParent(s.made, root, n, root);
    assert FrameFits(s, 0);
  }

  lemma {:induction false} AncestryGrows(s: Comments, id: nat, c: Comment, x: nat, m: nat, n: nat)
    requires id !in s && LevelIs(s, x, m)
    ensures Ancestry(s[id := c], x, n) == Ancestry(s, x, n)
    decreases n
  {
    if n > 0 && s[x].parent.Some? {
      AncestryGrows(s, id, c, s[x].parent.value, m - 1, n - 1);
    }
  }

  lemma InsertSound(s: State, e: Event, root: nat, n: nat)
    requires Sound(s, root, n) && Enabled(s, e) && e.Insert? && InTime(s, e)
    ensures Sound(Apply(s, e), root, n)
  {
    hide OnlyUnder, Complete, New, Ancestry, DepthFrom, SameScope, FrameFits, NoComma, Normalized, HasLevel, IsReply;
    hide Scoped, CleanPath;
    var t := Apply(s, e);
    InsertFits(s, root, n, e);
    InsertAfterCheck(e.checked, s.comments, e.r, e.id);
    InsertAfterCheck(e.checked, s.made, e.r, e.id);
    forall x | x in s.made ensures Under(t.made, x, root) <==> Under(s.made, x, root) {
      UnderGrows(s.made, e.id, New(e.r), x, root);
    }
    InsertComplete(s, e, root, n);
    InsertOnlyUnder(s, e, root, n);
  }

  lemma UnderGrows(s: Comments, id: nat, c: Comment, x: nat, root: nat)
    requires id !in s && HasLevel(s, x)
    ensures Under(s[id := c], x, root) <==> Under(s, x, root)
  {
    AncestryGrows(s, id, c, x, LevelOf(s, x), MAX_COMMENT_DEPTH);
  }

  lemma InsertComplete(s: State, e: Event, root: nat, n: nat)
    requires StackFits(s, root, n) && Complete(s) && Enabled(s, e) && e.Insert? && InTime(s, e)
    ensures Complete(Apply(s, e))
  {
    var t := Apply(s, e);
    assert forall f | f in s.stack && f.Open? :: e.r.parent != Some(f.id);
    forall i, c | 0 <= i < |t.stack| && t.stack[i].Open? && IsReply(t.comments, c, t.stack[i].id)
      ensures c in t.stack[i].todo || (i < |t.stack| - 1 && t.stack[i + 1].id == c)
    {
      assert t.stack[i] in s.stack;
      assert IsReply(s.comments, c, s.stack[i].id);
    }
  }

  lemma InsertOnlyUnder(s: State, e: Event, root: nat, n: nat)
    requires StackFits(s, root, n) && OnlyUnder(s, root) && Enabled(s, e) && e.Insert?
    requires forall x | x in s.made :: Under(Apply(s, e).made, x, root) <==> Under(s.made, x, root)
    ensures OnlyUnder(Apply(s, e), root)
  {
    hide Under;
    var t := Apply(s, e);
    forall f | f in t.stack ensures Under(t.made, f.id, root) {
      var i :| 0 <= i < |s.stack| && s.stack[i] == f;
      assert FrameFits(s, i);
    }
  }

  lemma FindSound(s: State, root: nat, n: nat)
    requires Sound(s, root, n) && Enabled(s, Find)
    ensures Sound(Apply(s, Find), root, n)
  {
    hide Valid, Under;
    FindFits(s, root, n);
    var t, last := Apply(s, Find), |s.stack| - 1;
    assert s.stack[last] in s.stack;
    forall f | f in t.stack ensures Under(t.made, f.id, root) {
      assert f == t.stack[last] || f in s.stack;
    }
  }

  lemma DescendComplete(s: State, root: nat, n: nat, c: nat)
    requires StackFits(s, root, n) && Complete(s) && Enabled(s, Descend(c))
    ensures Complete(Apply(s, Descend(c)))
  {
    var t := Apply(s, Descend(c));
    forall i, x | 0 <= i < |t.stack| && t.stack[i].Open? && IsReply(t.comments, x, t.stack[i].id)
      ensures x in t.stack[i].todo || (i < |t.stack| - 1 && t.stack[i + 1].id == x)
    {
      assert IsReply(s.comments, x, s.stack[i].id);
    }
  }

  lemma DescendSound(s: State, root: nat, n: nat, c: nat)
    requires Sound(s, root, n) && Enabled(s, Descend(c))
    ensures Sound(Apply(s, Descend(c)), root, n)
  {
    hide Valid, Under, Complete, StackFits;
    DescendFits(s, root, n, c);
    DescendComplete(s, root, n, c);
    var t, last := Apply(s, Descend(c)), |s.stack| - 1;
    assert s.stack[last] in s.stack;
    assert IsReply(s.made, c, s.stack[last].id) by { TodoIsReply(s, root, n, c); }
    UnderItsParent(s.made, c, s.stack[last].id, root);
    forall f | f in t.stack ensures Under(t.made, f.id, root) {
      assert f == t.stack[last] || f == t.stack[last + 1] || f in s.stack;
    }
  }

  lemma TodoIsReply(s: State, root: nat, n: nat, c: nat)
    requires StackFits(s, root, n) && Enabled(s, Descend(c))
    ensures IsReply(s.made, c, Top(s).id)
  {
    assert FrameFits(s, |s.stack| - 1);
  }

  lemma UnderItsParent(s: Comments, c: nat, id: nat, root: nat)
    requires Valid(s) && IsReply(s, c, id) && Under(s, id, root)
    ensures Under(s, c, root)
  {
    UnderParent(s, c, LevelOf(s, c), root);
  }

  /** Without replies a comment is all of its subtree. */
  lemma LeafRemoved(s: Comments, id: nat)
    requires Valid(s) && id in s && forall c :: !IsReply(s, c, id)
    ensures Valid(s - {id})
  {
    SubtreeIs(s, id, LevelOf(s, id), {});
    DeleteKeeps(s, id);
    assert Without(s, Subtree(s, id)) == s - {id};
  }

  lemma RemoveComplete(s: State, root: nat, n: nat)
    requires StackFits(s, root, n) && Complete(s) && Enabled(s, Remove)
    ensures Complete(Apply(s, Remove))
    ensures Top(s).id in s.comments && forall c :: !IsReply(s.comments, c, Top(s).id)
  {
    var t, last := Apply(s, Remove), |s.stack| - 1;
    assert FrameFits(s, last);
    forall c ensures !IsReply(s.comments, c, s.stack[last].id) {
    }
    forall i, x | 0 <= i < |t.stack| && t.stack[i].Open? && IsReply(t.comments, x, t.stack[i].id)
      ensures x in t.stack[i].todo || (i < |t.stack| - 1 && t.stack[i + 1].id == x)
    {
      assert IsReply(s.comments, x, s.stack[i].id);
    }
  }

  lemma RemoveSound(s: State, root: nat, n: nat)
    requires Sound(s, root, n) && Enabled(s, Remove)
    ensures Sound(Apply(s, Remove), root, n)
  {
    hide Valid, Under, Complete, IsReply;
    RemoveFits(s, root, n);
    RemoveComplete(s, root, n);
    var t := Apply(s, Remove);
    LeafRemoved(s.comments, Top(s).id);
    assert Top(s) in s.stack;
    assert forall f | f in t.stack :: f in s.stack;
  }

  lemma StepSound(s: State, e: Event, root: nat, n: nat)
    requires Sound(s, root, n) && Enabled(s, e) && InTime(s, e)
    ensures Sound(Apply(s, e), root, n)
  {
    match e
    case Find => FindSound(s, root, n);
    case Descend(c) => DescendSound(s, root, n, c);
    case Remove => RemoveSound(s, root, n);
    case Insert(_, _, _) => InsertSound(s, e, root, n);
  }

  lemma {:induction false} RunSound(s: State, events: seq<Event>, t: State, root: nat, n: nat)
    requires Sound(s, root, n) && AllInTime(s, events, t)
    ensures Sound(t, root, n)
    decreases |events|
  {
    hide Sound, Apply, Enabled, InTime;
    if events != [] {
      var before, e := events[..|events| - 1], events[|events| - 1];
      var u :| AllInTime(s, before, u) && Next(u, e, t) && InTime(u, e);
      RunSound(s, before, u, root, n);
      StepSound(u, e, root, n);
    }
  }

  lemma {:induction false} AncestryWithin(a: Comments, b: Comments, x: nat, m: nat, n: nat)
    requires Within(a, b) && LevelIs(a, x, m)
    ensures Ancestry(a, x, n) == Ancestry(b, x, n)
    decreases n
  {
    if n > 0 && a[x].parent.Some? {
      AncestryWithin(a, b, a[x].parent.value, m - 1, n - 1);
    }
  }

  /** When the deletion is done, what is left is what is not under `root`. */
  lemma DoneIsWithout(s: State, root: nat, n: nat)
    requires Sound(s, root, n) && s.stack == []
    ensures s.comments == Without(s.made, Subtree(s.made, root))
  {
    hide Ancestry, LevelIs;
    forall x | x in s.comments ensures !Under(s.made, x, root) {
      AncestryWithin(s.comments, s.made, x, LevelOf(s.comments, x), MAX_COMMENT_DEPTH);
      AncestryStays(s.comments, x, MAX_COMMENT_DEPTH);
    }
  }

  /**
   * A deletion with creations in between leaves a forest if and only if every creation came in time. Then
   * exactly the comments under the deleted one are gone, those created meanwhile included.
   */
  lemma CascadeIff(s: State, events: seq<Event>, t: State, root: nat)
    requires Init(s, root) && Run(s, events, t) && t.stack == []
    ensures Valid(t.comments) <==> AllInTime(s, events, t)
    ensures Valid(t.comments) ==> t.comments == Without(t.made, Subtree(t.made, root))
  {
    hide Valid, Sound, Run, AllInTime;
    var n := InitSound(s, root);
    if AllInTime(s, events, t) {
      RunSound(s, events, t, root, n);
      SoundParts(t, root, n);
      DoneIsWithout(t, root, n);
    } else {
      SoundParts(s, root, n);
      StrayForever(s, events, t, root, n);
      var x :| Stray(t, x);
      StrayIsOrphan(t, x);
    }
  }

  // --- a run -----------------------------------------------------------------------------------

  const FIRST := Comment(0, [], 0, "first", None)
  const REPLY := Request(0, 0, [], true, true, "reply", Some(0))

  lemma RunSnoc(s: State, events: seq<Event>, u: State, e: Event, t: State)
    requires Run(s, events, u) && Next(u, e, t)
    ensures Run(s, events + [e], t)
  {
    assert (events + [e])[..|events|] == events;
  }

  lemma ReplyIsAccepted(checked: Comments)
    requires checked == map[0 := FIRST]
    ensures Refusal(checked, REPLY).None? && Normalized(REPLY.path) == [] && Valid(checked)
  {
    assert LevelIs(checked, 0, 1);
    assert HasLevel(checked, 0);
    assert DepthFrom(checked, None, 2) == 2;
  }

  lemma FindsNothing(s: State, t: State)
    requires s.comments == map[0 := FIRST] && s.stack == [Visit(0)] && t == s.(stack := [Open(0, {})])
    ensures Next(s, Find, t)
  {
    assert (set c | c in s.comments && IsReply(s.comments, c, 0)) == {};
    assert s.stack[..0] == [];
  }

  lemma RemovesFirst(s: State, t: State, left: Comments)
    requires s.comments == map[0 := FIRST, 1 := New(REPLY)] && left == map[1 := New(REPLY)]
    requires s.stack == [Open(0, {})] && t == s.(comments := left, past := s.past + {left}, stack := [])
    ensures Next(s, Remove, t)
  {
    assert s.comments - {0} == left;
    assert s.stack[..0] == [];
  }

  /** A reply checked before a deletion and written between the search for replies and the deletion of its parent. */
  lemma LateReplyIsOrphaned()
    ensures exists s, events, t :: Init(s, 0) && Run(s, events, t) && t.stack == [] && !Valid(t.comments)
  {
    hide Valid, Stray, Run, IsReply, NoComma, SameScope, Normalized;
    var a: Comments := map[0 := FIRST];
    var b: Comments := map[0 := FIRST, 1 := New(REPLY)];
    var c: Comments := map[1 := New(REPLY)];
    var s := State(a, a, {a}, [Visit(0)]);
    var u := s.(stack := [Open(0, {})]);
    var v := u.(comments := b, made := b, past := u.past + {b});
    var t := v.(comments := c, past := v.past + {c}, stack := []);
    ReplyIsAccepted(a);
    var events: seq<Event> := [];
    FindsNothing(s, u);
    RunSnoc(s, events, s, Find, u);
    events := events + [Find];
    assert a[1 := New(REPLY)] == b;
    RunSnoc(s, events, u, Insert(1, REPLY, a), v);
    events := events + [Insert(1, REPLY, a)];
    RemovesFirst(v, t, c);
    RunSnoc(s, events, v, Remove, t);
    events := events + [Remove];
    ReplyIsStray(t, c);
    StrayIsOrphan(t, 1);
  }

  lemma ReplyIsStray(t: State, c: Comments)
    requires c == map[1 := New(REPLY)] && t.comments == c && t.stack == [] && 0 in t.made
    ensures Stray(t, 1)
  {
  }
}
