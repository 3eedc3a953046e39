/**
 * The comments of tasks: replies, the depth limit and deletion of a whole thread. Each service
 * call is one step; `InsertAfterCheck` says what a creation between other calls needs, and
 * `CommentCascade` takes a deletion apart.
 */
module Comments {
  import opened Wrappers

  const MAX_COMMENT_DEPTH := 5

  /** `path` names the subtask the comment is about; it is empty when it is about a task as a whole. */
  datatype Comment = Comment(task: nat, path: seq<string>, author: nat, body: string, parent: Option<nat>)

  type Comments = map<nat, Comment>

  datatype Error = NoAccess | InvalidPath | BodyRequired | ParentNotFound | OtherScope | TooDeep
                 | NotFound | NoPermission

  // --- the forest ------------------------------------------------------------------------------

  /** The comment is the n-th of its thread, counted from the root, and no ancestor is missing. */
  predicate LevelIs(s: Comments, id: nat, n: nat)
    decreases n
  {
    n > 0 && id in s &&
    if s[id].parent.None? then n == 1 else LevelIs(s, s[id].parent.value, n - 1)
  }

  /** No orphan, no cycle, and no thread as deep as the limit. */
  ghost predicate Forest(s: Comments) {
    forall id | id in s :: HasLevel(s, id)
  }

  ghost predicate HasLevel(s: Comments, id: nat) {
    exists n: nat :: n < MAX_COMMENT_DEPTH && LevelIs(s, id, n)
  }

  ghost function LevelOf(s: Comments, id: nat): (n: nat)
    requires HasLevel(s, id)
    ensures n < MAX_COMMENT_DEPTH && LevelIs(s, id, n)
  {
    var n: nat :| n < MAX_COMMENT_DEPTH && LevelIs(s, id, n);
    n
  }

  predicate SameScope(a: Comment, b: Comment) {
    a.task == b.task && a.path == b.path
  }

  /** Every reply is about the same task and subtask as what it answers. */
  predicate Scoped(s: Comments) {
    forall id | id in s && s[id].parent.Some? :: s[id].parent.value in s ==> SameScope(s[id], s[s[id].parent.value])
  }

  predicate NoComma(id: string) {
    id != "" && forall c | c in id :: c != ','
  }

  /** Ids are neither empty nor contain a comma. */
  predicate CleanPath(path: seq<string>) {
    forall id | id in path :: NoComma(id)
  }

  ghost predicate Valid(s: Comments) {
    Forest(s) && Scoped(s) && forall id | id in s :: CleanPath(s[id].path)
  }

  /** path.join(',') */
  function Joined(path: seq<string>): string {
    if path == [] then ""
    else if |path| == 1 then path[0]
    else path[0] + "," + Joined(path[1..])
  }

  function Head(text: string): string {
    if text == "" || text[0] == ',' then "" else [text[0]] + Head(text[1..])
  }

  lemma {:induction false} HeadIs(id: string, rest: string)
    requires forall c | c in id :: c != ','
    requires rest == "" || rest[0] == ','
    ensures Head(id + rest) == id
  {
    if id == "" {
      assert id + rest == rest;
    } else {
      assert id[0] in id;
      forall c | c in id[1..] ensures c != ',' {
        assert c in id;
      }
      HeadIs(id[1..], rest);
      assert (id + rest)[1..] == id[1..] + rest;
    }
  }

  lemma JoinedStarts(path: seq<string>)
    requires CleanPath(path) && path != []
    ensures Head(Joined(path)) == path[0] && Joined(path) != ""
    ensures |path| > 1 ==> Joined(path) == path[0] + ("," + Joined(path[1..]))
  {
    hide Head;
    assert path[0] in path && NoComma(path[0]);
    if |path| == 1 {
      HeadIs(path[0], "");
      assert path[0] + "" == path[0];
    } else {
      var rest := Joined(path[1..]);
      HeadIs(path[0], "," + rest);
      assert path[0] + "," + rest == path[0] + ("," + rest);
    }
  }

  /** Comparing joined paths is comparing paths, for ids without commas. */
  lemma {:induction false} JoinedOnce(a: seq<string>, b: seq<string>)
    requires CleanPath(a) && CleanPath(b)
    ensures Joined(a) == Joined(b) <==> a == b
  {
    if Joined(a) == Joined(b) {
      if a != [] && b != [] {
        JoinedStarts(a);
        JoinedStarts(b);
        var x, y := Joined(a)[|a[0]|..], Joined(b)[|a[0]|..];
        if |a| > 1 && |b| > 1 {
          assert x == "," + Joined(a[1..]) && y == "," + Joined(b[1..]);
          assert x[1..] == Joined(a[1..]) && y[1..] == Joined(b[1..]);
          JoinedOnce(a[1..], b[1..]);
        }
        assert a == [a[0]] + a[1..] && b == [b[0]] + b[1..];
      } else if a != [] {
        JoinedStarts(a);
      } else if b != [] {
        JoinedStarts(b);
      }
    }
  }

  /** Without that, two scopes can look the same. */
  lemma CommaConfuses()
    ensures Joined(["a,b"]) == Joined(["a", "b"])
  {
    assert ["a", "b"][1..] == ["b"];
  }

  // --- creating --------------------------------------------------------------------------------

  /** The loop of getCommentDepth from `id` on. */
  function DepthFrom(s: Comments, id: Option<nat>, depth: nat): nat
    requires depth < MAX_COMMENT_DEPTH
    decreases MAX_COMMENT_DEPTH - depth
  {
    if id.None? || id.value !in s then depth
    else if depth + 1 >= MAX_COMMENT_DEPTH then depth + 1
    else DepthFrom(s, s[id.value].parent, depth + 1)
  }

  lemma {:induction false} DepthIs(s: Comments, id: nat, n: nat, depth: nat)
    requires LevelIs(s, id, n) && depth < MAX_COMMENT_DEPTH
    ensures DepthFrom(s, Some(id), depth) == if depth + n < MAX_COMMENT_DEPTH then depth + n else MAX_COMMENT_DEPTH
    decreases n
  {
    if s[id].parent.Some? && depth + 1 < MAX_COMMENT_DEPTH {
      DepthIs(s, s[id].parent.value, n - 1, depth + 1);
    }
  }

  function Normalized(path: seq<string>): seq<string> {
    if path == [] then [] else (if path[0] == "" then [] else [path[0]]) + Normalized(path[1..])
  }

  lemma {:induction false} NormalizedIs(path: seq<string>)
    ensures "" !in Normalized(path)
    ensures "" !in path ==> Normalized(path) == path
  {
    if path != [] {
      NormalizedIs(path[1..]);
      assert path == [path[0]] + path[1..];
    }
  }

  /** An empty id anywhere in a path makes no difference. */
  lemma {:induction false} EmptyIdsDropped(a: seq<string>, b: seq<string>)
    ensures Normalized(a + [""] + b) == Normalized(a + b)
  {
    hide Normalized;
    NormalizedStep("", b);
    if a == [] {
      assert a + [""] + b == [""] + b && a + b == b;
    } else {
      EmptyIdsDropped(a[1..], b);
      NormalizedStep(a[0], a[1..] + [""] + b);
      NormalizedStep(a[0], a[1..] + b);
      assert a + [""] + b == [a[0]] + (a[1..] + [""] + b) && a + b == [a[0]] + (a[1..] + b);
    }
  }

  lemma NormalizedStep(id: string, rest: seq<string>)
    ensures Normalized([id] + rest) == (if id == "" then [] else [id]) + Normalized(rest)
  {
    assert ([id] + rest)[1..] == rest;
  }

  /** What a creation asks for; `pathExists`: the task has the subtask that the path names. */
  datatype Request = Request(author: nat, task: nat, path: seq<string>, pathExists: bool, mayWrite: bool,
                             body: string, parent: Option<nat>)

  /** The checks of createComment, in their order. */
  function Refusal(s: Comments, r: Request): Option<Error> {
    var path := Normalized(r.path);
    if !r.mayWrite then Some(NoAccess)
    else if !r.pathExists then Some(InvalidPath)
    else if r.body == "" then Some(BodyRequired)
    else if r.parent.None? then None
    else if r.parent.value !in s || s[r.parent.value].task != r.task then Some(ParentNotFound)
    else if Joined(s[r.parent.value].path) != Joined(path) then Some(OtherScope)
    else if DepthFrom(s, r.parent, 1) >= MAX_COMMENT_DEPTH then Some(TooDeep)
    else None
  }

  function New(r: Request): Comment {
    Comment(r.task, Normalized(r.path), r.author, r.body, r.parent)
  }

  /** Whoever may delete: the author, or an editor of the project. */
  function DeleteRefusal(s: Comments, id: nat, task: nat, user: nat, mayWrite: bool, mayEdit: bool): Option<Error> {
    if !mayWrite then Some(NoAccess)
    else if id !in s || s[id].task != task then Some(NotFound)
    else if s[id].author != user && !mayEdit then Some(NoPermission)
    else None
  }

  // --- subtrees --------------------------------------------------------------------------------

  /** The comment and its ancestors, at most `n` of them. */
  function Ancestry(s: Comments, id: nat, n: nat): set<nat>
    decreases n
  {
    if n == 0 || id !in s then {}
    else {id} + if s[id].parent.Some? then Ancestry(s, s[id].parent.value, n - 1) else {}
  }

  predicate Under(s: Comments, x: nat, id: nat) {
    id in Ancestry(s, x, MAX_COMMENT_DEPTH)
  }

  /** The comment, its replies, their replies and so on. */
  function Subtree(s: Comments, id: nat): set<nat> {
    set x | x in s && Under(s, x, id)
  }

  function Without(s: Comments, gone: set<nat>): Comments {
    map id | id in s && id !in gone :: s[id]
  }

  predicate IsReply(s: Comments, c: nat, id: nat) {
    c in s && s[c].parent == Some(id)
  }

  lemma {:induction false} LevelOnce(s: Comments, x: nat, m: nat, n: nat)
    requires LevelIs(s, x, m) && LevelIs(s, x, n)
    ensures m == n
    decreases m
  {
    if s[x].parent.Some? {
      LevelOnce(s, s[x].parent.value, m - 1, n - 1);
    }
  }

  /** The whole ancestry, once there is room for it. */
  lemma {:induction false} AncestryIs(s: Comments, x: nat, m: nat, n: nat)
    requires LevelIs(s, x, m) && m <= n
    ensures Ancestry(s, x, n) == Ancestry(s, x, m)
    decreases m
  {
    if s[x].parent.Some? {
      AncestryIs(s, s[x].parent.value, m - 1, n - 1);
    }
  }

  lemma UnderParent(s: Comments, x: nat, m: nat, id: nat)
    requires LevelIs(s, x, m) && m <= MAX_COMMENT_DEPTH
    ensures Under(s, x, id) <==> x == id || (s[x].parent.Some? && Under(s, s[x].parent.value, id))
  {
    if s[x].parent.Some? {
      var p := s[x].parent.value;
      AncestryIs(s, p, m - 1, MAX_COMMENT_DEPTH - 1);
      AncestryIs(s, p, m - 1, MAX_COMMENT_DEPTH);
    }
  }

  /** An ancestor is at a level above. */
  lemma {:induction false} AncestorIsHigher(s: Comments, x: nat, m: nat, id: nat, k: nat)
    requires LevelIs(s, x, m) && m <= MAX_COMMENT_DEPTH && LevelIs(s, id, k) && Under(s, x, id)
    ensures k <= m && (k == m ==> x == id)
    decreases m
  {
    UnderParent(s, x, m, id);
    if x == id {
      LevelOnce(s, x, m, k);
    } else {
      AncestorIsHigher(s, s[x].parent.value, m - 1, id, k);
    }
  }

  /** What is under a reply is under what it answers. */
  lemma {:induction false} UnderReply(s: Comments, x: nat, m: nat, c: nat, id: nat)
    requires LevelIs(s, x, m) && m < MAX_COMMENT_DEPTH && IsReply(s, c, id) && Under(s, x, c)
    ensures Under(s, x, id)
    decreases m
  {
    UnderParent(s, x, m, c);
    UnderParent(s, x, m, id);
    if x == c {
      UnderParent(s, id, m - 1, id);
    } else {
      UnderReply(s, s[x].parent.value, m - 1, c, id);
    }
  }

  /** Nothing is under two replies to the same comment. */
  lemma {:induction false} UnderOneReply(s: Comments, x: nat, m: nat, c: nat, d: nat, id: nat, n: nat)
    requires LevelIs(s, x, m) && m < MAX_COMMENT_DEPTH && LevelIs(s, id, n)
    requires IsReply(s, c, id) && IsReply(s, d, id) && Under(s, x, c) && Under(s, x, d)
    ensures c == d
    decreases m
  {
    hide Under;
    UnderParent(s, x, m, c);
    UnderParent(s, x, m, d);
    if c != d {
      if x == c || x == d {
        LevelOnce(s, id, n, m - 1);
        AncestorIsHigher(s, id, n, if x == c then d else c, n + 1);
      } else {
        UnderOneReply(s, s[x].parent.value, m - 1, c, d, id, n);
      }
    }
  }

  /** What is under a comment is the comment or under one of its replies. */
  lemma {:induction false} ReplyAbove(s: Comments, x: nat, m: nat, id: nat) returns (c: nat)
    requires LevelIs(s, x, m) && m < MAX_COMMENT_DEPTH && Under(s, x, id) && x != id
    ensures IsReply(s, c, id) && Under(s, x, c)
    decreases m
  {
    UnderParent(s, x, m, id);
    var p := s[x].parent.value;
    if p == id {
      c := x;
      UnderParent(s, x, m, x);
    } else {
      c := ReplyAbove(s, p, m - 1, id);
      UnderParent(s, x, m, c);
    }
  }

  lemma ReplyInside(s: Comments, id: nat, c: nat)
    requires Forest(s) && IsReply(s, c, id)
    ensures Subtree(s, c) <= Subtree(s, id) && c in Subtree(s, c)
  {
    hide Ancestry;
    forall x | x in Subtree(s, c) ensures x in Subtree(s, id) {
      var m := LevelOf(s, x);
      UnderReply(s, x, m, c, id);
    }
    var k := LevelOf(s, c);
    UnderParent(s, c, k, c);
  }

  lemma RepliesApart(s: Comments, id: nat, n: nat, c: nat, d: nat)
    requires Forest(s) && LevelIs(s, id, n) && IsReply(s, c, id) && IsReply(s, d, id) && c != d
    ensures Subtree(s, c) !! Subtree(s, d)
  {
    hide Ancestry;
    forall x | x in Subtree(s, c) ensures x !in Subtree(s, d) {
      if Under(s, x, d) {
        UnderOneReply(s, x, LevelOf(s, x), c, d, id, n);
      }
    }
  }

  lemma SubtreeIs(s: Comments, id: nat, n: nat, deleted: set<nat>)
    requires Forest(s) && LevelIs(s, id, n) && n <= MAX_COMMENT_DEPTH
    requires forall x :: x in deleted <==> exists c :: IsReply(s, c, id) && x in Subtree(s, c)
    ensures Subtree(s, id) == deleted + {id}
  {
    hide Ancestry;
    UnderParent(s, id, n, id);
    forall x | x in Subtree(s, id) && x != id ensures x in deleted {
      var c := ReplyAbove(s, x, LevelOf(s, x), id);
      assert x in Subtree(s, c);
    }
    forall x | x in deleted ensures x in Subtree(s, id) {
      var c :| IsReply(s, c, id) && x in Subtree(s, c);
      ReplyInside(s, id, c);
    }
  }

  class Store {
    var comments: Comments

    constructor ()
      ensures comments == map[]
    {
      comments := map[];
    }

    method GetCommentDepth(parentId: nat) returns (depth: nat)
      ensures depth == DepthFrom(comments, Some(parentId), 1)
    {
      depth := 1;
      var currentId := Some(parentId);
      while currentId.Some?
        invariant depth < MAX_COMMENT_DEPTH
        invariant DepthFrom(comments, Some(parentId), 1) == DepthFrom(comments, currentId, depth)
        decreases MAX_COMMENT_DEPTH - depth, currentId.Some?
      {
        if currentId.value !in comments {
          break;
        }
        depth := depth + 1;
        if depth >= MAX_COMMENT_DEPTH {
          return;
        }
        currentId := comments[currentId.value].parent;
      }
    }

    /** `id` is the new comment's id. */
    method CreateComment(r: Request, id: nat) returns (refused: Option<Error>)
      requires id !in comments
      modifies this
      ensures refused == Refusal(old(comments), r)
      ensures comments == Step(old(comments), Creating(r, id))
      ensures refused.Some? ==> comments == old(comments)
      ensures refused.None? ==> comments == old(comments)[id := New(r)] && var c := comments[id];
                && c.task == r.task && c.author == r.author && c.body == r.body && c.parent == r.parent
                && "" !in c.path && ("" !in r.path ==> c.path == r.path)
    {
      NormalizedIs(r.path);
      refused := None;
      var path := Normalized(r.path);
      if !r.mayWrite {
        return Some(NoAccess);
      }
      if !r.pathExists {
        return Some(InvalidPath);
      }
      if r.body == "" {
        return Some(BodyRequired);
      }
      if r.parent.Some? {
        var parent := r.parent.value;
        if parent !in comments || comments[parent].task != r.task {
          return Some(ParentNotFound);
        }
        if Joined(comments[parent].path) != Joined(path) {
          return Some(OtherScope);
        }
        var depth := GetCommentDepth(parent);
        if depth >= MAX_COMMENT_DEPTH {
          return Some(TooDeep);
        }
      }
      comments := comments[id := Comment(r.task, path, r.author, r.body, r.parent)];
    }

    method DeleteComment(id: nat, task: nat, user: nat, mayWrite: bool, mayEdit: bool) returns (refused: Option<Error>)
      requires Forest(comments)
      modifies this
      ensures refused == DeleteRefusal(old(comments), id, task, user, mayWrite, mayEdit)
      ensures refused.None? <==>
                && mayWrite && id in old(comments) && old(comments)[id].task == task
                && (old(comments)[id].author == user || mayEdit)
      ensures refused == Some(NoAccess) <==> !mayWrite
      ensures refused == Some(NoPermission) <==>
                && mayWrite && id in old(comments) && old(comments)[id].task == task
                && old(comments)[id].author != user && !mayEdit
      ensures comments == Step(old(comments), Deleting(id, task, user, mayWrite, mayEdit))
      ensures comments == if refused.None? then Without(old(comments), Subtree(old(comments), id)) else old(comments)
    {
      if !mayWrite {
        return Some(NoAccess);
      }
      if id !in comments || comments[id].task != task {
        return Some(NotFound);
      }
      var isAuthor := comments[id].author == user;
      if !isAuthor && !mayEdit {
        return Some(NoPermission);
      }
      ghost var s := comments;
      assert Without(s, {}) == s;
      CascadeDelete(id, s, {}, LevelOf(s, id));
      assert {} + Subtree(s, id) == Subtree(s, id);
      refused := None;
    }

    /** `s` is the store before the deletion began, `gone` what it has deleted so far. */
    method CascadeDelete(id: nat, ghost s: Comments, ghost gone: set<nat>, ghost n: nat)
      requires Forest(s) && n < MAX_COMMENT_DEPTH && LevelIs(s, id, n)
      requires comments == Without(s, gone) && Subtree(s, id) !! gone
      modifies this
      ensures comments == Without(s, gone + Subtree(s, id))
      decreases MAX_COMMENT_DEPTH - n
    {
      hide Under;
      var replies := set c | c in comments && comments[c].parent == Some(id);
      ghost var all := replies;
      ghost var deleted: set<nat> := {};
      forall c ensures c in all <==> IsReply(s, c, id) {
        if IsReply(s, c, id) {
          ReplyInside(s, id, c);
        }
      }
      while replies != {}
        invariant replies <= all
        invariant comments == Without(s, gone + deleted)
        invariant forall x :: x in deleted <==> exists c :: c in all - replies && x in Subtree(s, c)
        decreases replies
      {
        var c :| c in replies;
        ReplyInside(s, id, c);
        forall d | d in all - replies ensures Subtree(s, d) !! Subtree(s, c) {
          RepliesApart(s, id, n, c, d);
        }
        assert LevelIs(s, c, n + 1);
        ReplyIsDeep(s, c, n + 1);
        CascadeDelete(c, s, gone + deleted, n + 1);
        assert gone + deleted + Subtree(s, c) == gone + (deleted + Subtree(s, c));
        deleted := deleted + Subtree(s, c);
        replies := replies - {c};
      }
      SubtreeIs(s, id, n, deleted);
      comments := comments - {id};
    }
  }

  lemma ReplyIsDeep(s: Comments, c: nat, n: nat)
    requires Forest(s) && LevelIs(s, c, n)
    ensures n < MAX_COMMENT_DEPTH
  {
    var m := LevelOf(s, c);
    LevelOnce(s, c, m, n);
  }

  // --- every run -------------------------------------------------------------------------------

  datatype Call =
    | Creating(r: Request, id: nat)
    | Deleting(id: nat, task: nat, user: nat, mayWrite: bool, mayEdit: bool)

  function Step(s: Comments, call: Call): Comments {
    match call
    case Creating(r, id) => if Refusal(s, r).None? then s[id := New(r)] else s
    case Deleting(id, task, user, mayWrite, mayEdit) =>
      if DeleteRefusal(s, id, task, user, mayWrite, mayEdit).None? then Without(s, Subtree(s, id)) else s
  }

  function After(calls: seq<Call>): Comments {
    if calls == [] then map[] else Step(After(calls[..|calls| - 1]), calls[|calls| - 1])
  }

  /** The ids of new comments are new, and subtask ids as the stores make them. */
  predicate Proper(s: Comments, call: Call) {
    call.Creating? ==> call.id !in s && (call.r.pathExists ==> CleanPath(Normalized(call.r.path)))
  }

  predicate ProperRun(calls: seq<Call>) {
    calls == [] || (ProperRun(calls[..|calls| - 1]) && Proper(After(calls[..|calls| - 1]), calls[|calls| - 1]))
  }

  predicate Agree(s: Comments, t: Comments) {
    forall x | x in s && x in t :: s[x] == t[x]
  }

  /** A level only depends on the comment and its ancestors. */
  lemma {:induction false} LevelKept(s: Comments, t: Comments, x: nat, n: nat)
    requires LevelIs(s, x, n) && Agree(s, t) && n <= MAX_COMMENT_DEPTH
    requires forall a | a in Ancestry(s, x, MAX_COMMENT_DEPTH) :: a in t
    ensures LevelIs(t, x, n)
    decreases n
  {
    if s[x].parent.Some? {
      var p := s[x].parent.value;
      AncestryIs(s, p, n - 1, MAX_COMMENT_DEPTH - 1);
      AncestryIs(s, p, n - 1, MAX_COMMENT_DEPTH);
      LevelKept(s, t, p, n - 1);
    }
  }

  lemma {:induction false} AncestryStays(s: Comments, x: nat, n: nat)
    ensures forall a | a in Ancestry(s, x, n) :: a in s
    decreases n
  {
    if n > 0 && x in s && s[x].parent.Some? {
      AncestryStays(s, s[x].parent.value, n - 1);
    }
  }

  lemma {:induction false} SameLevel(s: Comments, t: Comments, x: nat, m: nat, n: nat)
    requires LevelIs(s, x, m) && LevelIs(t, x, n) && Agree(s, t)
    ensures m == n
    decreases m
  {
    if s[x].parent.Some? {
      SameLevel(s, t, s[x].parent.value, m - 1, n - 1);
    }
  }

  lemma ParentsThere(s: Comments)
    requires Forest(s)
    ensures forall x | x in s && s[x].parent.Some? :: s[x].parent.value in s
  {
    forall x | x in s && s[x].parent.Some? ensures s[x].parent.value in s {
      assert LevelIs(s, s[x].parent.value, LevelOf(s, x) - 1);
    }
  }

  lemma InsertKeepsLevels(s: Comments, id: nat, c: Comment)
    requires Forest(s) && id !in s
    requires c.parent.Some? ==> HasLevel(s, c.parent.value) && LevelOf(s, c.parent.value) + 1 < MAX_COMMENT_DEPTH
    ensures Forest(s[id := c])
  {
    var t := s[id := c];
    forall x | x in s ensures HasLevel(t, x) {
      var n := LevelOf(s, x);
      AncestryStays(s, x, MAX_COMMENT_DEPTH);
      LevelKept(s, t, x, n);
    }
    if c.parent.Some? {
      var n := LevelOf(s, c.parent.value);
      AncestryStays(s, c.parent.value, MAX_COMMENT_DEPTH);
      LevelKept(s, t, c.parent.value, n);
      assert LevelIs(t, id, n + 1);
    } else {
      assert LevelIs(t, id, 1);
    }
  }

  /**
   * A creation checked against one state of the store and written to a later one: the forest is
   * kept exactly when the comment replied to is still there.
   */
  lemma InsertAfterCheck(checked: Comments, s: Comments, r: Request, id: nat)
    requires Valid(checked) && Valid(s) && Agree(checked, s) && id !in s
    requires Refusal(checked, r).None? && CleanPath(Normalized(r.path))
    requires r.parent != Some(id)
    ensures Valid(s[id := New(r)]) <==> r.parent.None? || r.parent.value in s
  {
    var t := s[id := New(r)];
    if r.parent.Some? && r.parent.value in s {
      var p := r.parent.value;
      var m := LevelOf(checked, p);
      var n := LevelOf(s, p);
      SameLevel(checked, s, p, m, n);
      DepthIs(checked, p, m, 1);
      JoinedOnce(checked[p].path, Normalized(r.path));
      InsertKeepsLevels(s, id, New(r));
      ParentsThere(s);
    } else if r.parent.None? {
      InsertKeepsLevels(s, id, New(r));
      ParentsThere(s);
    } else {
      forall n: nat ensures !LevelIs(t, id, n) {
        assert n > 0 ==> !LevelIs(t, r.parent.value, n - 1);
      }
      assert id in t && !HasLevel(t, id);
    }
  }

  lemma DeleteKeeps(s: Comments, id: nat)
    requires Valid(s)
    ensures Valid(Without(s, Subtree(s, id)))
  {
    var t := Without(s, Subtree(s, id));
    forall x | x in t ensures HasLevel(t, x) {
      DeleteKeepsLevel(s, id, x);
    }
  }

  lemma DeleteKeepsLevel(s: Comments, id: nat, x: nat)
    requires Forest(s) && x in s && !Under(s, x, id)
    ensures HasLevel(Without(s, Subtree(s, id)), x)
  {
    hide Ancestry;
    var n := LevelOf(s, x);
    AncestryStays(s, x, MAX_COMMENT_DEPTH);
    forall a | a in Ancestry(s, x, MAX_COMMENT_DEPTH) ensures a !in Subtree(s, id) {
      if Under(s, a, id) {
        NotAbove(s, x, n, a, id);
      }
    }
    LevelKept(s, Without(s, Subtree(s, id)), x, n);
  }

  /** A comment outside the subtree has no ancestor inside it. */
  lemma {:induction false} NotAbove(s: Comments, x: nat, n: nat, a: nat, id: nat)
    requires LevelIs(s, x, n) && n <= MAX_COMMENT_DEPTH && Under(s, x, a) && Under(s, a, id)
    ensures Under(s, x, id)
    decreases n
  {
    UnderParent(s, x, n, a);
    UnderParent(s, x, n, id);
    if x != a {
      NotAbove(s, s[x].parent.value, n - 1, a, id);
    }
  }

  /** Whatever is created and deleted, the comments stay a forest of shallow threads, one scope each. */
  lemma {:induction false} RunKeepsForest(calls: seq<Call>)
    requires ProperRun(calls)
    ensures Valid(After(calls))
  {
    if calls != [] {
      var front, call := calls[..|calls| - 1], calls[|calls| - 1];
      RunKeepsForest(front);
      var s := After(front);
      match call
      case Creating(r, id) =>
        if Refusal(s, r).None? {
          InsertAfterCheck(s, s, r, id);
        }
      case Deleting(id, task, user, mayWrite, mayEdit) =>
        DeleteKeeps(s, id);
    }
  }

  /** The first comment of a thread. */
  function RootOf(s: Comments, id: nat, n: nat): nat
    requires LevelIs(s, id, n)
    decreases n
  {
    if s[id].parent.None? then id else RootOf(s, s[id].parent.value, n - 1)
  }

  /** A reply is about what the first comment of its thread is about. */
  lemma {:induction false} SharesRoot(s: Comments, id: nat, n: nat)
    requires Valid(s) && LevelIs(s, id, n)
    ensures var root := RootOf(s, id, n);
            root in s && s[root].parent.None? && SameScope(s[id], s[root])
    decreases n
  {
    if s[id].parent.Some? {
      SharesRoot(s, s[id].parent.value, n - 1);
    }
  }

  /** A reply is refused for its depth exactly when it would be at the limit: one level is never used. */
  lemma DepthLimit(s: Comments, r: Request, n: nat)
    requires Valid(s) && r.mayWrite && r.pathExists && r.body != "" && r.parent.Some?
    requires LevelIs(s, r.parent.value, n)
    requires s[r.parent.value].task == r.task && s[r.parent.value].path == Normalized(r.path)
    ensures Refusal(s, r) == Some(TooDeep) <==> n + 1 >= MAX_COMMENT_DEPTH
    ensures Refusal(s, r) == None <==> n + 1 < MAX_COMMENT_DEPTH
  {
    DepthIs(s, r.parent.value, n, 1);
  }

  /** The parent is a comment on the same task and subtask. */
  predicate HasParent(s: Comments, r: Request)
    requires r.parent.Some?
  {
    r.parent.value in s && s[r.parent.value].task == r.task && s[r.parent.value].path == Normalized(r.path)
  }

  /** What a creation is refused for: a reply needs a parent at level one to three. */
  lemma RefusalIs(s: Comments, r: Request)
    requires Valid(s) && CleanPath(Normalized(r.path))
    ensures Refusal(s, r).None? <==>
            && r.mayWrite && r.pathExists && r.body != ""
            && (r.parent.Some? ==> HasParent(s, r) && exists n | 1 <= n <= 3 :: LevelIs(s, r.parent.value, n))
    ensures Refusal(s, r) == Some(NoAccess) <==> !r.mayWrite
    ensures Refusal(s, r) == Some(InvalidPath) <==> r.mayWrite && !r.pathExists
    ensures Refusal(s, r) == Some(BodyRequired) <==> r.mayWrite && r.pathExists && r.body == ""
    ensures Refusal(s, r) == Some(ParentNotFound) ==>
              r.parent.Some? && (r.parent.value !in s || s[r.parent.value].task != r.task)
    ensures Refusal(s, r) == Some(OtherScope) ==>
              && r.parent.Some? && r.parent.value in s && s[r.parent.value].task == r.task
              && s[r.parent.value].path != Normalized(r.path)
    ensures Refusal(s, r) == Some(TooDeep) ==> r.parent.Some? && HasParent(s, r) && LevelIs(s, r.parent.value, 4)
    ensures Refusal(s, r) !in {Some(NotFound), Some(NoPermission)}
  {
    hide LevelIs, Normalized, Joined, HasLevel;
    if r.parent.Some? && r.parent.value in s {
      var p := r.parent.value;
      JoinedOnce(s[p].path, Normalized(r.path));
      var m := LevelOf(s, p);
      PositiveLevel(s, p, m);
      DepthIs(s, p, m, 1);
      assert r.parent == Some(p);
      assert m <= 3 ==> exists n | 1 <= n <= 3 :: LevelIs(s, p, n);
      if exists n | 1 <= n <= 3 :: LevelIs(s, p, n) {
        var n :| 1 <= n <= 3 && LevelIs(s, p, n);
        LevelOnce(s, p, m, n);
      }
    }
  }

  lemma PositiveLevel(s: Comments, id: nat, n: nat)
    requires LevelIs(s, id, n)
    ensures n >= 1
  {
  }
}
