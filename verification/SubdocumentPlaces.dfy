/**
 * Which values of an update are sub-documents, read off the update and the schemas, and what presetting
 * does to each of them and to every other value.
 */
module SubdocumentPlaces {
  import opened Wrappers
  import opened SubdocumentIds

  // --- paths -----------------------------------------------------------------------------------

  /** An array position in a path: digits, or anything that starts with `$`. */
  predicate Positional(segment: string) {
    (segment != "" && forall c | c in segment :: c in "0123456789") || "$" <= segment
  }

  /** The segments that name something. */
  function Named(segments: seq<string>): seq<string> {
    if segments == [] then []
    else
      var last := segments[|segments| - 1];
      Named(segments[..|segments| - 1]) + if Positional(last) then [] else [last]
  }

  /** These are the segments of a path: no dot in any, a dot between two. */
  predicate AreSegments(segments: seq<string>, path: string) {
    segments != [] && (forall x | x in segments :: '.' !in x) && Dotted(segments) == path
  }

  function Dotted(segments: seq<string>): string {
    if |segments| <= 1 then if segments == [] then "" else segments[0]
    else Dotted(segments[..|segments| - 1]) + "." + segments[|segments| - 1]
  }

  /** Field `e` is the `$each` of a value, and a list. */
  predicate IsEachAt(v: Value, e: nat) {
    && v.Doc? && e < |v.fields| && v.fields[e].key == "$each" && v.fields[e].value.List?
    && forall j | 0 <= j < e :: v.fields[j].key != "$each"
  }

  // --- places ----------------------------------------------------------------------------------

  /** The steps lead to a sub-document of schema `t` in a document of schema `u`, or to that document. */
  ghost predicate InDocument(schemas: Schemas, u: nat, v: Value, steps: seq<nat>, t: nat)
    decreases v, 1
  {
    v.Doc? && if steps == [] then t == u else InFields(schemas, u, v, steps, t)
  }

  /** The same below the fields of a document, `_id` left out. */
  ghost predicate InFields(schemas: Schemas, u: nat, v: Value, steps: seq<nat>, t: nat)
    decreases v, 0
  {
    && v.Doc? && steps != [] && steps[0] < |v.fields| && v.fields[steps[0]].key != "_id"
    && Written(schemas, u, v.fields[steps[0]].key, v.fields[steps[0]].value, false, steps[1..], t)
  }

  /** The same below the value that is written at a path, or added to the array there. */
  ghost predicate Written(schemas: Schemas, s: nat, path: string, v: Value, adding: bool, steps: seq<nat>, t: nat)
    decreases v, 4
  {
    exists segments | AreSegments(segments, path) :: WrittenTo(schemas, s, segments, v, adding, steps, t)
  }

  ghost predicate WrittenTo(schemas: Schemas, s: nat, segments: seq<string>, v: Value, adding: bool,
                            steps: seq<nat>, t: nat)
    requires segments != []
    decreases v, 3
  {
    var name := Dotted(Named(segments));
    name != "" &&
    match schemas(s).path(name)
    case Some(DocumentArray(u)) =>
      if adding then InAdded(schemas, u, v, steps, t)
      else if Positional(segments[|segments| - 1]) then InDocument(schemas, u, v, steps, t)
      else InList(schemas, u, v, steps, t)
    case Some(SingleNested(u)) => InDocument(schemas, u, v, steps, t)
    case Some(Other) => false
    case None =>
      && v.Doc? && steps != [] && steps[0] < |v.fields|
      && Written(schemas, s, name + "." + v.fields[steps[0]].key, v.fields[steps[0]].value, false, steps[1..], t)
  }

  /** Added to an array of sub-documents: the value itself, or each element of its `$each` list. */
  ghost predicate InAdded(schemas: Schemas, u: nat, v: Value, steps: seq<nat>, t: nat)
    decreases v, 2
  {
    if exists e :: IsEachAt(v, e) then
      steps != [] && IsEachAt(v, steps[0]) && InList(schemas, u, v.fields[steps[0]].value, steps[1..], t)
    else InDocument(schemas, u, v, steps, t)
  }

  /** Each element of a list of sub-documents. */
  ghost predicate InList(schemas: Schemas, u: nat, v: Value, steps: seq<nat>, t: nat)
    decreases v, 1
  {
    v.List? && steps != [] && steps[0] < |v.items| && InDocument(schemas, u, v.items[steps[0]], steps[1..], t)
  }

  /**
   * The steps lead to a sub-document of schema `t`: below a value set or added by an operator update, or
   * below a field of a replacement.
   */
  ghost predicate IsSubdocument(schemas: Schemas, s: nat, update: Value, steps: seq<nat>, t: nat) {
    update.Doc? &&
    if exists f | f in update.fields :: "$" <= f.key then
      && |steps| >= 2 && steps[0] < |update.fields|
      && var operator, writes := update.fields[steps[0]].key, update.fields[steps[0]].value;
      && writes.Doc? && steps[1] < |writes.fields|
      && operator in ["$set", "$setOnInsert", "$push", "$addToSet"]
      && Written(schemas, s, writes.fields[steps[1]].key, writes.fields[steps[1]].value,
                 operator in ["$push", "$addToSet"], steps[2..], t)
    else InFields(schemas, s, update, steps, t)
  }

  // --- the segments of a path ------------------------------------------------------------------

  predicate NoDots(segments: seq<string>) {
    forall x | x in segments :: '.' !in x
  }

  lemma {:induction false} SplitJoins(path: string)
    ensures NoDots(Split(path)) && Join(Split(path)) == path
  {
    hide Join;
    if path == "" {
      JoinOne("");
    } else {
      var rest := Split(path[1..]);
      SplitJoins(path[1..]);
      assert path == [path[0]] + path[1..];
      JoinStarts([path[0]], rest);
    }
  }

  lemma JoinOne(x: string)
    ensures Join([x]) == x
  {
  }

  lemma JoinStep(x: string, rest: seq<string>)
    requires rest != []
    ensures Join([x] + rest) == x + "." + Join(rest)
  {
    assert ([x] + rest)[1..] == rest;
  }

  /** A dot starts a new segment, another character lengthens the first. */
  lemma JoinStarts(c: string, rest: seq<string>)
    requires rest != []
    ensures Join([""] + rest) == "." + Join(rest) && Join([c + rest[0]] + rest[1..]) == c + Join(rest)
  {
    hide Join;
    JoinStep("", rest);
    assert "" + "." == ".";
    if |rest| == 1 {
      assert rest == [rest[0]] && [c + rest[0]] + rest[1..] == [c + rest[0]];
      JoinOne(rest[0]);
      JoinOne(c + rest[0]);
    } else {
      JoinStep(rest[0], rest[1..]);
      JoinStep(c + rest[0], rest[1..]);
      assert rest == [rest[0]] + rest[1..];
      Regroup(c, rest[0], ".", Join(rest[1..]));
    }
  }

  lemma Regroup(a: string, b: string, c: string, d: string)
    ensures (a + b) + c + d == a + (b + c + d)
  {
  }

  lemma {:induction false} SplitPlain(x: string)
    requires '.' !in x
    ensures Split(x) == [x]
  {
    if x != "" {
      SplitPlain(x[1..]);
      assert x[0] in x && x == [x[0]] + x[1..];
    }
  }

  lemma {:induction false} SplitDot(x: string, rest: string)
    requires '.' !in x
    ensures Split(x + "." + rest) == [x] + Split(rest)
  {
    var path := x + "." + rest;
    if x == "" {
      assert path[1..] == rest;
    } else {
      SplitDot(x[1..], rest);
      assert path[1..] == x[1..] + "." + rest && path[0] == x[0] && x[0] in x;
      assert x == [x[0]] + x[1..];
    }
  }

  lemma {:induction false} JoinSplits(segments: seq<string>)
    requires segments != [] && NoDots(segments)
    ensures Split(Join(segments)) == segments
  {
    if |segments| == 1 {
      SplitPlain(segments[0]);
    } else {
      SplitDot(segments[0], Join(segments[1..]));
      JoinSplits(segments[1..]);
    }
  }

  lemma {:induction false} JoinSnoc(front: seq<string>, x: string)
    requires front != []
    ensures Join(front + [x]) == Join(front) + "." + x
  {
    if |front| > 1 {
      JoinSnoc(front[1..], x);
      assert (front + [x])[1..] == front[1..] + [x];
    }
  }

  lemma {:induction false} DottedIs(segments: seq<string>)
    ensures Dotted(segments) == Join(segments)
  {
    if |segments| > 1 {
      var front, x := segments[..|segments| - 1], segments[|segments| - 1];
      assert segments == front + [x];
      DottedIs(front);
      JoinSnoc(front, x);
    }
  }

  lemma PositionalIs(segment: string)
    ensures Positional(segment) <==> IsPosition(segment)
  {
    forall c | c in segment ensures c in "0123456789" <==> '0' <= c <= '9' {
    }
  }

  lemma {:induction false} NamesSnoc(front: seq<string>, x: string)
    ensures Names(front + [x]) == Names(front) + if IsPosition(x) then [] else [x]
  {
    if front != [] {
      NamesSnoc(front[1..], x);
      assert (front + [x])[1..] == front[1..] + [x];
    }
  }

  lemma {:induction false} NamedIs(segments: seq<string>)
    ensures Named(segments) == Names(segments)
  {
    if segments != [] {
      var front, x := segments[..|segments| - 1], segments[|segments| - 1];
      assert segments == front + [x];
      NamedIs(front);
      NamesSnoc(front, x);
      PositionalIs(x);
    }
  }

  /** A path has one list of segments: what splitting at the dots gives. */
  lemma SegmentsOnce(segments: seq<string>, path: string)
    ensures AreSegments(segments, path) <==> segments == Split(path)
  {
    DottedIs(segments);
    SplitJoins(path);
    if AreSegments(segments, path) {
      JoinSplits(segments);
    }
  }

  lemma PathIs(path: string)
    ensures var segments := Split(path);
            && SchemaPath(path) == Dotted(Named(segments))
            && (EndsAtElement(path) <==> Positional(segments[|segments| - 1]))
  {
    var segments := Split(path);
    NamedIs(segments);
    DottedIs(Named(segments));
    PositionalIs(segments[|segments| - 1]);
  }

  // --- roles and places ------------------------------------------------------------------------

  /** A document stands at the steps, in the role of a sub-document. */
  predicate HasRole(schemas: Schemas, role: Role, v: Value, steps: seq<nat>, t: nat) {
    && Get(v, steps).Some? && Get(v, steps).value.Doc?
    && RoleOf(schemas, role, v, steps) == SubdocumentIds.Subdocument(t)
  }

  lemma HasRoleSplit(schemas: Schemas, role: Role, v: Value, steps: seq<nat>, t: nat)
    ensures HasRole(schemas, role, v, steps, t) <==>
            if steps == [] then v.Doc? && role == Subdocument(t)
            else steps[0] < Arity(v) &&
                 HasRole(schemas, RoleOfKid(schemas, role, v, steps[0]), Kid(v, steps[0]), steps[1..], t)
  {
  }

  lemma {:induction false} IgnoredHasNone(schemas: Schemas, v: Value, steps: seq<nat>, t: nat)
    ensures !HasRole(schemas, Ignored, v, steps, t)
    decreases |steps|
  {
    HasRoleSplit(schemas, Ignored, v, steps, t);
    if steps != [] && steps[0] < Arity(v) {
      IgnoredKid(schemas, v, steps[0]);
      IgnoredHasNone(schemas, Kid(v, steps[0]), steps[1..], t);
    }
  }

  lemma {:induction false} DocumentIs(schemas: Schemas, u: nat, v: Value, steps: seq<nat>, t: nat)
    ensures InDocument(schemas, u, v, steps, t) <==> HasRole(schemas, Subdocument(u), v, steps, t)
    decreases v, 1
  {
    HasRoleSplit(schemas, Subdocument(u), v, steps, t);
    if v.Doc? {
      FieldsAre(schemas, Subdocument(u), v, steps, t);
    } else if v.List? && steps != [] && steps[0] < Arity(v) {
      IgnoredHasNone(schemas, Kid(v, steps[0]), steps[1..], t);
    }
  }

  lemma {:induction false} FieldsAre(schemas: Schemas, role: Role, v: Value, steps: seq<nat>, t: nat)
    requires v.Doc? && (role.Subdocument? || role.Whole?)
    ensures InFields(schemas, role.schema, v, steps, t) <==> steps != [] && HasRole(schemas, role, v, steps, t)
    decreases v, 0
  {
    HasRoleSplit(schemas, role, v, steps, t);
    if steps != [] && steps[0] < Arity(v) {
      var f := v.fields[steps[0]];
      if f.key == "_id" {
        IgnoredHasNone(schemas, f.value, steps[1..], t);
      } else {
        WrittenIs(schemas, role.schema, f.key, f.value, false, steps[1..], t);
      }
    }
  }

  lemma {:induction false} WrittenIs(schemas: Schemas, s: nat, path: string, v: Value, adding: bool,
                                     steps: seq<nat>, t: nat)
    ensures Written(schemas, s, path, v, adding, steps, t) <==>
            HasRole(schemas, RoleAt(schemas, s, path, v, adding), v, steps, t)
    decreases v, 4
  {
    hide WrittenTo, HasRole, RoleAt, AreSegments;
    SegmentsOnce(Split(path), path);
    WrittenToIs(schemas, s, path, v, adding, steps, t);
    forall segments | AreSegments(segments, path) ensures segments == Split(path) {
      SegmentsOnce(segments, path);
    }
  }

  lemma {:induction false} WrittenToIs(schemas: Schemas, s: nat, path: string, v: Value, adding: bool,
                                       steps: seq<nat>, t: nat)
    ensures WrittenTo(schemas, s, Split(path), v, adding, steps, t) <==>
            HasRole(schemas, RoleAt(schemas, s, path, v, adding), v, steps, t)
    decreases v, 3
  {
    hide HasRole, InDocument, InAdded, InList, Written, Split, SchemaPath, EndsAtElement, Named, Dotted, IsEach;
    PathIs(path);
    IgnoredHasNone(schemas, v, steps, t);
    var name := SchemaPath(path);
    match schemas(s).path(name)
    case Some(DocumentArray(u)) =>
      AddedIs(schemas, u, v, steps, t);
      DocumentIs(schemas, u, v, steps, t);
      ListIs(schemas, u, v, steps, t);
    case Some(SingleNested(u)) => DocumentIs(schemas, u, v, steps, t);
    case Some(Other) =>
    case None =>
      HasRoleSplit(schemas, Plain(s, name), v, steps, t);
      if v.Doc? && steps != [] && steps[0] < |v.fields| {
        WrittenIs(schemas, s, name + "." + v.fields[steps[0]].key, v.fields[steps[0]].value, false, steps[1..], t);
      }
  }

  lemma {:induction false} AddedIs(schemas: Schemas, u: nat, v: Value, steps: seq<nat>, t: nat)
    ensures InAdded(schemas, u, v, steps, t) <==>
            HasRole(schemas, if IsEach(v) then Each(u) else Subdocument(u), v, steps, t)
    decreases v, 2
  {
    hide HasRole, InDocument, InList;
    if exists e :: IsEachAt(v, e) {
      var e :| IsEachAt(v, e);
      IndexIs(v.fields, "$each", e);
    }
    if IsEach(v) {
      assert IsEachAt(v, IndexOf(v.fields, "$each"));
      HasRoleSplit(schemas, Each(u), v, steps, t);
      if steps != [] && steps[0] < Arity(v) {
        if IsEachAt(v, steps[0]) {
          IndexIs(v.fields, "$each", steps[0]);
          ListIs(schemas, u, Kid(v, steps[0]), steps[1..], t);
        } else {
          IgnoredHasNone(schemas, Kid(v, steps[0]), steps[1..], t);
        }
      }
    } else {
      DocumentIs(schemas, u, v, steps, t);
    }
  }

  lemma {:induction false} ListIs(schemas: Schemas, u: nat, v: Value, steps: seq<nat>, t: nat)
    ensures InList(schemas, u, v, steps, t) <==> v.List? && HasRole(schemas, Elements(u), v, steps, t)
    decreases v, 1
  {
    hide HasRole, InDocument;
    HasRoleSplit(schemas, Elements(u), v, steps, t);
    if v.List? && steps != [] && steps[0] < Arity(v) {
      DocumentIs(schemas, u, Kid(v, steps[0]), steps[1..], t);
    }
  }

  /** The places of an update are those of its sub-document roles. */
  lemma PlacesAre(schemas: Schemas, s: nat, update: Value, steps: seq<nat>, t: nat)
    requires update.Doc?
    ensures IsSubdocument(schemas, s, update, steps, t) <==>
            HasRole(schemas, RoleOfUpdate(s, update), update, steps, t)
  {
    hide HasRole, Written, InFields, RoleAt;
    UpdateIs(s, update);
    var role := RoleOfUpdate(s, update);
    if role.Operators? {
      HasRoleSplit(schemas, role, update, steps, t);
      if steps != [] && steps[0] < Arity(update) {
        var operator, writes := update.fields[steps[0]].key, update.fields[steps[0]].value;
        IgnoredHasNone(schemas, writes, steps[1..], t);
        HasRoleSplit(schemas, Fields(s, Appends(operator)), writes, steps[1..], t);
        if writes.Doc? && |steps| >= 2 && steps[1] < |writes.fields| {
          assert steps[1..][1..] == steps[2..];
          WrittenIs(schemas, s, writes.fields[steps[1]].key, writes.fields[steps[1]].value, Appends(operator),
                    steps[2..], t);
        }
      }
    } else {
      HasRoleSplit(schemas, role, update, steps, t);
      FieldsAre(schemas, role, update, steps, t);
    }
  }

  lemma UpdateIs(s: nat, update: Value)
    requires update.Doc?
    ensures RoleOfUpdate(s, update) == if exists f | f in update.fields :: "$" <= f.key then Operators(s) else Whole(s)
  {
    forall i | 0 <= i < |update.fields| ensures IsOperator(update.fields[i].key) <==> "$" <= update.fields[i].key {
    }
    if exists f | f in update.fields :: "$" <= f.key {
      var f :| f in update.fields && "$" <= f.key;
      var i :| 0 <= i < |update.fields| && update.fields[i] == f;
      assert IsOperator(update.fields[i].key);
    }
  }

  // --- what presetting does there --------------------------------------------------------------

  /** Field `i` is the `_id` of a document. */
  predicate IsIdAt(v: Value, i: nat) {
    v.Doc? && i < |v.fields| && v.fields[i].key == "_id" && forall j | 0 <= j < i :: v.fields[j].key != "_id"
  }

  /** The `_id` is neither missing nor undefined or null. */
  ghost predicate Identified(v: Value) {
    exists i: nat :: IsIdAt(v, i) && v.fields[i].value != Undefined && v.fields[i].value != Null
  }

  /** Only the values inside lists and documents differ, and the `_id` if one is minted. */
  ghost predicate IsPresetOf(y: Value, x: Value, minted: Option<nat>) {
    && x.Doc? && y.Doc? && |x.fields| <= |y.fields|
    && (forall i | 0 <= i < |x.fields| ::
          && y.fields[i].key == x.fields[i].key
          && (!(minted.Some? && IsIdAt(x, i)) ==>
                && (y.fields[i].value.Doc? <==> x.fields[i].value.Doc?)
                && (y.fields[i].value.List? <==> x.fields[i].value.List?)
                && (x.fields[i].value.Doc? || x.fields[i].value.List? || y.fields[i] == x.fields[i])))
    && match minted
       case None => |y.fields| == |x.fields|
       case Some(n) =>
         && (exists i: nat :: IsIdAt(y, i) && y.fields[i].value == Id(n) && (IsIdAt(x, i) || i == |x.fields|))
         && |y.fields| <= |x.fields| + 1
  }

  lemma LeafKept(schemas: Schemas, role: Role, v: Value, next: nat)
    requires !v.Doc? && !v.List?
    ensures Fill(schemas, role, v, next).value == v
  {
  }

  lemma IdentifiedIff(v: Value)
    requires v.Doc?
    ensures Identified(v) <==> HasId(v)
  {
    var k := IndexOf(v.fields, "_id");
    if Identified(v) {
      var i: nat :| IsIdAt(v, i) && v.fields[i].value != Undefined && v.fields[i].value != Null;
      IndexIs(v.fields, "_id", i);
    }
    if HasId(v) {
      assert IsIdAt(v, k);
    }
  }

  lemma KidsKept(schemas: Schemas, role: Role, v: Value, next: nat, i: nat)
    requires i < Arity(v)
    ensures var x, y := Kid(v, i), FilledKidsOf(schemas, role, v, next)[i];
            SameShape(x, y) && (x.Doc? || x.List? || y == x)
  {
    hide RoleOfKid;
    var kid, from := RoleOfKid(schemas, role, v, i), Start(schemas, role, v, i, next);
    KidOfFilled(schemas, role, v, next, i);
    FilledIs(schemas, kid, Kid(v, i), from);
    if !Kid(v, i).Doc? && !Kid(v, i).List? {
      LeafKept(schemas, kid, Kid(v, i), from);
    }
  }

  lemma IdAtIs(v: Value, i: nat)
    requires v.Doc?
    ensures IsIdAt(v, i) <==> i == IndexOf(v.fields, "_id")
  {
    if IsIdAt(v, i) {
      IndexIs(v.fields, "_id", i);
    }
  }

  lemma FinishedIsPreset(v: Value, kids: seq<Value>, own: bool, next: nat, w: Value)
    requires v.Doc? && |kids| == Arity(v) && IsFinished(v, kids, own, next, w)
    requires forall i | 0 <= i < Arity(v) ::
               SameShape(Kid(v, i), kids[i]) && (Kid(v, i).Doc? || Kid(v, i).List? || kids[i] == Kid(v, i))
    ensures IsPresetOf(w, v, if own then Some(next) else None)
  {
    hide IndexOf, IsEach, IsIdAt;
    forall i: nat ensures IsIdAt(v, i) <==> i == IndexOf(v.fields, "_id") {
      IdAtIs(v, i);
    }
    forall i | 0 <= i < |v.fields| && !(own && IsIdAt(v, i))
      ensures (w.fields[i].value.Doc? <==> v.fields[i].value.Doc?)
      ensures (w.fields[i].value.List? <==> v.fields[i].value.List?)
      ensures v.fields[i].value.Doc? || v.fields[i].value.List? || w.fields[i] == v.fields[i]
    {
      assert Kid(w, i) == kids[i] && SameShape(Kid(v, i), kids[i]);
    }
    if own {
      var at := IndexOf(w.fields, "_id");
      IdAtIs(w, at);
      OwnId(v, kids, next, w);
    }
  }

  lemma OwnId(v: Value, kids: seq<Value>, next: nat, w: Value)
    requires v.Doc? && |kids| == Arity(v) && IsFinished(v, kids, true, next, w)
    ensures var i := IndexOf(w.fields, "_id");
            && i >= 0 && w.fields[i].value == Id(next)
            && (i == IndexOf(v.fields, "_id") || i == |v.fields|)
  {
  }

  /** What filling makes of the document itself. */
  lemma DocFilled(schemas: Schemas, role: Role, v: Value, next: nat)
    requires v.Doc?
    ensures IsPresetOf(Fill(schemas, role, v, next).value, v, if LacksId(schemas, role, v) then Some(next) else None)
  {
    hide IsPresetOf, IsFinished, SameShape, LacksId;
    FilledIs(schemas, role, v, next);
    var kids := FilledKidsOf(schemas, role, v, next);
    forall i | 0 <= i < Arity(v)
      ensures SameShape(Kid(v, i), kids[i]) && (Kid(v, i).Doc? || Kid(v, i).List? || kids[i] == Kid(v, i))
    {
      KidsKept(schemas, role, v, next, i);
    }
    FinishedIsPreset(v, kids, LacksId(schemas, role, v), next, Fill(schemas, role, v, next).value);
  }

  /** The same for a document anywhere inside. */
  lemma {:induction false} DocAt(schemas: Schemas, role: Role, v: Value, next: nat, steps: seq<nat>)
    requires Get(v, steps).Some? && Get(v, steps).value.Doc?
    ensures var r, k := Fill(schemas, role, v, next), NumberOf(schemas, role, v, next, steps);
            && Get(r.value, steps).Some?
            && (Lacking(schemas, role, v, steps) ==> next <= k < r.next)
            && IsPresetOf(Get(r.value, steps).value, Get(v, steps).value,
                          if Lacking(schemas, role, v, steps) then Some(k) else None)
    decreases v
  {
    hide IsPresetOf, WithKids, WithId, RoleAt;
    if Lacking(schemas, role, v, steps) {
      MintedAt(schemas, role, v, next, steps);
    }
    if steps == [] {
      DocFilled(schemas, role, v, next);
    } else {
      var i := steps[0];
      FilledIs(schemas, role, v, next);
      KidOfFilled(schemas, role, v, next, i);
      NewIdWasBlank(schemas, role, v, i);
      BlankHasNothing(Kid(v, i), steps[1..]);
      DocAt(schemas, RoleOfKid(schemas, role, v, i), Kid(v, i), Start(schemas, role, v, i, next), steps[1..]);
    }
  }

  lemma BlankHasNothing(v: Value, steps: seq<nat>)
    ensures Blank(v) && Get(v, steps).Some? ==> !Get(v, steps).value.Doc?
  {
  }

  /** A document without an `_id`, at the place of a sub-document whose schema asks for one. */
  ghost predicate AsksForId(schemas: Schemas, s: nat, update: Value, steps: seq<nat>) {
    && Get(update, steps).Some? && Get(update, steps).value.Doc? && !Identified(Get(update, steps).value)
    && exists t :: IsSubdocument(schemas, s, update, steps, t) && !schemas(t).idDisabled
  }

  lemma AsksIffLacking(schemas: Schemas, s: nat, update: Value, steps: seq<nat>)
    requires update.Doc?
    ensures AsksForId(schemas, s, update, steps) <==> Lacking(schemas, RoleOfUpdate(s, update), update, steps)
  {
    hide IsSubdocument, Identified, HasId, RoleOfUpdate;
    if Get(update, steps).Some? && Get(update, steps).value.Doc? {
      var role := RoleOf(schemas, RoleOfUpdate(s, update), update, steps);
      IdentifiedIff(Get(update, steps).value);
      forall t: nat ensures IsSubdocument(schemas, s, update, steps, t) <==> role == Subdocument(t) {
        PlacesAre(schemas, s, update, steps, t);
      }
      if role.Subdocument? {
        assert IsSubdocument(schemas, s, update, steps, role.schema);
      }
    }
  }

  /**
   * Each document of an update stays where it is. One that asks for an id gets one minted in this call, and
   * no other document gets any; nothing else in them changes but what is inside further lists and documents.
   */
  lemma PresetAt(schemas: Schemas, s: nat, update: Value, next: nat, steps: seq<nat>)
    requires update.Doc? && Get(update, steps).Some? && Get(update, steps).value.Doc?
    ensures var r := Preset(schemas, s, update, next);
            var k := NumberOf(schemas, RoleOfUpdate(s, update), update, next, steps);
            && Get(r.value, steps).Some?
            && (AsksForId(schemas, s, update, steps) ==> next <= k < r.next)
            && IsPresetOf(Get(r.value, steps).value, Get(update, steps).value,
                          if AsksForId(schemas, s, update, steps) then Some(k) else None)
  {
    hide AsksForId, IsPresetOf, RoleOfUpdate, Lacking;
    AsksIffLacking(schemas, s, update, steps);
    DocAt(schemas, RoleOfUpdate(s, update), update, next, steps);
  }

  /** Two documents that ask for an id get different ones. */
  lemma PresetDiffers(schemas: Schemas, s: nat, update: Value, next: nat, a: seq<nat>, b: seq<nat>)
    requires update.Doc? && AsksForId(schemas, s, update, a) && AsksForId(schemas, s, update, b) && a != b
    ensures NumberOf(schemas, RoleOfUpdate(s, update), update, next, a) !=
            NumberOf(schemas, RoleOfUpdate(s, update), update, next, b)
  {
    hide AsksForId, RoleOfUpdate, Lacking;
    AsksIffLacking(schemas, s, update, a);
    AsksIffLacking(schemas, s, update, b);
    MintedOnce(schemas, RoleOfUpdate(s, update), update, next, a, b);
  }

  /** Every sub-document ends with an id unless its schema disables it. */
  lemma EndsIdentified(schemas: Schemas, s: nat, update: Value, next: nat, steps: seq<nat>, t: nat)
    requires update.Doc? && Get(update, steps).Some? && Get(update, steps).value.Doc?
    requires IsSubdocument(schemas, s, update, steps, t) && !schemas(t).idDisabled
    ensures var w := Preset(schemas, s, update, next).value;
            Get(w, steps).Some? && Identified(Get(w, steps).value)
  {
    hide IsSubdocument, Preset, Get, RoleOfUpdate;
    PresetAt(schemas, s, update, next, steps);
    var x, y := Get(update, steps).value, Get(Preset(schemas, s, update, next).value, steps).value;
    if Identified(x) {
      var i: nat :| IsIdAt(x, i) && x.fields[i].value != Undefined && x.fields[i].value != Null;
      assert IsIdAt(y, i);
    }
  }
}
