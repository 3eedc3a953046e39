/**
 * Presetting the ids of new sub-documents in a write. Updates are values, schemas may nest
 * themselves, and the id generator is a counter.
 */
module SubdocumentIds {
  import opened Wrappers

  datatype Value =
    | Undefined
    | Null
    | Scalar(text: string)
    | Date(time: int)
    | Id(n: nat)
    | List(items: seq<Value>)
    | Doc(fields: seq<Field>)

  datatype Field = Field(key: string, value: Value)

  /** What a schema holds at a path. */
  datatype Kind = DocumentArray(schema: nat) | SingleNested(schema: nat) | Other

  datatype Schema = Schema(idDisabled: bool, path: string -> Option<Kind>)

  /** All schemas, by number: a schema may refer to itself. */
  type Schemas = nat -> Schema

  // --- paths -----------------------------------------------------------------------------------

  function Split(path: string): (segments: seq<string>)
    ensures segments != []
  {
    if path == "" then [""]
    else
      var rest := Split(path[1..]);
      if path[0] == '.' then [""] + rest else [[path[0]] + rest[0]] + rest[1..]
  }

  predicate IsDigits(s: string) {
    s != "" && forall c | c in s :: '0' <= c <= '9'
  }

  /** `3`, `$`, `$[]`, `$[name]`: an element, which the schema's paths leave out. */
  predicate IsPosition(segment: string) {
    IsDigits(segment) || (segment != "" && segment[0] == '$')
  }

  function Names(segments: seq<string>): seq<string> {
    if segments == [] then []
    else (if IsPosition(segments[0]) then [] else [segments[0]]) + Names(segments[1..])
  }

  function Join(segments: seq<string>): string {
    if segments == [] then "" else if |segments| == 1 then segments[0] else segments[0] + "." + Join(segments[1..])
  }

  function SchemaPath(path: string): string {
    Join(Names(Split(path)))
  }

  predicate EndsAtElement(path: string) {
    var segments := Split(path);
    IsPosition(segments[|segments| - 1])
  }

  // --- which values are sub-documents ----------------------------------------------------------

  /** What a value is in the update, by the place it stands in. */
  datatype Role =
    | Ignored
    | Subdocument(schema: nat)
    | Elements(schema: nat)                    // a list of sub-documents
    | Each(schema: nat)                        // the list of sub-documents is under $each
    | Plain(schema: nat, prefix: string)       // a nested object without a schema of its own
    | Whole(schema: nat)                       // a replacement document
    | Operators(schema: nat)                   // an operator update
    | Fields(schema: nat, appending: bool)     // the paths and values of one operator

  function IndexOf(fields: seq<Field>, key: string): (i: int)
    ensures -1 <= i < |fields|
    ensures i >= 0 ==> fields[i].key == key
    ensures forall j | 0 <= j < if i < 0 then |fields| else i :: fields[j].key != key
  {
    if fields == [] then -1
    else if fields[0].key == key then 0
    else
      var i := IndexOf(fields[1..], key);
      if i < 0 then -1 else i + 1
  }

  predicate IsEach(v: Value) {
    v.Doc? && IndexOf(v.fields, "$each") >= 0 && v.fields[IndexOf(v.fields, "$each")].value.List?
  }

  predicate IsOperator(key: string) {
    key != "" && key[0] == '$'
  }

  predicate Introduces(operator: string) {
    operator == "$set" || operator == "$setOnInsert" || Appends(operator)
  }

  predicate Appends(operator: string) {
    operator == "$push" || operator == "$addToSet"
  }

  /** The role of a value written at the path of an array of sub-documents. */
  function RoleInArray(t: nat, path: string, v: Value, appending: bool): Role {
    if appending then if IsEach(v) then Each(t) else Subdocument(t)
    else if EndsAtElement(path) then Subdocument(t)
    else if v.List? then Elements(t)
    else Ignored
  }

  /** The role of a value written at `path`. */
  function RoleAt(schemas: Schemas, s: nat, path: string, v: Value, appending: bool): Role {
    var schemaPath := SchemaPath(path);
    if schemaPath == "" then Ignored
    else
      match schemas(s).path(schemaPath)
      case Some(DocumentArray(t)) => RoleInArray(t, path, v, appending)
      case Some(SingleNested(t)) => Subdocument(t)
      case Some(Other) => Ignored
      case None => if v.Doc? then Plain(s, schemaPath) else Ignored
  }

  /** An update is an operator update if any key starts with `$`, else a replacement. */
  function RoleOfUpdate(s: nat, update: Value): Role {
    if update.Doc? && exists i | 0 <= i < |update.fields| :: IsOperator(update.fields[i].key) then Operators(s)
    else Whole(s)
  }

  function Arity(v: Value): nat {
    match v
    case List(items) => |items|
    case Doc(fields) => |fields|
    case _ => 0
  }

  function Kid(v: Value, i: nat): (kid: Value)
    requires i < Arity(v)
    ensures kid < v
  {
    match v
    case List(items) => items[i]
    case Doc(fields) => fields[i].value
  }

  /** The role of the i-th element or field of a value. */
  function RoleOfKid(schemas: Schemas, role: Role, v: Value, i: nat): Role
    requires i < Arity(v)
  {
    if v.List? then
      if role.Elements? then Subdocument(role.schema) else Ignored
    else
      var key, kid := v.fields[i].key, v.fields[i].value;
      match role
      case Subdocument(s) => if key == "_id" then Ignored else RoleAt(schemas, s, key, kid, false)
      case Whole(s) => if key == "_id" then Ignored else RoleAt(schemas, s, key, kid, false)
      case Plain(s, prefix) => RoleAt(schemas, s, prefix + "." + key, kid, false)
      case Each(t) => if i == IndexOf(v.fields, "$each") then Elements(t) else Ignored
      case Operators(s) => if Introduces(key) && kid.Doc? then Fields(s, Appends(key)) else Ignored
      case Fields(s, appending) => RoleAt(schemas, s, key, kid, appending)
      case _ => Ignored
  }

  predicate HasId(v: Value) {
    v.Doc? &&
    var i := IndexOf(v.fields, "_id");
    i >= 0 && !v.fields[i].value.Undefined? && !v.fields[i].value.Null?
  }

  /** A sub-document without an id that its schema asks for. */
  predicate LacksId(schemas: Schemas, role: Role, v: Value) {
    role.Subdocument? && v.Doc? && !schemas(role.schema).idDisabled && !HasId(v)
  }

  /** `doc._id = id` */
  function WithId(v: Value, id: Value): Value
    requires v.Doc?
  {
    var i := IndexOf(v.fields, "_id");
    Doc(if i >= 0 then v.fields[i := Field("_id", id)] else v.fields + [Field("_id", id)])
  }

  // --- filling ---------------------------------------------------------------------------------

  datatype Filled = Filled(value: Value, next: nat)
  datatype FilledKids = FilledKids(values: seq<Value>, next: nat)

  function Rekeyed(fields: seq<Field>, values: seq<Value>): (r: seq<Field>)
    requires |fields| == |values|
    ensures |r| == |fields|
    ensures forall i | 0 <= i < |r| :: r[i] == Field(fields[i].key, values[i])
  {
    if fields == [] then []
    else Rekeyed(fields[..|fields| - 1], values[..|values| - 1]) +
         [Field(fields[|fields| - 1].key, values[|values| - 1])]
  }

  function WithKids(v: Value, values: seq<Value>): Value
    requires |values| == Arity(v)
  {
    match v
    case List(_) => List(values)
    case Doc(fields) => Doc(Rekeyed(fields, values))
    case _ => v
  }

  function Minted(schemas: Schemas, role: Role, v: Value): nat {
    if LacksId(schemas, role, v) then 1 else 0
  }

  /** Ids are minted from `next` on, a sub-document's own before those inside it. */
  function Fill(schemas: Schemas, role: Role, v: Value, next: nat): Filled
    decreases v, Arity(v) + 1
  {
    var kids := FillKids(schemas, role, v, Arity(v), next + Minted(schemas, role, v));
    var filled := WithKids(v, kids.values);
    Filled(if LacksId(schemas, role, v) then WithId(filled, Id(next)) else filled, kids.next)
  }

  /** The first `n` elements or fields filled. */
  function FillKids(schemas: Schemas, role: Role, v: Value, n: nat, next: nat): (r: FilledKids)
    requires n <= Arity(v)
    ensures |r.values| == n
    decreases v, n
  {
    if n == 0 then FilledKids([], next)
    else
      var front := FillKids(schemas, role, v, n - 1, next);
      var last := Fill(schemas, RoleOfKid(schemas, role, v, n - 1), Kid(v, n - 1), front.next);
      FilledKids(front.values + [last.value], last.next)
  }

  /** The whole update. */
  function Preset(schemas: Schemas, s: nat, update: Value, next: nat): Filled {
    Fill(schemas, RoleOfUpdate(s, update), update, next)
  }

  // --- what filling leaves alone ---------------------------------------------------------------

  lemma Rebuilt(v: Value, values: seq<Value>)
    requires |values| == Arity(v)
    ensures var w := WithKids(v, values);
            && Arity(w) == Arity(v)
            && (v.List? <==> w.List?) && (v.Doc? <==> w.Doc?)
            && (forall i | 0 <= i < Arity(v) :: Kid(w, i) == values[i])
            && (v.Doc? ==> forall i | 0 <= i < Arity(v) :: w.fields[i].key == v.fields[i].key)
    ensures (forall i | 0 <= i < Arity(v) :: values[i] == Kid(v, i)) ==> WithKids(v, values) == v
  {
    if forall i | 0 <= i < Arity(v) :: values[i] == Kid(v, i) {
      match v
      case List(items) => assert values == items;
      case Doc(fields) => assert Rekeyed(fields, values) == fields;
      case _ =>
    }
  }

  /** Where the ids inside the i-th element or field start. */
  function Start(schemas: Schemas, role: Role, v: Value, i: nat, next: nat): nat
    requires i <= Arity(v)
  {
    FillKids(schemas, role, v, i, next + Minted(schemas, role, v)).next
  }

  function FilledKid(schemas: Schemas, role: Role, v: Value, i: nat, next: nat): Filled
    requires i < Arity(v)
  {
    Fill(schemas, RoleOfKid(schemas, role, v, i), Kid(v, i), Start(schemas, role, v, i, next))
  }

  lemma {:induction false} KidFilled(schemas: Schemas, role: Role, v: Value, n: nat, i: nat, next: nat)
    requires i < n <= Arity(v)
    ensures FillKids(schemas, role, v, n, next).values[i] ==
            Fill(schemas, RoleOfKid(schemas, role, v, i), Kid(v, i), FillKids(schemas, role, v, i, next).next).value
  {
    hide WithKids, WithId, RoleOfKid;
    if i < n - 1 {
      KidFilled(schemas, role, v, n - 1, i, next);
    }
  }

  lemma {:induction false} IndexIs(fields: seq<Field>, key: string, i: nat)
    requires i < |fields| && fields[i].key == key
    requires forall j | 0 <= j < i :: fields[j].key != key
    ensures IndexOf(fields, key) == i
  {
    var k := IndexOf(fields, key);
    assert k >= 0 ==> !(k < i);
  }

  lemma IndexSame(fields: seq<Field>, others: seq<Field>, key: string)
    requires |fields| == |others|
    requires forall i | 0 <= i < |fields| :: fields[i].key == others[i].key
    ensures IndexOf(fields, key) == IndexOf(others, key)
  {
    var i := IndexOf(fields, key);
    if i >= 0 {
      IndexIs(others, key, i);
    }
  }

  /** Setting an id touches no other field. */
  lemma IdSet(v: Value, n: nat)
    requires v.Doc?
    ensures var w, i := WithId(v, Id(n)), IndexOf(v.fields, "_id");
            && w.Doc? && HasId(w)
            && IndexOf(w.fields, "_id") == (if i >= 0 then i else |v.fields|)
            && w.fields[IndexOf(w.fields, "_id")] == Field("_id", Id(n))
            && |w.fields| == |v.fields| + (if i >= 0 then 0 else 1)
            && (forall j | 0 <= j < |v.fields| && j != i :: w.fields[j] == v.fields[j])
            && IndexOf(w.fields, "$each") == IndexOf(v.fields, "$each")
            && (IsEach(w) <==> IsEach(v))
  {
    var w, i := WithId(v, Id(n)), IndexOf(v.fields, "_id");
    IndexIs(w.fields, "_id", if i >= 0 then i else |v.fields|);
    var e := IndexOf(v.fields, "$each");
    if e >= 0 {
      IndexIs(w.fields, "$each", e);
    }
  }

  /** The value of the `_id` field. */
  function IdOf(v: Value): Value {
    if v.Doc? && IndexOf(v.fields, "_id") >= 0 then v.fields[IndexOf(v.fields, "_id")].value else Undefined
  }

  /** The shape on which the role of a value depends. */
  predicate SameShape(v: Value, w: Value) {
    (v.Doc? <==> w.Doc?) && (v.List? <==> w.List?) && (IsEach(v) <==> IsEach(w))
  }

  /** `w` is `v` with other elements or fields, and with an id of its own if `own`. */
  predicate IsFinished(v: Value, kids: seq<Value>, own: bool, next: nat, w: Value)
    requires |kids| == Arity(v) && (own ==> v.Doc?)
  {
    && SameShape(v, w)
    && Arity(v) <= Arity(w) <= Arity(v) + 1
    && (v.Doc? ==> IndexOf(w.fields, "$each") == IndexOf(v.fields, "$each"))
    && (v.Doc? ==> forall i | 0 <= i < Arity(v) :: w.fields[i].key == v.fields[i].key)
    && (forall i | 0 <= i < Arity(v) ::
          Kid(w, i) == if own && i == IndexOf(v.fields, "_id") then Id(next) else kids[i])
    && (own ==> IdOf(w) == Id(next))
    && (Arity(w) > Arity(v) <==> own && IndexOf(v.fields, "_id") < 0)
    && (Arity(w) > Arity(v) ==> w.fields[Arity(v)] == Field("_id", Id(next)))
  }

  lemma Finished(v: Value, kids: seq<Value>, next: nat)
    requires |kids| == Arity(v)
    requires forall i | 0 <= i < Arity(v) :: kids[i].List? <==> Kid(v, i).List?
    ensures IsFinished(v, kids, false, next, WithKids(v, kids))
    ensures v.Doc? ==> IndexOf(WithKids(v, kids).fields, "_id") == IndexOf(v.fields, "_id")
  {
    var u := WithKids(v, kids);
    Rebuilt(v, kids);
    if v.Doc? {
      IndexSame(v.fields, u.fields, "$each");
      IndexSame(v.fields, u.fields, "_id");
      var e := IndexOf(v.fields, "$each");
      assert e >= 0 ==> Kid(u, e) == kids[e];
    }
  }

  lemma FinishedWithId(v: Value, kids: seq<Value>, next: nat, u: Value)
    requires v.Doc? && |kids| == Arity(v) && IsFinished(v, kids, false, next, u)
    requires IndexOf(u.fields, "_id") == IndexOf(v.fields, "_id")
    ensures IsFinished(v, kids, true, next, WithId(u, Id(next)))
  {
    hide IndexOf;
    IdSet(u, next);
    var w := WithId(u, Id(next));
    forall i | 0 <= i < Arity(v)
      ensures Kid(w, i) == if i == IndexOf(v.fields, "_id") then Id(next) else kids[i]
    {
      assert Kid(u, i) == kids[i];
      assert i != IndexOf(v.fields, "_id") ==> w.fields[i] == u.fields[i];
    }
  }

  /** The elements or fields after filling, before the value's own id is set. */
  function FilledKidsOf(schemas: Schemas, role: Role, v: Value, next: nat): (r: seq<Value>)
    ensures |r| == Arity(v)
  {
    FillKids(schemas, role, v, Arity(v), next + Minted(schemas, role, v)).values
  }

  lemma KidOfFilled(schemas: Schemas, role: Role, v: Value, next: nat, i: nat)
    requires i < Arity(v)
    ensures FilledKidsOf(schemas, role, v, next)[i] == FilledKid(schemas, role, v, i, next).value
  {
    KidFilled(schemas, role, v, Arity(v), i, next + Minted(schemas, role, v));
  }

  lemma FillUnfolds(schemas: Schemas, role: Role, v: Value, next: nat)
    ensures var u := WithKids(v, FilledKidsOf(schemas, role, v, next));
            Fill(schemas, role, v, next).value == if LacksId(schemas, role, v) then WithId(u, Id(next)) else u
  {
  }

  lemma FinishedEither(v: Value, kids: seq<Value>, own: bool, next: nat)
    requires |kids| == Arity(v) && (own ==> v.Doc?)
    requires forall i | 0 <= i < Arity(v) :: kids[i].List? <==> Kid(v, i).List?
    ensures var u := WithKids(v, kids); IsFinished(v, kids, own, next, if own then WithId(u, Id(next)) else u)
  {
    hide WithId, WithKids;
    Finished(v, kids, next);
    if own {
      FinishedWithId(v, kids, next, WithKids(v, kids));
    }
  }

  /** What filling makes of a value, given its elements or fields after filling. */
  lemma {:induction false} FilledIs(schemas: Schemas, role: Role, v: Value, next: nat)
    ensures IsFinished(v, FilledKidsOf(schemas, role, v, next), LacksId(schemas, role, v), next,
                       Fill(schemas, role, v, next).value)
    decreases v, 1
  {
    ListsStayLists(schemas, role, v, next);
    FillUnfolds(schemas, role, v, next);
    FinishedEither(v, FilledKidsOf(schemas, role, v, next), LacksId(schemas, role, v), next);
  }

  lemma {:induction false} ListsStayLists(schemas: Schemas, role: Role, v: Value, next: nat)
    ensures forall i | 0 <= i < Arity(v) :: FilledKidsOf(schemas, role, v, next)[i].List? <==> Kid(v, i).List?
    decreases v, 0
  {
    forall i | 0 <= i < Arity(v) ensures FilledKidsOf(schemas, role, v, next)[i].List? <==> Kid(v, i).List? {
      KidOfFilled(schemas, role, v, next, i);
      FilledIs(schemas, RoleOfKid(schemas, role, v, i), Kid(v, i), Start(schemas, role, v, i, next));
    }
  }

  /** What stands at an ignored place is left exactly as given. */
  lemma {:induction false} FillIgnored(schemas: Schemas, v: Value, next: nat)
    ensures Fill(schemas, Ignored, v, next) == Filled(v, next)
    decreases v
  {
    hide WithKids, WithId, RoleOfKid;
    KidsIgnored(schemas, v, Arity(v), next);
    Rebuilt(v, FillKids(schemas, Ignored, v, Arity(v), next).values);
  }

  lemma IgnoredKid(schemas: Schemas, v: Value, i: nat)
    requires i < Arity(v)
    ensures RoleOfKid(schemas, Ignored, v, i) == Ignored
  {
  }

  lemma {:induction false} KidsIgnored(schemas: Schemas, v: Value, n: nat, next: nat)
    requires n <= Arity(v)
    ensures var r := FillKids(schemas, Ignored, v, n, next);
            r.next == next && forall i | 0 <= i < n :: r.values[i] == Kid(v, i)
    decreases v, n
  {
    hide Fill, RoleOfKid, Kid;
    if n > 0 {
      KidsIgnored(schemas, v, n - 1, next);
      IgnoredKid(schemas, v, n - 1);
      FillIgnored(schemas, Kid(v, n - 1), next);
    }
  }

  // --- filling twice ---------------------------------------------------------------------------

  /** Filling changes no role. */
  lemma RoleKept(schemas: Schemas, role: Role, v: Value, next: nat, i: nat)
    requires i < Arity(v)
    ensures var w := Fill(schemas, role, v, next).value;
            i < Arity(w) && RoleOfKid(schemas, role, w, i) == RoleOfKid(schemas, role, v, i)
  {
    var w := Fill(schemas, role, v, next).value;
    FilledIs(schemas, role, v, next);
    KidShape(schemas, role, v, next, i);
    if v.Doc? {
      RolesMatch(schemas, role, v, w, i);
    }
  }

  lemma KidShape(schemas: Schemas, role: Role, v: Value, next: nat, i: nat)
    requires i < Arity(v)
    ensures i < Arity(Fill(schemas, role, v, next).value)
    ensures IsNewId(schemas, role, v, i) || SameShape(Kid(v, i), Kid(Fill(schemas, role, v, next).value, i))
  {
    FilledIs(schemas, role, v, next);
    KidOfFilled(schemas, role, v, next, i);
    FilledIs(schemas, RoleOfKid(schemas, role, v, i), Kid(v, i), Start(schemas, role, v, i, next));
  }

  /** The i-th field is where the id goes. */
  predicate IsNewId(schemas: Schemas, role: Role, v: Value, i: nat) {
    LacksId(schemas, role, v) && i == IndexOf(v.fields, "_id")
  }

  lemma RolesMatch(schemas: Schemas, role: Role, v: Value, w: Value, i: nat)
    requires v.Doc? && w.Doc? && i < |v.fields| <= |w.fields| && w.fields[i].key == v.fields[i].key
    requires IndexOf(w.fields, "$each") == IndexOf(v.fields, "$each")
    requires SameShape(Kid(v, i), Kid(w, i)) || (role.Subdocument? && v.fields[i].key == "_id")
    ensures RoleOfKid(schemas, role, w, i) == RoleOfKid(schemas, role, v, i)
  {
    hide IndexOf;
  }

  lemma {:induction false} KidTwice(schemas: Schemas, role: Role, v: Value, next: nat, i: nat, m: nat)
    requires i < Arity(Fill(schemas, role, v, next).value)
    ensures KidIsFixed(schemas, role, Fill(schemas, role, v, next).value, i, m)
    decreases v, 0
  {
    hide RoleAt, Fill, IdOf, IsFinished, HasId, FilledKidsOf, SameShape, Kid, Appends, Introduces, Start, Arity;
    var w := Fill(schemas, role, v, next).value;
    FilledIs(schemas, role, v, next);
    if i < Arity(v) && !IsNewId(schemas, role, v, i) {
      RoleKept(schemas, role, v, next, i);
      KidOfFilled(schemas, role, v, next, i);
      FillTwice(schemas, RoleOfKid(schemas, role, v, i), Kid(v, i), Start(schemas, role, v, i, next), m);
    } else {
      FillIgnored(schemas, Kid(w, i), m);
    }
  }

  /** Filling a second time mints nothing and changes nothing. */
  lemma {:induction false} FillTwice(schemas: Schemas, role: Role, v: Value, next: nat, again: nat)
    ensures var w := Fill(schemas, role, v, next).value;
            !LacksId(schemas, role, w) && Fill(schemas, role, w, again) == Filled(w, again)
    decreases v, 1
  {
    hide WithId, RoleAt, KidIsFixed;
    var w := Fill(schemas, role, v, next).value;
    FilledIs(schemas, role, v, next);
    NoLongerLacks(schemas, role, v, next);
    forall i, m: nat | 0 <= i < Arity(w) ensures KidIsFixed(schemas, role, w, i, m) {
      KidTwice(schemas, role, v, next, i, m);
    }
    FixedKids(schemas, role, w, Arity(w), again);
    Rebuilt(w, FillKids(schemas, role, w, Arity(w), again).values);
  }

  ghost predicate KidIsFixed(schemas: Schemas, role: Role, w: Value, i: nat, m: nat)
    requires i < Arity(w)
  {
    Fill(schemas, RoleOfKid(schemas, role, w, i), Kid(w, i), m) == Filled(Kid(w, i), m)
  }

  lemma NoLongerLacks(schemas: Schemas, role: Role, v: Value, next: nat)
    ensures !LacksId(schemas, role, Fill(schemas, role, v, next).value)
  {
    hide WithKids, WithId, RoleAt;
    var w := Fill(schemas, role, v, next).value;
    FilledIs(schemas, role, v, next);
    if v.Doc? && role.Subdocument? && !LacksId(schemas, role, v) && HasId(v) {
      var i := IndexOf(v.fields, "_id");
      KidOfFilled(schemas, role, v, next, i);
      FillIgnored(schemas, Kid(v, i), Start(schemas, role, v, i, next));
      assert Kid(w, i) == Kid(v, i);
      IndexIs(w.fields, "_id", i);
    }
  }

  lemma {:induction false} FixedKids(schemas: Schemas, role: Role, w: Value, n: nat, m: nat)
    requires n <= Arity(w)
    requires forall i, m: nat | 0 <= i < Arity(w) :: KidIsFixed(schemas, role, w, i, m)
    ensures FillKids(schemas, role, w, n, m).next == m
    ensures forall i | 0 <= i < n :: FillKids(schemas, role, w, n, m).values[i] == Kid(w, i)
  {
    hide RoleOfKid, WithKids, WithId, LacksId;
    if n > 0 {
      FixedKids(schemas, role, w, n - 1, m);
      assert KidIsFixed(schemas, role, w, n - 1, m);
    }
  }

  // --- positions -------------------------------------------------------------------------------

  /** The value that a list of indices leads to. */
  function Get(v: Value, steps: seq<nat>): Option<Value> {
    if steps == [] then Some(v)
    else if steps[0] < Arity(v) then Get(Kid(v, steps[0]), steps[1..])
    else None
  }

  function RoleOf(schemas: Schemas, role: Role, v: Value, steps: seq<nat>): Role
    requires Get(v, steps).Some?
    decreases v
  {
    if steps == [] then role
    else RoleOf(schemas, RoleOfKid(schemas, role, v, steps[0]), Kid(v, steps[0]), steps[1..])
  }

  /** The sub-document at the position lacks an id that its schema asks for. */
  predicate Lacking(schemas: Schemas, role: Role, v: Value, steps: seq<nat>) {
    && Get(v, steps).Some?
    && LacksId(schemas, RoleOf(schemas, role, v, steps), Get(v, steps).value)
  }

  /** Every sub-document has an id unless its schema disables it. */
  ghost predicate Complete(schemas: Schemas, role: Role, v: Value) {
    forall steps :: !Lacking(schemas, role, v, steps)
  }

  lemma {:induction false} FixedIsComplete(schemas: Schemas, role: Role, v: Value, next: nat, steps: seq<nat>)
    requires Fill(schemas, role, v, next).value == v
    ensures !Lacking(schemas, role, v, steps)
    decreases v
  {
    hide WithKids, WithId, RoleAt;
    NoLongerLacks(schemas, role, v, next);
    if steps != [] && steps[0] < Arity(v) {
      var i := steps[0];
      FilledIs(schemas, role, v, next);
      KidOfFilled(schemas, role, v, next, i);
      FixedIsComplete(schemas, RoleOfKid(schemas, role, v, i), Kid(v, i), Start(schemas, role, v, i, next), steps[1..]);
    }
  }

  lemma {:induction false} CompleteIsFixed(schemas: Schemas, role: Role, v: Value, next: nat)
    requires Complete(schemas, role, v)
    ensures Fill(schemas, role, v, next) == Filled(v, next)
    decreases v
  {
    assert !Lacking(schemas, role, v, []);
    forall i, m: nat | 0 <= i < Arity(v) ensures KidIsFixed(schemas, role, v, i, m) {
      KidComplete(schemas, role, v, i);
      CompleteIsFixed(schemas, RoleOfKid(schemas, role, v, i), Kid(v, i), m);
    }
    FixedKids(schemas, role, v, Arity(v), next);
    Rebuilt(v, FillKids(schemas, role, v, Arity(v), next).values);
  }

  lemma KidComplete(schemas: Schemas, role: Role, v: Value, i: nat)
    requires i < Arity(v) && Complete(schemas, role, v)
    ensures Complete(schemas, RoleOfKid(schemas, role, v, i), Kid(v, i))
  {
    forall steps ensures !Lacking(schemas, RoleOfKid(schemas, role, v, i), Kid(v, i), steps) {
      var longer := [i] + steps;
      assert longer[0] == i && longer[1..] == steps;
      assert !Lacking(schemas, role, v, longer);
    }
  }

  lemma UpdateRoleKept(schemas: Schemas, s: nat, update: Value, next: nat)
    ensures RoleOfUpdate(s, Preset(schemas, s, update, next).value) == RoleOfUpdate(s, update)
  {
    hide WithKids, WithId, RoleAt;
    var role := RoleOfUpdate(s, update);
    var w := Preset(schemas, s, update, next).value;
    FilledIs(schemas, role, update, next);
    if update.Doc? {
      assert |w.fields| == |update.fields|;
      assert forall i | 0 <= i < |w.fields| :: w.fields[i].key == update.fields[i].key;
    }
  }

  /** After presetting, no sub-document lacks an id, and a second preset changes nothing. */
  lemma PresetCompletes(schemas: Schemas, s: nat, update: Value, next: nat, again: nat)
    ensures var w := Preset(schemas, s, update, next).value;
            && RoleOfUpdate(s, w) == RoleOfUpdate(s, update)
            && Complete(schemas, RoleOfUpdate(s, w), w)
            && Preset(schemas, s, w, again) == Filled(w, again)
  {
    var role := RoleOfUpdate(s, update);
    var w := Preset(schemas, s, update, next).value;
    UpdateRoleKept(schemas, s, update, next);
    FillTwice(schemas, role, update, next, again);
    forall steps ensures !Lacking(schemas, role, w, steps) {
      FixedIsComplete(schemas, role, w, again, steps);
    }
  }

  /** Presetting leaves an update as it is exactly when no sub-document lacks an id. */
  lemma UnchangedIffComplete(schemas: Schemas, s: nat, update: Value, next: nat)
    ensures Preset(schemas, s, update, next).value == update <==>
            Complete(schemas, RoleOfUpdate(s, update), update)
  {
    var role := RoleOfUpdate(s, update);
    if Preset(schemas, s, update, next).value == update {
      forall steps ensures !Lacking(schemas, role, update, steps) {
        FixedIsComplete(schemas, role, update, next, steps);
      }
    }
    if Complete(schemas, role, update) {
      CompleteIsFixed(schemas, role, update, next);
    }
  }

  // --- the new ids -----------------------------------------------------------------------------

  predicate Blank(v: Value) {
    v.Undefined? || v.Null?
  }

  lemma {:induction false} NextGrows(schemas: Schemas, role: Role, v: Value, next: nat)
    ensures Fill(schemas, role, v, next).next >= next + Minted(schemas, role, v)
    decreases v, Arity(v) + 1
  {
    hide RoleOfKid, WithKids, WithId;
    KidsGrow(schemas, role, v, 0, Arity(v), next + Minted(schemas, role, v));
  }

  lemma {:induction false} KidsGrow(schemas: Schemas, role: Role, v: Value, m: nat, n: nat, next: nat)
    requires m <= n <= Arity(v)
    ensures FillKids(schemas, role, v, m, next).next <= FillKids(schemas, role, v, n, next).next
    decreases v, n
  {
    hide RoleOfKid, WithKids, WithId;
    if m < n {
      KidsGrow(schemas, role, v, m, n - 1, next);
      NextGrows(schemas, RoleOfKid(schemas, role, v, n - 1), Kid(v, n - 1),
                FillKids(schemas, role, v, n - 1, next).next);
    }
  }

  /** The number of the id minted for the sub-document at the position. */
  function NumberOf(schemas: Schemas, role: Role, v: Value, next: nat, steps: seq<nat>): nat
    requires Get(v, steps).Some?
    decreases v
  {
    if steps == [] then next
    else
      var i := steps[0];
      NumberOf(schemas, RoleOfKid(schemas, role, v, i), Kid(v, i), Start(schemas, role, v, i, next), steps[1..])
  }

  lemma KidStarts(schemas: Schemas, role: Role, v: Value, next: nat, i: nat)
    requires i <= Arity(v)
    ensures next + Minted(schemas, role, v) <= Start(schemas, role, v, i, next)
  {
    hide RoleOfKid, WithKids, WithId, LacksId;
    KidsGrow(schemas, role, v, 0, i, next + Minted(schemas, role, v));
  }

  lemma KidsDone(schemas: Schemas, role: Role, v: Value, next: nat, i: nat)
    requires i <= Arity(v)
    ensures Start(schemas, role, v, i, next) <= Fill(schemas, role, v, next).next
  {
    hide RoleOfKid, WithKids, WithId, LacksId;
    KidsGrow(schemas, role, v, i, Arity(v), next + Minted(schemas, role, v));
  }

  /** The ids inside an element or field lie before those of the next one. */
  lemma KidEnds(schemas: Schemas, role: Role, v: Value, next: nat, i: nat, j: nat)
    requires i < j <= Arity(v)
    ensures FilledKid(schemas, role, v, i, next).next <= Start(schemas, role, v, j, next)
  {
    hide RoleOfKid, WithKids, WithId, LacksId;
    KidsGrow(schemas, role, v, i + 1, j, next + Minted(schemas, role, v));
  }

  lemma BlankLacksNothing(schemas: Schemas, role: Role, v: Value, steps: seq<nat>)
    ensures Blank(v) ==> !Lacking(schemas, role, v, steps)
  {
  }

  lemma NewIdWasBlank(schemas: Schemas, role: Role, v: Value, i: nat)
    requires i < Arity(v)
    ensures IsNewId(schemas, role, v, i) ==> Blank(Kid(v, i))
  {
  }

  /** Each sub-document lacking an id gets one: minted in this call, at the position it was. */
  lemma {:induction false} MintedAt(schemas: Schemas, role: Role, v: Value, next: nat, steps: seq<nat>)
    requires Lacking(schemas, role, v, steps)
    ensures var r, k := Fill(schemas, role, v, next), NumberOf(schemas, role, v, next, steps);
            && next <= k < r.next
            && Get(r.value, steps).Some? && IdOf(Get(r.value, steps).value) == Id(k)
    decreases v, 1
  {
    FilledIs(schemas, role, v, next);
    if steps == [] {
      NextGrows(schemas, role, v, next);
    } else {
      var i := steps[0];
      MintedInside(schemas, role, v, next, steps);
      KidOfFilled(schemas, role, v, next, i);
      BlankLacksNothing(schemas, RoleOfKid(schemas, role, v, i), Kid(v, i), steps[1..]);
      NewIdWasBlank(schemas, role, v, i);
    }
  }

  /** The same for a position inside the i-th element or field. */
  lemma {:induction false} MintedInside(schemas: Schemas, role: Role, v: Value, next: nat, steps: seq<nat>)
    requires steps != [] && Lacking(schemas, role, v, steps)
    ensures var i, k := steps[0], NumberOf(schemas, role, v, next, steps);
            var kid := FilledKid(schemas, role, v, i, next);
            && Start(schemas, role, v, i, next) <= k < kid.next
            && next + Minted(schemas, role, v) <= k < Fill(schemas, role, v, next).next
            && Get(kid.value, steps[1..]).Some? && IdOf(Get(kid.value, steps[1..]).value) == Id(k)
    decreases v, 0
  {
    hide RoleAt, WithKids, WithId;
    var i := steps[0];
    MintedAt(schemas, RoleOfKid(schemas, role, v, i), Kid(v, i), Start(schemas, role, v, i, next), steps[1..]);
    KidStarts(schemas, role, v, next, i);
    KidsDone(schemas, role, v, next, i + 1);
    KidEnds(schemas, role, v, next, i, i + 1);
  }

  /** No id is given twice. */
  lemma {:induction false} MintedOnce(schemas: Schemas, role: Role, v: Value, next: nat, a: seq<nat>, b: seq<nat>)
    requires Lacking(schemas, role, v, a) && Lacking(schemas, role, v, b) && a != b
    ensures NumberOf(schemas, role, v, next, a) != NumberOf(schemas, role, v, next, b)
    decreases v
  {
    if a == [] || b == [] {
      MintedInside(schemas, role, v, next, if a == [] then b else a);
    } else if a[0] == b[0] {
      var i := a[0];
      assert a == [i] + a[1..] && b == [i] + b[1..];
      MintedOnce(schemas, RoleOfKid(schemas, role, v, i), Kid(v, i), Start(schemas, role, v, i, next), a[1..], b[1..]);
    } else {
      MintedInside(schemas, role, v, next, a);
      MintedInside(schemas, role, v, next, b);
      KidEnds(schemas, role, v, next, if a[0] < b[0] then a[0] else b[0], if a[0] < b[0] then b[0] else a[0]);
    }
  }

  /** Every value but a missing one stays where it was, so every id that was there is kept. */
  lemma {:induction false} KeptAt(schemas: Schemas, role: Role, v: Value, next: nat, steps: seq<nat>)
    requires Get(v, steps).Some? && Arity(Get(v, steps).value) == 0
    requires !Blank(Get(v, steps).value) && !Get(v, steps).value.Doc?
    ensures Get(Fill(schemas, role, v, next).value, steps) == Get(v, steps)
    decreases v
  {
    FilledIs(schemas, role, v, next);
    if steps != [] {
      var i := steps[0];
      KidOfFilled(schemas, role, v, next, i);
      KeptAt(schemas, RoleOfKid(schemas, role, v, i), Kid(v, i), Start(schemas, role, v, i, next), steps[1..]);
      NewIdWasBlank(schemas, role, v, i);
    }
  }

  // --- deleting the new ids --------------------------------------------------------------------

  /** Missing, or an id minted from `from` on. */
  predicate Removable(v: Value, from: nat) {
    Blank(v) || (v.Id? && v.n >= from)
  }

  /** The value without the `_id` fields that are missing or minted from `from` on. */
  function Dropped(v: Value, from: nat): Value
    decreases v, Arity(v) + 1
  {
    match v
    case List(items) => List(DroppedItems(v, |items|, from))
    case Doc(fields) => Doc(DroppedFields(v, |fields|, from))
    case _ => v
  }

  function DroppedItems(v: Value, n: nat, from: nat): seq<Value>
    requires n <= Arity(v)
    decreases v, n
  {
    if n == 0 then [] else DroppedItems(v, n - 1, from) + [Dropped(Kid(v, n - 1), from)]
  }

  function DroppedFields(v: Value, n: nat, from: nat): seq<Field>
    requires v.Doc? && n <= Arity(v)
    decreases v, n
  {
    if n == 0 then []
    else if v.fields[n - 1].key == "_id" && Removable(Kid(v, n - 1), from) then DroppedFields(v, n - 1, from)
    else DroppedFields(v, n - 1, from) + [Field(v.fields[n - 1].key, Dropped(Kid(v, n - 1), from))]
  }

  /** The first `n` elements or fields of both come to the same. */
  ghost predicate SameDropped(v: Value, w: Value, n: nat, from: nat)
    requires n <= Arity(v) && n <= Arity(w)
  {
    && (v.Doc? <==> w.Doc?) && (v.List? <==> w.List?)
    && forall i | 0 <= i < n ::
      && (v.Doc? ==> v.fields[i].key == w.fields[i].key)
      && (Removable(Kid(v, i), from) <==> Removable(Kid(w, i), from))
      && (Dropped(Kid(v, i), from) == Dropped(Kid(w, i), from)
          || (v.Doc? && v.fields[i].key == "_id" && Removable(Kid(v, i), from)))
  }

  lemma {:induction false} SameItems(v: Value, w: Value, n: nat, from: nat)
    requires v.List? && w.List? && n <= Arity(v) && n <= Arity(w) && SameDropped(v, w, n, from)
    ensures DroppedItems(v, n, from) == DroppedItems(w, n, from)
  {
    if n > 0 {
      SameItems(v, w, n - 1, from);
    }
  }

  lemma {:induction false} SameFields(v: Value, w: Value, n: nat, from: nat)
    requires v.Doc? && w.Doc? && n <= Arity(v) && n <= Arity(w) && SameDropped(v, w, n, from)
    ensures DroppedFields(v, n, from) == DroppedFields(w, n, from)
  {
    if n > 0 {
      SameFields(v, w, n - 1, from);
    }
  }

  /** Dropping the ids minted from here on takes back everything that filling did. */
  lemma {:induction false} DropTakesBack(schemas: Schemas, role: Role, v: Value, next: nat, from: nat)
    requires from <= next
    ensures var w := Fill(schemas, role, v, next).value;
            Dropped(w, from) == Dropped(v, from) && (Removable(w, from) <==> Removable(v, from))
    decreases v, 1
  {
    var w := Fill(schemas, role, v, next).value;
    FilledIs(schemas, role, v, next);
    if Arity(v) == 0 && !v.List? && !v.Doc? {
      assert w == v;
    } else {
      DropKids(schemas, role, v, next, from);
      if v.List? {
        SameItems(v, w, Arity(v), from);
      } else {
        SameFields(v, w, Arity(v), from);
        DropLast(v, w, FilledKidsOf(schemas, role, v, next), LacksId(schemas, role, v), next, from);
      }
    }
  }

  /** An appended id is dropped again. */
  lemma DropLast(v: Value, w: Value, kids: seq<Value>, own: bool, next: nat, from: nat)
    requires v.Doc? && w.Doc? && |kids| == Arity(v) && from <= next && IsFinished(v, kids, own, next, w)
    ensures DroppedFields(w, Arity(w), from) == DroppedFields(w, Arity(v), from)
  {
    if Arity(w) > Arity(v) {
      assert Kid(w, Arity(v)) == Id(next);
    }
  }

  lemma {:induction false} DropKids(schemas: Schemas, role: Role, v: Value, next: nat, from: nat)
    requires from <= next
    ensures var w := Fill(schemas, role, v, next).value;
            Arity(v) <= Arity(w) && SameDropped(v, w, Arity(v), from)
    decreases v, 0
  {
    hide FilledKidsOf, Arity, IndexOf, Fill, Start, IsEach, HasId, RoleAt, Appends, IdOf;
    var w := Fill(schemas, role, v, next).value;
    FilledIs(schemas, role, v, next);
    forall i | 0 <= i < Arity(v)
      ensures (Removable(Kid(v, i), from) <==> Removable(Kid(w, i), from))
      ensures IsNewId(schemas, role, v, i) || Dropped(Kid(v, i), from) == Dropped(Kid(w, i), from)
    {
      KidOfFilled(schemas, role, v, next, i);
      KidStarts(schemas, role, v, next, i);
      DropTakesBack(schemas, RoleOfKid(schemas, role, v, i), Kid(v, i), Start(schemas, role, v, i, next), from);
      NewIdWasBlank(schemas, role, v, i);
    }
  }

  /** No `_id` is missing or minted from `from` on. */
  predicate Clean(v: Value, from: nat)
    decreases v
  {
    forall i | 0 <= i < Arity(v) ::
      Clean(Kid(v, i), from) && !(v.Doc? && v.fields[i].key == "_id" && Removable(Kid(v, i), from))
  }

  lemma CleanKid(v: Value, i: nat, from: nat)
    requires i < Arity(v) && Clean(v, from)
    ensures Clean(Kid(v, i), from) && !(v.Doc? && v.fields[i].key == "_id" && Removable(Kid(v, i), from))
  {
  }

  lemma WholeValue(v: Value, from: nat)
    requires v.List? ==> DroppedItems(v, Arity(v), from) == v.items[..Arity(v)]
    requires v.Doc? ==> DroppedFields(v, Arity(v), from) == v.fields[..Arity(v)]
    ensures Dropped(v, from) == v
  {
  }

  lemma {:induction false} CleanDropsNothing(v: Value, n: nat, from: nat)
    requires n <= Arity(v) && Clean(v, from)
    ensures v.List? ==> DroppedItems(v, n, from) == v.items[..n]
    ensures v.Doc? ==> DroppedFields(v, n, from) == v.fields[..n]
    decreases v, n
  {
    hide Clean, Dropped, Removable;
    if n > 0 {
      var kid := Kid(v, n - 1);
      CleanKid(v, n - 1, from);
      CleanDropsNothing(v, n - 1, from);
      CleanDropsNothing(kid, Arity(kid), from);
      WholeValue(kid, from);
      assert v.Doc? ==> v.fields[..n] == v.fields[..n - 1] + [v.fields[n - 1]];
      assert v.List? ==> v.items[..n] == v.items[..n - 1] + [v.items[n - 1]];
    }
  }

  /** Deleting the ids that presetting added restores the update. */
  lemma PresetIsTakenBack(schemas: Schemas, s: nat, update: Value, next: nat)
    requires Clean(update, next)
    ensures Dropped(Preset(schemas, s, update, next).value, next) == update
  {
    DropTakesBack(schemas, RoleOfUpdate(s, update), update, next, next);
    CleanDropsNothing(update, Arity(update), next);
  }

  // --- the walk through the update -------------------------------------------------------------

  /** How deeply lists and documents are nested. */
  function Depth(v: Value): nat
    decreases v, Arity(v) + 1
  {
    if v.Doc? || v.List? then 1 + Highest(v, Arity(v)) else 0
  }

  function Highest(v: Value, n: nat): nat
    requires n <= Arity(v)
    decreases v, n
  {
    if n == 0 then 0
    else if Depth(Kid(v, n - 1)) > Highest(v, n - 1) then Depth(Kid(v, n - 1))
    else Highest(v, n - 1)
  }

  lemma {:induction false} KidDepth(v: Value, n: nat, i: nat)
    requires i < n <= Arity(v)
    ensures Depth(Kid(v, i)) <= Highest(v, n)
    ensures n == Arity(v) ==> Depth(Kid(v, i)) < Depth(v)
  {
    if i < n - 1 {
      KidDepth(v, n - 1, i);
    }
  }

  lemma {:induction false} IdDepth(v: Value, id: nat, n: nat)
    requires v.Doc? && !HasId(v) && n <= Arity(v)
    ensures n <= Arity(WithId(v, Id(id))) && Highest(WithId(v, Id(id)), n) == Highest(v, n)
  {
    hide IndexOf;
    IdSet(v, id);
    if n > 0 {
      IdDepth(v, id, n - 1);
      var i := n - 1;
      assert i == IndexOf(v.fields, "_id") ==> Depth(Kid(v, i)) == 0 && Kid(WithId(v, Id(id)), i) == Id(id);
    }
  }

  lemma DepthWithId(v: Value, id: nat)
    requires v.Doc? && !HasId(v)
    ensures Depth(WithId(v, Id(id))) == Depth(v)
  {
    var w := WithId(v, Id(id));
    IdSet(v, id);
    IdDepth(v, id, Arity(v));
    if Arity(w) > Arity(v) {
      assert Kid(w, Arity(v)) == Id(id);
      assert Highest(w, Arity(w)) == Highest(w, Arity(v));
    } else {
      assert Arity(w) == Arity(v);
    }
  }

  lemma {:induction false} KidsOfWhole(schemas: Schemas, t: nat, v: Value, n: nat, m: nat)
    requires v.Doc? && n <= Arity(v)
    ensures FillKids(schemas, Whole(t), v, n, m) == FillKids(schemas, Subdocument(t), v, n, m)
  {
    if n > 0 {
      KidsOfWhole(schemas, t, v, n - 1, m);
    }
  }

  /** With the id set before the fields are filled, the `_id` field alone differs. */
  lemma {:induction false} KidsAfterId(schemas: Schemas, t: nat, v: Value, id: nat, n: nat, m: nat)
    requires v.Doc? && n <= Arity(v) <= Arity(WithId(v, Id(id)))
    ensures var a := FillKids(schemas, Subdocument(t), v, n, m);
            var b := FillKids(schemas, Whole(t), WithId(v, Id(id)), n, m);
            && a.next == b.next
            && forall j | 0 <= j < n :: b.values[j] == if j == IndexOf(v.fields, "_id") then Id(id) else a.values[j]
  {
    hide RoleAt, WithId, IndexOf, Fill, Introduces, RoleOfKid, Kid, WithKids, LacksId;
    if n > 0 {
      KidsAfterId(schemas, t, v, id, n - 1, m);
      KidAfterId(schemas, t, v, id, n - 1, FillKids(schemas, Subdocument(t), v, n - 1, m).next);
    }
  }

  /** A field fills alike in both roles, but for the `_id` that is set. */
  lemma KidAfterId(schemas: Schemas, t: nat, v: Value, id: nat, i: nat, from: nat)
    requires v.Doc? && i < Arity(v) <= Arity(WithId(v, Id(id)))
    ensures var w := WithId(v, Id(id));
            var a := Fill(schemas, RoleOfKid(schemas, Subdocument(t), v, i), Kid(v, i), from);
            var b := Fill(schemas, RoleOfKid(schemas, Whole(t), w, i), Kid(w, i), from);
            b == if i == IndexOf(v.fields, "_id") then Filled(Id(id), a.next) else a
  {
    hide RoleAt, WithId, IndexOf, Fill, Introduces;
    var w := WithId(v, Id(id));
    IdSet(v, id);
    if v.fields[i].key == "_id" {
      FillIgnored(schemas, Kid(v, i), from);
      FillIgnored(schemas, Kid(w, i), from);
    } else {
      assert RoleOfKid(schemas, Whole(t), w, i) == RoleOfKid(schemas, Subdocument(t), v, i);
    }
  }

  /** Setting the id and then filling the fields is filling the sub-document. */
  lemma IdAppended(schemas: Schemas, t: nat, v: Value, id: nat, next: nat)
    requires v.Doc? && IndexOf(v.fields, "_id") < 0
    ensures var w := WithId(v, Id(id));
            && Arity(w) == Arity(v) + 1
            && FillKids(schemas, Whole(t), w, Arity(w), next) ==
               FilledKids(FillKids(schemas, Whole(t), w, Arity(v), next).values + [Id(id)],
                          FillKids(schemas, Whole(t), w, Arity(v), next).next)
  {
    hide RoleAt, Fill, Introduces;
    var n, w := Arity(v), WithId(v, Id(id));
    assert Arity(w) == n + 1 && Kid(w, n) == Id(id);
    FillIgnored(schemas, Kid(w, n), FillKids(schemas, Whole(t), w, n, next).next);
    assert RoleOfKid(schemas, Whole(t), w, n) == Ignored;
  }

  lemma IdFirst(schemas: Schemas, t: nat, v: Value, id: nat)
    requires LacksId(schemas, Subdocument(t), v)
    ensures Fill(schemas, Whole(t), WithId(v, Id(id)), id + 1) == Fill(schemas, Subdocument(t), v, id)
  {
    hide WithId, WithKids, FillKids, RoleAt, IndexOf;
    var n, w := Arity(v), WithId(v, Id(id));
    LacksIsDoc(schemas, t, v);
    IdSet(v, id);
    KidsAfterId(schemas, t, v, id, n, id + 1);
    if IndexOf(v.fields, "_id") < 0 {
      IdAppended(schemas, t, v, id, id + 1);
    }
    SameDocument(v, w, FillKids(schemas, Subdocument(t), v, n, id + 1).values,
                 FillKids(schemas, Whole(t), w, Arity(w), id + 1).values, id);
  }

  lemma LacksIsDoc(schemas: Schemas, t: nat, v: Value)
    requires LacksId(schemas, Subdocument(t), v)
    ensures v.Doc?
  {
  }

  lemma SameDocument(v: Value, w: Value, a: seq<Value>, b: seq<Value>, id: nat)
    requires v.Doc? && w == WithId(v, Id(id)) && |a| == Arity(v) && |b| == Arity(w)
    requires forall j | 0 <= j < |b| :: b[j] == if j == |a| || j == IndexOf(v.fields, "_id") then Id(id) else a[j]
    ensures WithKids(w, b) == WithId(WithKids(v, a), Id(id))
  {
    hide Rekeyed, IndexOf;
    var u, i := WithKids(v, a), IndexOf(v.fields, "_id");
    Rebuilt(v, a);
    IndexSame(v.fields, u.fields, "_id");
    if i >= 0 {
      assert Rekeyed(w.fields, b) == u.fields[i := Field("_id", Id(id))];
    } else {
      assert Rekeyed(w.fields, b) == u.fields + [Field("_id", Id(id))];
    }
  }

  /** The fields of a document that needs no id. */
  lemma WithoutId(schemas: Schemas, t: nat, v: Value, next: nat)
    requires v.Doc? && !LacksId(schemas, Subdocument(t), v)
    ensures Fill(schemas, Whole(t), v, next) == Fill(schemas, Subdocument(t), v, next)
  {
    KidsOfWhole(schemas, t, v, Arity(v), next);
    FillIs(schemas, Whole(t), v, next);
    FillIs(schemas, Subdocument(t), v, next);
  }

  lemma FillIs(schemas: Schemas, role: Role, v: Value, next: nat)
    requires !LacksId(schemas, role, v)
    ensures var kids := FillKids(schemas, role, v, Arity(v), next);
            Fill(schemas, role, v, next) == Filled(WithKids(v, kids.values), kids.next)
  {
  }

  /** A single value that is neither list nor document stays as it is. */
  lemma NothingInside(schemas: Schemas, role: Role, v: Value, next: nat)
    requires role.Ignored? || (role.Subdocument? && !v.Doc?)
    ensures Fill(schemas, role, v, next) == Filled(v, next)
  {
    FillIgnored(schemas, v, next);
    if role.Subdocument? {
      if v.List? {
        ListIgnored(schemas, role, v, Arity(v), next);
      }
    }
  }

  lemma {:induction false} ListIgnored(schemas: Schemas, role: Role, v: Value, n: nat, next: nat)
    requires v.List? && role.Subdocument? && n <= Arity(v)
    ensures FillKids(schemas, role, v, n, next) == FillKids(schemas, Ignored, v, n, next)
  {
    if n > 0 {
      ListIgnored(schemas, role, v, n - 1, next);
    }
  }

  /** Under `$each`, only the list is filled. */
  lemma {:induction false} KidsOfEach(schemas: Schemas, t: nat, v: Value, n: nat, next: nat)
    requires IsEach(v) && n <= Arity(v)
    ensures var e := IndexOf(v.fields, "$each");
            var list := Fill(schemas, Elements(t), Kid(v, e), next);
            var r := FillKids(schemas, Each(t), v, n, next);
            && r.next == (if e < n then list.next else next)
            && forall j | 0 <= j < n :: r.values[j] == if j == e then list.value else Kid(v, j)
  {
    hide Arity, IndexOf, Kid, Fill, Introduces, RoleInArray, SchemaPath, Appends;
    if n > 0 {
      KidsOfEach(schemas, t, v, n - 1, next);
      var e := IndexOf(v.fields, "$each");
      if n - 1 != e {
        FillIgnored(schemas, Kid(v, n - 1), FillKids(schemas, Each(t), v, n - 1, next).next);
      }
    }
  }

  lemma FillEach(schemas: Schemas, t: nat, v: Value, next: nat)
    requires IsEach(v)
    ensures var e := IndexOf(v.fields, "$each");
            var list := Fill(schemas, Elements(t), Kid(v, e), next);
            Fill(schemas, Each(t), v, next) == Filled(Doc(v.fields[e := Field("$each", list.value)]), list.next)
  {
    hide RoleOfKid, WithId, Rekeyed;
    var e := IndexOf(v.fields, "$each");
    KidsOfEach(schemas, t, v, Arity(v), next);
    var r := FillKids(schemas, Each(t), v, Arity(v), next);
    Rebuilt(v, r.values);
    assert WithKids(v, r.values).fields == v.fields[e := Field("$each", r.values[e])];
  }

  method PresetSubdocumentIds(schemas: Schemas, s: nat, update: Value, next: nat) returns (copy: Value, after: nat)
    requires update.Doc?
    ensures Filled(copy, after) == Preset(schemas, s, update, next)
  {
    hide WithKids, Appends, Introduces, IsOperator, RoleInArray, SchemaPath;
    var isOperatorUpdate := exists i | 0 <= i < |update.fields| :: IsOperator(update.fields[i].key);
    if !isOperatorUpdate {
      copy, after := FillObject(schemas, s, update, next);
      return;
    }
    var values;
    values, after := FillOperators(schemas, s, update, next);
    copy := WithKids(update, values);
  }

  /** The operators of an update, in order. */
  method FillOperators(schemas: Schemas, s: nat, update: Value, next: nat) returns (values: seq<Value>, after: nat)
    requires update.Doc?
    ensures FilledKids(values, after) == FillKids(schemas, Operators(s), update, |update.fields|, next)
  {
    hide Fill, RoleOfKid;
    values, after := [], next;
    for i := 0 to |update.fields|
      invariant FilledKids(values, after) == FillKids(schemas, Operators(s), update, i, next)
    {
      var fields;
      fields, after := FillOperator(schemas, s, update, i, after);
      values := values + [fields];
    }
  }

  method FillOperator(schemas: Schemas, s: nat, update: Value, i: nat, next: nat) returns (fields: Value, after: nat)
    requires update.Doc? && i < |update.fields|
    ensures Filled(fields, after) == Fill(schemas, RoleOfKid(schemas, Operators(s), update, i), Kid(update, i), next)
  {
    hide Fill, Appends, IsOperator, SchemaPath;
    var operator := update.fields[i].key;
    fields, after := update.fields[i].value, next;
    if Introduces(operator) && fields.Doc? {
      fields, after := FillPaths(schemas, s, fields, Appends(operator), after);
    } else {
      NothingInside(schemas, Ignored, fields, after);
    }
  }

  /** The paths and values of one operator. */
  method FillPaths(schemas: Schemas, s: nat, fields: Value, appending: bool, next: nat)
    returns (filled: Value, after: nat)
    requires fields.Doc?
    ensures Filled(filled, after) == Fill(schemas, Fields(s, appending), fields, next)
  {
    hide RoleAt, WithId, WithKids;
    var values: seq<Value> := [];
    after := next;
    for i := 0 to |fields.fields|
      invariant FilledKids(values, after) == FillKids(schemas, Fields(s, appending), fields, i, next)
    {
      var value;
      value, after := FillAtPath(schemas, s, fields.fields[i].key, fields.fields[i].value, appending, after);
      values := values + [value];
    }
    filled := WithKids(fields, values);
    FillIs(schemas, Fields(s, appending), fields, next);
  }

  method FillAtPath(schemas: Schemas, s: nat, path: string, value: Value, appending: bool, next: nat)
    returns (filled: Value, after: nat)
    ensures Filled(filled, after) == Fill(schemas, RoleAt(schemas, s, path, value, appending), value, next)
    decreases Depth(value), 4
  {
    hide WithKids, WithId;
    filled, after := value, next;
    var schemaPath := SchemaPath(path);
    if schemaPath == "" {
      NothingInside(schemas, Ignored, value, next);
      return;
    }
    match schemas(s).path(schemaPath)
    case Some(DocumentArray(t)) =>
      filled, after := FillInArray(schemas, t, path, value, appending, next);
    case Some(SingleNested(t)) =>
      filled, after := FillSubdocument(schemas, t, value, next);
    case Some(Other) =>
      NothingInside(schemas, Ignored, value, next);
    case None =>
      if value.Doc? {
        filled, after := FillPlain(schemas, s, schemaPath, value, next);
      } else {
        NothingInside(schemas, Ignored, value, next);
      }
  }

  method FillInArray(schemas: Schemas, t: nat, path: string, value: Value, appending: bool, next: nat)
    returns (filled: Value, after: nat)
    ensures Filled(filled, after) == Fill(schemas, RoleInArray(t, path, value, appending), value, next)
    decreases Depth(value), 3
  {
    if appending && IsEach(value) {
      var e := IndexOf(value.fields, "$each");
      var list;
      KidDepth(value, Arity(value), e);
      list, after := FillElements(schemas, t, value.fields[e].value, next);
      filled := Doc(value.fields[e := Field("$each", list)]);
      FillEach(schemas, t, value, next);
    } else if appending || EndsAtElement(path) {
      filled, after := FillSubdocument(schemas, t, value, next);
    } else if value.List? {
      filled, after := FillElements(schemas, t, value, next);
    } else {
      filled, after := value, next;
      NothingInside(schemas, Ignored, value, next);
    }
  }

  method FillPlain(schemas: Schemas, s: nat, schemaPath: string, value: Value, next: nat)
    returns (filled: Value, after: nat)
    requires value.Doc?
    ensures Filled(filled, after) == Fill(schemas, Plain(s, schemaPath), value, next)
    decreases Depth(value), 2
  {
    hide RoleAt, WithId, WithKids;
    var values: seq<Value> := [];
    after := next;
    for i := 0 to |value.fields|
      invariant FilledKids(values, after) == FillKids(schemas, Plain(s, schemaPath), value, i, next)
    {
      var inner;
      KidDepth(value, Arity(value), i);
      inner, after := FillAtPath(schemas, s, schemaPath + "." + value.fields[i].key, value.fields[i].value,
                                false, after);
      values := values + [inner];
    }
    filled := WithKids(value, values);
    FillIs(schemas, Plain(s, schemaPath), value, next);
  }

  method FillElements(schemas: Schemas, t: nat, list: Value, next: nat) returns (filled: Value, after: nat)
    requires list.List?
    ensures Filled(filled, after) == Fill(schemas, Elements(t), list, next)
    decreases Depth(list), 2
  {
    hide RoleAt, WithId, WithKids;
    var values: seq<Value> := [];
    after := next;
    for i := 0 to |list.items|
      invariant FilledKids(values, after) == FillKids(schemas, Elements(t), list, i, next)
    {
      var element;
      KidDepth(list, Arity(list), i);
      element, after := FillSubdocument(schemas, t, list.items[i], after);
      values := values + [element];
    }
    filled := WithKids(list, values);
    FillIs(schemas, Elements(t), list, next);
  }

  method FillSubdocument(schemas: Schemas, t: nat, value: Value, next: nat) returns (filled: Value, after: nat)
    ensures Filled(filled, after) == Fill(schemas, Subdocument(t), value, next)
    decreases Depth(value), 2
  {
    if !value.Doc? {
      NothingInside(schemas, Subdocument(t), value, next);
      return value, next;
    }
    if !schemas(t).idDisabled && !HasId(value) {
      DepthWithId(value, next);
      IdFirst(schemas, t, value, next);
      filled, after := FillObject(schemas, t, WithId(value, Id(next)), next + 1);
    } else {
      WithoutId(schemas, t, value, next);
      filled, after := FillObject(schemas, t, value, next);
    }
  }

  method FillObject(schemas: Schemas, s: nat, doc: Value, next: nat) returns (filled: Value, after: nat)
    requires doc.Doc?
    ensures Filled(filled, after) == Fill(schemas, Whole(s), doc, next)
    decreases Depth(doc), 1
  {
    hide RoleAt, WithId, WithKids;
    var values: seq<Value> := [];
    after := next;
    for i := 0 to |doc.fields|
      invariant FilledKids(values, after) == FillKids(schemas, Whole(s), doc, i, next)
    {
      var key, value := doc.fields[i].key, doc.fields[i].value;
      if key == "_id" {
        NothingInside(schemas, Ignored, value, after);
      } else {
        KidDepth(doc, Arity(doc), i);
        value, after := FillAtPath(schemas, s, key, value, false, after);
      }
      values := values + [value];
    }
    filled := WithKids(doc, values);
    FillIs(schemas, Whole(s), doc, next);
  }
}
