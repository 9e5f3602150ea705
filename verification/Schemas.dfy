/** The generated dataclasses as both walkers see them, and the data they hold
    (runtime/message.py, protocol/hydrate.py). */
module Schemas {
  import opened Common
  import opened JsonValues

  /** A type hint. A union's None is its `nullable`; its place among the members
      does not matter to either walker. */
  datatype Ty =
    | TBool
    | TInt
    | TFloat
    | TStr
    | TLiteral(allowed: seq<string>)
    | TEnum(enumName: string, values: seq<string>)
    | TList(item: Ty)
    | TDict(item: Ty)
    | TClass(cls: Class)
    | TUnion(members: seq<Ty>, nullable: bool)

  datatype Class = Class(name: string, fields: seq<Field>)

  /** A field without a default is required; the default of the others is None. */
  datatype Field = Field(name: string, ty: Ty, required: bool)

  /** A decoded value. An object has one value per field of its class, in
      declaration order. */
  datatype Data =
    | DNull
    | DBool(b: bool)
    | DInt(i: int)
    | DFloat(r: real)
    | DStr(s: string)
    | DEnum(enumName: string, value: string)
    | DList(items: seq<Data>)
    | DDict(entries: map<string, Data>)
    | DObj(cls: Class, vals: seq<Data>)

  const KEYWORDS := {
    "False", "None", "True", "and", "as", "assert", "async", "await", "break", "class", "continue", "def", "del",
    "elif", "else", "except", "finally", "for", "from", "global", "if", "import", "in", "is", "lambda", "nonlocal",
    "not", "or", "pass", "raise", "return", "try", "while", "with", "yield"
  }

  /** `_json_key`: a field named `from_` stands for the JSON key `from`. */
  function JsonKey(field: string): string {
    if field != "" && field[|field| - 1] == '_' && field[..|field| - 1] in KEYWORDS then field[..|field| - 1] else field
  }

  /** Exactly a keyword with an underscore behind it stands for another key. */
  lemma JsonKeyIff(field: string, key: string)
    ensures JsonKey(field) == key <==>
            if exists k | k in KEYWORDS :: field == k + "_" then key in KEYWORDS && field == key + "_" else field == key
    ensures JsonKey("from_") == "from"
  {
    assert field != "" ==> field == field[..|field| - 1] + [field[|field| - 1]];
    forall k | k in KEYWORDS && field == k + "_" ensures k == field[..|field| - 1] {
    }
    assert "from_"[..4] == "from";
  }

  /** Field names are identifiers, so none is a keyword: their JSON keys are as
      distinct as they are. */
  lemma JsonKeysDiffer(x: string, y: string)
    requires x !in KEYWORDS && y !in KEYWORDS && JsonKey(x) == JsonKey(y)
    ensures x == y
  {
    if JsonKey(x) != x {
      assert x == JsonKey(x) + "_";
    }
    if JsonKey(y) != y {
      assert y == JsonKey(y) + "_";
    }
  }

  function Keys(cls: Class): set<string> {
    set i | 0 <= i < |cls.fields| :: JsonKey(cls.fields[i].name)
  }

  // ---------------------------------------------------------------------
  // Well-formed and unambiguous schemas
  // ---------------------------------------------------------------------

  /** The class has a field that must be one of `allowed`. */
  predicate Demands(cls: Class, key: string, allowed: seq<string>) {
    exists i | 0 <= i < |cls.fields| ::
      cls.fields[i].ty == TLiteral(allowed) && cls.fields[i].required && JsonKey(cls.fields[i].name) == key
  }

  predicate NoneShared(x: seq<string>, y: seq<string>) {
    forall s | s in x :: s !in y
  }

  /** The classes are told apart by a literal field of the same key. */
  predicate ToldApart(c: Class, d: Class) {
    exists i, j | 0 <= i < |c.fields| && 0 <= j < |d.fields| ::
      && c.fields[i].ty.TLiteral? && c.fields[i].required && d.fields[j].ty.TLiteral? && d.fields[j].required
      && JsonKey(c.fields[i].name) == JsonKey(d.fields[j].name)
      && NoneShared(c.fields[i].ty.allowed, d.fields[j].ty.allowed)
  }

  /** The strings a type takes; None for all of them. */
  function Strings(t: Ty): Option<seq<string>> {
    match t
    case TStr => None
    case TLiteral(allowed) => Some(allowed)
    case TEnum(_, values) => Some(values)
    case _ => Some([])
  }

  predicate Textual(t: Ty) {
    t.TStr? || t.TLiteral? || t.TEnum?
  }

  predicate Numeric(t: Ty) {
    t.TInt? || t.TFloat?
  }

  /** No value has the shape of both types. */
  predicate Disjoint(t: Ty, u: Ty) {
    if Textual(t) && Textual(u)
        then Strings(t).Some? && Strings(u).Some? && NoneShared(Strings(t).value, Strings(u).value)
    else if t.TClass? && u.TClass? then ToldApart(t.cls, u.cls)
    else if (t.TClass? || t.TDict?) && (u.TClass? || u.TDict?) then false
    else !(t.TBool? && u.TBool?) && !(Numeric(t) && Numeric(u)) && !(t.TList? && u.TList?) && !t.TUnion? && !u.TUnion?
  }

  /** What the generator emits: unions are flat, field names distinct
      identifiers, and a literal field is required. */
  predicate WellFormed(t: Ty)
    decreases t
  {
    match t
    case TList(item) => WellFormed(item)
    case TDict(item) => WellFormed(item)
    case TClass(cls) =>
      && (forall i | 0 <= i < |cls.fields| :: cls.fields[i].name !in KEYWORDS)
      && (forall i, j | 0 <= i < j < |cls.fields| :: cls.fields[i].name != cls.fields[j].name)
      && (forall i | 0 <= i < |cls.fields| :: cls.fields[i].ty.TLiteral? ==> cls.fields[i].required)
      && (forall i | 0 <= i < |cls.fields| :: WellFormed(cls.fields[i].ty))
    case TUnion(members, _) => forall i | 0 <= i < |members| :: !members[i].TUnion? && WellFormed(members[i])
    case _ => true
  }

  predicate Nullable(t: Ty) {
    t.TUnion? && t.nullable
  }

  /** The members of every union are told apart by their shape, and what must be
      there is not null. */
  predicate Unambiguous(t: Ty)
    decreases t
  {
    match t
    case TList(item) => Unambiguous(item)
    case TDict(item) => Unambiguous(item)
    case TClass(cls) =>
      forall i | 0 <= i < |cls.fields| ::
          Unambiguous(cls.fields[i].ty) && (cls.fields[i].required ==> !Nullable(cls.fields[i].ty))
    case TUnion(members, _) =>
      && (forall i | 0 <= i < |members| :: Unambiguous(members[i]))
      && (forall i, j | 0 <= i < j < |members| :: Disjoint(members[i], members[j]))
    case _ => true
  }

  /** The data is of the type. */
  predicate HasType(t: Ty, d: Data)
    decreases d, t
  {
    match t
    case TBool => d.DBool?
    case TInt => d.DInt?
    case TFloat => d.DFloat?
    case TStr => d.DStr?
    case TLiteral(allowed) => d.DStr? && d.s in allowed
    case TEnum(name, values) => d.DEnum? && d.enumName == name && d.value in values
    case TList(item) => d.DList? && forall i | 0 <= i < |d.items| :: HasType(item, d.items[i])
    case TDict(item) => d.DDict? && forall k | k in d.entries :: HasType(item, d.entries[k])
    case TClass(cls) =>
      && d.DObj? && d.cls == cls && |d.vals| == |cls.fields|
      && forall i | 0 <= i < |cls.fields| ::
           (!cls.fields[i].required && d.vals[i] == DNull) || HasType(cls.fields[i].ty, d.vals[i])
    case TUnion(members, nullable) =>
      if d.DNull? then nullable else exists i | 0 <= i < |members| :: HasType(members[i], d)
  }

  // ---------------------------------------------------------------------
  // Shapes
  // ---------------------------------------------------------------------

  /** The literal field `i` of the class has one of its values. */
  predicate LiteralFits(cls: Class, i: nat, j: Json)
    requires i < |cls.fields| && cls.fields[i].ty.TLiteral? && j.Obj?
  {
    var key := JsonKey(cls.fields[i].name);
    key in j.fields && j.fields[key].Str? && j.fields[key].s in cls.fields[i].ty.allowed
  }

  /** `_shape_matches` (protocol/hydrate.py): the top level only. Hydration picks
      a union's member by it; for message decoding it tells members apart in
      proofs. */
  predicate HasShape(t: Ty, j: Json) {
    match t
    case TBool => j.Bool?
    case TInt => j.Int?
    case TFloat => j.Int? || j.Float?
    case TStr => j.Str?
    case TLiteral(allowed) => j.Str? && j.s in allowed
    case TEnum(_, values) => j.Str? && j.s in values
    case TList(_) => j.Arr?
    case TDict(_) => j.Obj?
    case TClass(cls) => j.Obj? && forall i | 0 <= i < |cls.fields| :: cls.fields[i].ty.TLiteral? ==>
        LiteralFits(cls, i, j)
    case TUnion(_, _) => false
  }

  /** Disjoint types share no shape. */
  lemma DisjointShapes(t: Ty, u: Ty, j: Json)
    requires Disjoint(t, u) && HasShape(t, j)
    ensures !HasShape(u, j)
  {
    if t.TClass? && u.TClass? {
      var x, y :|
        && 0 <= x < |t.cls.fields| && 0 <= y < |u.cls.fields|
        && t.cls.fields[x].ty.TLiteral? && t.cls.fields[x].required && u.cls.fields[y].ty.TLiteral?
            && u.cls.fields[y].required
        && JsonKey(t.cls.fields[x].name) == JsonKey(u.cls.fields[y].name)
        && NoneShared(t.cls.fields[x].ty.allowed, u.cls.fields[y].ty.allowed);
      assert LiteralFits(t.cls, x, j);
      assert !LiteralFits(u.cls, y, j);
    }
  }

  lemma DisjointIsSymmetric(t: Ty, u: Ty)
    requires Disjoint(t, u)
    ensures Disjoint(u, t)
  {
    if t.TClass? && u.TClass? {
      var x, y :|
        && 0 <= x < |t.cls.fields| && 0 <= y < |u.cls.fields|
        && t.cls.fields[x].ty.TLiteral? && t.cls.fields[x].required && u.cls.fields[y].ty.TLiteral?
            && u.cls.fields[y].required
        && JsonKey(t.cls.fields[x].name) == JsonKey(u.cls.fields[y].name)
        && NoneShared(t.cls.fields[x].ty.allowed, u.cls.fields[y].ty.allowed);
      assert NoneShared(u.cls.fields[y].ty.allowed, t.cls.fields[x].ty.allowed);
    } else if Textual(t) && Textual(u) {
      assert NoneShared(Strings(u).value, Strings(t).value);
    }
  }

  /** In an unambiguous union, the member whose shape a value has is the only
      one. */
  lemma OneShape(t: Ty, k: nat, i: nat, j: Json)
    requires t.TUnion? && Unambiguous(t) && k < |t.members| && i < |t.members| && i != k && HasShape(t.members[k], j)
    ensures !HasShape(t.members[i], j)
  {
    if k < i {
      DisjointShapes(t.members[k], t.members[i], j);
    } else {
      DisjointIsSymmetric(t.members[i], t.members[k]);
      DisjointShapes(t.members[k], t.members[i], j);
    }
  }
}
