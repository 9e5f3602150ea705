/** The other decoder of the same schemas (protocol/hydrate.py), and that the two
    agree. */
module Hydration {
  import opened Common
  import opened JsonValues
  import opened Schemas
  import opened Messages

  /** Where among the first `n` the answer was yes. */
  function Hits(answers: seq<bool>, n: nat): (r: seq<nat>)
    requires n <= |answers|
    ensures forall i :: i in r <==> 0 <= i < n && answers[i]
  {
    if n == 0 then [] else Hits(answers, n - 1) + if answers[n - 1] then [n - 1] else []
  }

  lemma {:induction false} OneHit(answers: seq<bool>, n: nat, k: nat)
    requires n <= |answers|
    ensures Hits(answers, n) == [] <==> forall i | 0 <= i < n :: !answers[i]
    ensures Hits(answers, n) == [k] <==> k < n && answers[k] && forall i | 0 <= i < n && i != k :: !answers[i]
  {
    if n > 0 {
      OneHit(answers, n - 1, k);
    }
  }

  /** The members whose shape a value has. */
  function Matches(members: seq<Ty>, j: Json): (r: seq<nat>)
    ensures forall i :: i in r <==> 0 <= i < |members| && HasShape(members[i], j)
  {
    Hits(seq(|members|, i requires 0 <= i < |members| => HasShape(members[i], j)), |members|)
  }

  lemma OneMatch(members: seq<Ty>, j: Json, k: nat)
    ensures Matches(members, j) == [k]
       <==> k < |members| && HasShape(members[k], j) && forall i | 0 <= i < |members| && i != k ::
           !HasShape(members[i], j)
  {
    var answers := seq(|members|, i requires 0 <= i < |members| => HasShape(members[i], j));
    OneHit(answers, |members|, k);
  }

  /** Testing an enum member against a list or an object raises: neither can be
      looked up in a set. */
  predicate Raises(members: seq<Ty>, j: Json) {
    (j.Arr? || j.Obj?) && exists i | 0 <= i < |members| :: members[i].TEnum?
  }

  /** `_build`: None where it raises. A number keeps its own kind, and a union
      takes the one member whose shape the value has. */
  function Build(t: Ty, j: Json): Option<Data>
    decreases j, t
  {
    match t
    case TBool => if j.Bool? then Some(DBool(j.b)) else None
    case TInt => if j.Int? then Some(DInt(j.i)) else None
    case TFloat => if j.Float? then Some(DFloat(j.r)) else if j.Int? then Some(DInt(j.i)) else None
    case TStr => if j.Str? then Some(DStr(j.s)) else None
    case TLiteral(allowed) => if j.Str? && j.s in allowed then Some(DStr(j.s)) else None
    case TEnum(name, values) => if j.Str? && j.s in values then Some(DEnum(name, j.s)) else None
    case TList(item) =>
      if j.Arr? && forall i | 0 <= i < |j.items| :: Build(item, j.items[i]).Some?
      then Some(DList(seq(|j.items|, i requires 0 <= i < |j.items| && Build(item, j.items[i]).Some? =>
          Build(item, j.items[i]).value)))
      else None
    case TDict(item) =>
      if j.Obj? && forall k | k in j.fields :: Build(item, j.fields[k]).Some?
      then Some(DDict(map k | k in j.fields :: Build(item, j.fields[k]).value))
      else None
    case TClass(cls) =>
      if j.Obj? && j.fields.Keys <= Keys(cls) && forall i | 0 <= i < |cls.fields| :: BuildField(cls.fields[i], j).Some?
      then Some(DObj(cls, seq(|cls.fields|, i requires 0 <= i < |cls.fields| && BuildField(cls.fields[i], j).Some? =>
          BuildField(cls.fields[i], j).value)))
      else None
    case TUnion(members, nullable) =>
      if j.Null? then if nullable then Some(DNull) else None
      else if |members| == 1 then Build(members[0], j)
      else if Raises(members, j) then None
      else
        var matches := Matches(members, j);
        if |matches| == 1 then
          assert matches[0] in matches;
          Build(members[matches[0]], j)
        else None
  }

  function BuildField(f: Field, j: Json): Option<Data>
    requires j.Obj?
    decreases j, f
  {
    if JsonKey(f.name) in j.fields then Build(f.ty, j.fields[JsonKey(f.name)])
    else if f.required then None
    else Some(DNull)
  }

  /** The loop over the fields of a dataclass: every value by declaration order,
      or nothing once a field fails, and no key that is not a field's. */
  method BuildObject(cls: Class, j: Json) returns (res: Option<Data>)
    ensures res == Build(TClass(cls), j)
  {
    if !j.Obj? {
      return None;
    }
    var vals: seq<Data> := [];
    var known: set<string> := {};
    for i := 0 to |cls.fields|
      invariant |vals| == i && known == set k | 0 <= k < i :: JsonKey(cls.fields[k].name)
      invariant forall k | 0 <= k < i :: BuildField(cls.fields[k], j) == Some(vals[k])
    {
      var v := BuildField(cls.fields[i], j);
      if v.None? {
        return None;
      }
      vals := vals + [v.value];
      known := known + {JsonKey(cls.fields[i].name)};
    }
    assert known == Keys(cls);
    if !(j.fields.Keys <= known) {
      return None;
    }
    assert Build(TClass(cls), j).value.vals == vals;
    return Some(DObj(cls, vals));
  }

  // ---------------------------------------------------------------------
  // Agreement
  // ---------------------------------------------------------------------

  /** `m` is `h`, except that some ints are floats. */
  predicate Near(h: Data, m: Data)
    decreases h
  {
    match h
    case DInt(i) => m == h || m == DFloat(i as real)
    case DList(items) => m.DList? && |m.items| == |items| && forall i | 0 <= i < |items| :: Near(items[i], m.items[i])
    case DDict(entries) =>
        m.DDict? && m.entries.Keys == entries.Keys && forall k | k in entries :: Near(entries[k], m.entries[k])
    case DObj(cls, vals) =>
      m.DObj? && m.cls == cls && |m.vals| == |vals| && forall i | 0 <= i < |vals| :: Near(vals[i], m.vals[i])
    case _ => m == h
  }

  /** What hydration accepts, message decoding accepts, with the same result up to
      int-to-float. */
  lemma {:induction false} HydratedIsDecoded(t: Ty, j: Json)
    requires WellFormed(t) && Build(t, j).Some?
    ensures Decode(t, j).Some? && Near(Build(t, j).value, Decode(t, j).value)
    decreases j, t, 1
  {
    match t
    case TList(item) =>
      forall i | 0 <= i < |j.items|
        ensures Decode(item, j.items[i]).Some?
        ensures Near(Build(item, j.items[i]).value, Decode(item, j.items[i]).value)
      {
        HydratedIsDecoded(item, j.items[i]);
      }
    case TDict(item) =>
      forall k | k in j.fields
        ensures Decode(item, j.fields[k]).Some?
        ensures Near(Build(item, j.fields[k]).value, Decode(item, j.fields[k]).value)
      {
        HydratedIsDecoded(item, j.fields[k]);
      }
    case TClass(_) => HydratedObject(t, j);
    case TUnion(_, _) => HydratedUnion(t, j);
    case _ =>
  }

  lemma {:induction false} HydratedObject(t: Ty, j: Json)
    requires t.TClass? && WellFormed(t) && Build(t, j).Some?
    ensures Decode(t, j).Some? && Near(Build(t, j).value, Decode(t, j).value)
    decreases j, t, 0
  {
    forall i | 0 <= i < |t.cls.fields|
      ensures DecodeField(t.cls.fields[i], j).Some?
      ensures Near(BuildField(t.cls.fields[i], j).value, DecodeField(t.cls.fields[i], j).value)
    {
      var f := t.cls.fields[i];
      assert BuildField(f, j).Some?;
      if JsonKey(f.name) in j.fields {
        HydratedIsDecoded(f.ty, j.fields[JsonKey(f.name)]);
      }
    }
  }

  /** The member hydration builds; no other decodes the value. */
  lemma ChosenMember(t: Ty, j: Json) returns (k: nat)
    requires t.TUnion? && WellFormed(t) && Build(t, j).Some? && !j.Null?
    ensures k < |t.members| && Build(t.members[k], j) == Build(t, j)
    ensures forall i | 0 <= i < |t.members| && i != k :: Decode(t.members[i], j).None?
  {
    if |t.members| == 1 {
      k := 0;
    } else {
      var matches := Matches(t.members, j);
      assert matches[0] in matches;
      k := matches[0];
      assert matches == [k];
      OneMatch(t.members, j, k);
      forall i | 0 <= i < |t.members| && i != k ensures Decode(t.members[i], j).None? {
        if Decode(t.members[i], j).Some? {
          DecodedHasShape(t.members[i], j);
        }
      }
    }
  }

  lemma {:induction false} HydratedUnion(t: Ty, j: Json)
    requires t.TUnion? && WellFormed(t) && Build(t, j).Some?
    ensures Decode(t, j).Some? && Near(Build(t, j).value, Decode(t, j).value)
    decreases j, t, 0
  {
    if !j.Null? {
      var k := ChosenMember(t, j);
      HydratedIsDecoded(t.members[k], j);
      SoleMember(t, k, j);
    }
  }

  /** No union has both an enum and a list or object among several members. */
  predicate NoEnumBesideContainers(t: Ty)
    decreases t
  {
    match t
    case TList(item) => NoEnumBesideContainers(item)
    case TDict(item) => NoEnumBesideContainers(item)
    case TClass(cls) => forall i | 0 <= i < |cls.fields| :: NoEnumBesideContainers(cls.fields[i].ty)
    case TUnion(members, _) =>
      && (forall i | 0 <= i < |members| :: NoEnumBesideContainers(members[i]))
      && (forall i, k | 0 <= i < |members| && 0 <= k < |members| && members[i].TEnum? ::
            !members[k].TList? && !members[k].TDict? && !members[k].TClass?)
    case _ => true
  }

  /** And the other way round, where the schema is unambiguous and no union makes
      hydration raise. */
  lemma {:induction false} DecodedIsHydrated(t: Ty, j: Json)
    requires WellFormed(t) && Unambiguous(t) && NoEnumBesideContainers(t) && Decode(t, j).Some?
    ensures Build(t, j).Some?
    decreases j, t, 1
  {
    match t
    case TList(item) =>
      forall i | 0 <= i < |j.items| ensures Build(item, j.items[i]).Some? {
        DecodedIsHydrated(item, j.items[i]);
      }
    case TDict(item) =>
      forall k | k in j.fields ensures Build(item, j.fields[k]).Some? {
        DecodedIsHydrated(item, j.fields[k]);
      }
    case TClass(cls) =>
      forall i | 0 <= i < |cls.fields| ensures BuildField(cls.fields[i], j).Some? {
        var f := cls.fields[i];
        assert DecodeField(f, j).Some?;
        if JsonKey(f.name) in j.fields {
          DecodedIsHydrated(f.ty, j.fields[JsonKey(f.name)]);
        }
      }
    case TUnion(_, _) => DecodedUnionIsHydrated(t, j);
    case _ =>
  }

  /** With several members, the only one of the value's shape is built. */
  lemma BuildsTheOne(t: Ty, k: nat, j: Json)
    requires t.TUnion? && WellFormed(t) && Unambiguous(t) && NoEnumBesideContainers(t) && !j.Null?
    requires k < |t.members| && HasShape(t.members[k], j)
    ensures Build(t, j) == Build(t.members[k], j)
  {
    if |t.members| > 1 {
      forall i | 0 <= i < |t.members| && i != k ensures !HasShape(t.members[i], j) {
        OneShape(t, k, i, j);
      }
      OneMatch(t.members, j, k);
      assert j.Arr? || j.Obj? ==> t.members[k].TList? || t.members[k].TDict? || t.members[k].TClass?;
    }
  }

  lemma {:induction false} DecodedUnionIsHydrated(t: Ty, j: Json)
    requires t.TUnion? && WellFormed(t) && Unambiguous(t) && NoEnumBesideContainers(t) && Decode(t, j).Some?
    ensures Build(t, j).Some?
    decreases j, t, 0
  {
    if !(j.Null? && t.nullable) {
      var k := SomeMember(t, j);
      DecodedHasShape(t.members[k], j);
      DecodedIsHydrated(t.members[k], j);
      BuildsTheOne(t, k, j);
    }
  }

  /** The two decoders accept the same values of the schemas they share. */
  lemma DecodersAgree(t: Ty, j: Json)
    requires WellFormed(t) && Unambiguous(t) && NoEnumBesideContainers(t)
    ensures Build(t, j).Some? <==> Decode(t, j).Some?
    ensures Build(t, j).Some? ==> Near(Build(t, j).value, Decode(t, j).value)
  {
    if Build(t, j).Some? {
      HydratedIsDecoded(t, j);
    }
    if Decode(t, j).Some? {
      DecodedIsHydrated(t, j);
    }
  }

  /** Somewhere in the value a list or an object meets a union of several members
      that has an enum. */
  predicate Meets(t: Ty, j: Json)
    decreases j, t
  {
    match t
    case TList(item) => j.Arr? && exists i | 0 <= i < |j.items| :: Meets(item, j.items[i])
    case TDict(item) => j.Obj? && exists k | k in j.fields :: Meets(item, j.fields[k])
    case TClass(cls) =>
      j.Obj? && exists i | 0 <= i < |cls.fields| ::
        JsonKey(cls.fields[i].name) in j.fields && Meets(cls.fields[i].ty, j.fields[JsonKey(cls.fields[i].name)])
    case TUnion(members, _) =>
      || (|members| > 1 && Raises(members, j))
      || (exists k | 0 <= k < |members| :: HasShape(members[k], j) && Meets(members[k], j))
    case _ => false
  }

  lemma NullMeetsNothing(t: Ty)
    ensures !Meets(t, Null)
    decreases t
  {
    if t.TUnion? {
      forall k | 0 <= k < |t.members| ensures !Meets(t.members[k], Null) {
        NullMeetsNothing(t.members[k]);
      }
    }
  }

  /** The exact condition, value by value: what message decoding takes, hydration
      refuses if and only if a list or object in it meets a union of several
      members that has an enum. */
  lemma {:induction false} RefusedIff(t: Ty, j: Json)
    requires WellFormed(t) && Unambiguous(t) && Decode(t, j).Some?
    ensures Build(t, j).None? <==> Meets(t, j)
    decreases j, t, 1
  {
    match t
    case TList(item) =>
      forall i | 0 <= i < |j.items| ensures Build(item, j.items[i]).None? <==> Meets(item, j.items[i]) {
        RefusedIff(item, j.items[i]);
      }
    case TDict(item) =>
      forall k | k in j.fields ensures Build(item, j.fields[k]).None? <==> Meets(item, j.fields[k]) {
        RefusedIff(item, j.fields[k]);
      }
    case TClass(_) => ObjectRefusedIff(t, j);
    case TUnion(_, _) => UnionRefusedIff(t, j);
    case _ =>
  }

  lemma {:induction false} ObjectRefusedIff(t: Ty, j: Json)
    requires t.TClass? && WellFormed(t) && Unambiguous(t) && Decode(t, j).Some?
    ensures Build(t, j).None? <==> Meets(t, j)
    decreases j, t, 0
  {
    forall i | 0 <= i < |t.cls.fields|
      ensures BuildField(t.cls.fields[i], j).None?
         <==> (&& JsonKey(t.cls.fields[i].name) in j.fields
               && Meets(t.cls.fields[i].ty, j.fields[JsonKey(t.cls.fields[i].name)]))
    {
      var f := t.cls.fields[i];
      assert DecodeField(f, j).Some?;
      if JsonKey(f.name) in j.fields {
        RefusedIff(f.ty, j.fields[JsonKey(f.name)]);
      }
    }
  }

  /** Of several members, the one of the value's shape is built, unless an enum
      member raises first. */
  lemma BuildsOrRaises(t: Ty, k: nat, j: Json)
    requires t.TUnion? && WellFormed(t) && Unambiguous(t) && !j.Null? && k < |t.members| && HasShape(t.members[k], j)
    ensures Build(t, j) == if |t.members| > 1 && Raises(t.members, j) then None else Build(t.members[k], j)
    ensures forall i | 0 <= i < |t.members| && HasShape(t.members[i], j) :: i == k
  {
    forall i | 0 <= i < |t.members| && i != k ensures !HasShape(t.members[i], j) {
      OneShape(t, k, i, j);
    }
    OneMatch(t.members, j, k);
  }

  lemma {:induction false} UnionRefusedIff(t: Ty, j: Json)
    requires t.TUnion? && WellFormed(t) && Unambiguous(t) && Decode(t, j).Some?
    ensures Build(t, j).None? <==> Meets(t, j)
    decreases j, t, 0
  {
    if j.Null? && t.nullable {
      NullMeetsNothing(t);
    } else {
      var k := SomeMember(t, j);
      DecodedHasShape(t.members[k], j);
      RefusedIff(t.members[k], j);
      BuildsOrRaises(t, k, j);
    }
  }

  /** Where a union has an enum beside a list, they do not: a list that message
      decoding takes makes hydration raise. */
  lemma EnumBesideListRaises()
    ensures var t := TUnion([TEnum("Mode", ["on", "off"]), TList(TStr)], false);
            WellFormed(t) && Unambiguous(t) && Decode(t, Arr([])).Some? && Build(t, Arr([])).None?
  {
    var members := [TEnum("Mode", ["on", "off"]), TList(TStr)];
    var t := TUnion(members, false);
    SoleMember(t, 1, Arr([]));
    assert members[0].TEnum? && Disjoint(members[0], members[1]);
    forall i, k | 0 <= i < k < |members| ensures Disjoint(members[i], members[k]) {
      assert i == 0 && k == 1;
    }
  }
}
