/** Decoding loses nothing: what either decoder makes of a value, dumped again, is
    that value but for nulls of optional fields (runtime/message.py,
    protocol/hydrate.py). Hydration keeps every number as it is; message decoding
    may turn an int into the float of the same value. */
module DecodeKeeps {
  import opened Common
  import opened JsonValues
  import opened Schemas
  import opened Messages
  import opened Hydration

  /** `p` is `j`, except that it may lack entries that are null in an object, and
      have floats for ints unless `exact`. */
  predicate Kept(j: Json, p: Json, exact: bool)
    decreases j
  {
    match j
    case Int(i) => p == j || (!exact && p == Float(i as real))
    case Arr(items) => p.Arr? && |p.items| == |items| && forall i | 0 <= i < |items| ::
        Kept(items[i], p.items[i], exact)
    case Obj(fields) =>
      && p.Obj? && p.fields.Keys <= fields.Keys
      && forall k | k in fields :: if k in p.fields then Kept(fields[k], p.fields[k], exact) else fields[k] == Null
    case _ => p == j
  }

  lemma ObjectKept(cls: Class, j: Json, vals: seq<Data>, exact: bool)
    requires WellFormed(TClass(cls)) && j.Obj? && |vals| == |cls.fields| && j.fields.Keys <= Keys(cls)
    requires forall i | 0 <= i < |vals| :: var key := JsonKey(cls.fields[i].name);
               if key in j.fields then Kept(j.fields[key], Plain(vals[i]), exact) else vals[i] == DNull
    ensures Kept(j, Plain(DObj(cls, vals)), exact)
  {
    var d := DObj(cls, vals);
    var p := PlainFields(d, |vals|);
    OnlyFieldsWritten(d, |vals|);
    forall k | k in Keys(cls)
      ensures k in p ==> k in j.fields
      ensures k in j.fields ==> if k in p then Kept(j.fields[k], p[k], exact) else j.fields[k] == Null
    {
      var i :| 0 <= i < |cls.fields| && JsonKey(cls.fields[i].name) == k;
      WrittenAlone(d, i);
      NullKeptIff(if k in j.fields then j.fields[k] else Null, exact);
    }
  }

  lemma NullKeptIff(j: Json, exact: bool)
    ensures Kept(j, Null, exact) <==> j == Null
  {
  }

  lemma WrittenAlone(d: Data, i: nat)
    requires d.DObj? && WellFormed(TClass(d.cls)) && |d.vals| == |d.cls.fields| && i < |d.vals|
    ensures var key := JsonKey(d.cls.fields[i].name);
            if d.vals[i] == DNull then key !in PlainFields(d, |d.vals|)
            else key in PlainFields(d, |d.vals|) && PlainFields(d, |d.vals|)[key] == Plain(d.vals[i])
  {
    forall k | 0 <= k < |d.vals| && k != i ensures JsonKey(d.cls.fields[i].name) != JsonKey(d.cls.fields[k].name) {
      KeysDiffer(d.cls, i, k);
    }
    FieldWritten(d, |d.vals|, i);
  }

  /** Hydration. */
  lemma {:induction false} HydrationKeeps(t: Ty, j: Json)
    requires WellFormed(t) && Build(t, j).Some?
    ensures Kept(j, Plain(Build(t, j).value), true)
    decreases j, t
  {
    match t
    case TList(item) =>
      forall i | 0 <= i < |j.items| ensures Kept(j.items[i], Plain(Build(item, j.items[i]).value), true) {
        HydrationKeeps(item, j.items[i]);
      }
      var items := Build(t, j).value.items;
      assert forall i | 0 <= i < |j.items| :: items[i] == Build(item, j.items[i]).value;
    case TDict(item) =>
      forall k | k in j.fields ensures Kept(j.fields[k], Plain(Build(item, j.fields[k]).value), true) {
        HydrationKeeps(item, j.fields[k]);
      }
      var entries := Build(t, j).value.entries;
      assert forall k | k in j.fields :: entries[k] == Build(item, j.fields[k]).value;
    case TClass(cls) =>
      var vals := Build(t, j).value.vals;
      forall i | 0 <= i < |cls.fields|
        ensures var key := JsonKey(cls.fields[i].name);
                if key in j.fields then Kept(j.fields[key], Plain(vals[i]), true) else vals[i] == DNull
      {
        var f := cls.fields[i];
        assert BuildField(f, j) == Some(vals[i]);
        if JsonKey(f.name) in j.fields {
          HydrationKeeps(f.ty, j.fields[JsonKey(f.name)]);
        }
      }
      ObjectKept(cls, j, vals, true);
    case TUnion(members, _) =>
      if !j.Null? {
        var k := ChosenMember(t, j);
        HydrationKeeps(members[k], j);
      }
    case _ =>
  }

  /** Message decoding. */
  lemma {:induction false} DecodingKeeps(t: Ty, j: Json)
    requires WellFormed(t) && Decode(t, j).Some?
    ensures Kept(j, Plain(Decode(t, j).value), false)
    decreases j, t
  {
    match t
    case TList(item) =>
      forall i | 0 <= i < |j.items| ensures Kept(j.items[i], Plain(Decode(item, j.items[i]).value), false) {
        DecodingKeeps(item, j.items[i]);
      }
      var items := Decode(t, j).value.items;
      assert forall i | 0 <= i < |j.items| :: items[i] == Decode(item, j.items[i]).value;
    case TDict(item) =>
      forall k | k in j.fields ensures Kept(j.fields[k], Plain(Decode(item, j.fields[k]).value), false) {
        DecodingKeeps(item, j.fields[k]);
      }
      var entries := Decode(t, j).value.entries;
      assert forall k | k in j.fields :: entries[k] == Decode(item, j.fields[k]).value;
    case TClass(cls) =>
      var vals := Decode(t, j).value.vals;
      forall i | 0 <= i < |cls.fields|
        ensures var key := JsonKey(cls.fields[i].name);
                if key in j.fields then Kept(j.fields[key], Plain(vals[i]), false) else vals[i] == DNull
      {
        var f := cls.fields[i];
        assert DecodeField(f, j) == Some(vals[i]);
        if JsonKey(f.name) in j.fields {
          DecodingKeeps(f.ty, j.fields[JsonKey(f.name)]);
        }
      }
      ObjectKept(cls, j, vals, false);
    case TUnion(members, nullable) =>
      if !(j.Null? && nullable) {
        var k := SomeMember(t, j);
        DecodingKeeps(members[k], j);
      }
    case _ =>
  }
}
