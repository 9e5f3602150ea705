/** Messages as collections of parts: strict decoding and dumping
    (runtime/message.py). */
module Messages {
  import opened Common
  import opened JsonValues
  import opened Schemas

  // ---------------------------------------------------------------------
  // One value
  // ---------------------------------------------------------------------

  /** The first that decoded. */
  function FirstSome(options: seq<Option<Data>>): (r: Option<Data>)
    ensures r.Some? <==> exists i | 0 <= i < |options| :: options[i].Some?
    ensures r.Some? ==> exists i | 0 <= i < |options| :: options[i] == r && forall k | 0 <= k < i :: options[k].None?
  {
    if options == [] then None
    else if options[0].Some? then options[0]
    else
      var rest := FirstSome(options[1..]);
      assert forall i | 0 <= i < |options[1..]| :: options[1..][i] == options[i + 1];
      rest
  }

  /** `_value`: None where a ProtocolError is raised. A union takes the first
      member that fits. */
  function Decode(t: Ty, j: Json): Option<Data>
    decreases j, t
  {
    match t
    case TBool => if j.Bool? then Some(DBool(j.b)) else None
    case TInt => if j.Int? then Some(DInt(j.i)) else None
    case TFloat => if j.Float? then Some(DFloat(j.r)) else if j.Int? then Some(DFloat(j.i as real)) else None
    case TStr => if j.Str? then Some(DStr(j.s)) else None
    case TLiteral(allowed) => if j.Str? && j.s in allowed then Some(DStr(j.s)) else None
    case TEnum(name, values) => if j.Str? && j.s in values then Some(DEnum(name, j.s)) else None
    case TList(item) =>
      if j.Arr? && forall i | 0 <= i < |j.items| :: Decode(item, j.items[i]).Some?
      then Some(DList(seq(|j.items|, i requires 0 <= i < |j.items| && Decode(item, j.items[i]).Some? =>
          Decode(item, j.items[i]).value)))
      else None
    case TDict(item) =>
      if j.Obj? && forall k | k in j.fields :: Decode(item, j.fields[k]).Some?
      then Some(DDict(map k | k in j.fields :: Decode(item, j.fields[k]).value))
      else None
    case TClass(cls) =>
      if j.Obj? && j.fields.Keys <= Keys(cls) && forall i | 0 <= i < |cls.fields| :: DecodeField(cls.fields[i], j).Some?
      then Some(DObj(cls, seq(|cls.fields|, i requires 0 <= i < |cls.fields|
          && DecodeField(cls.fields[i], j).Some? => DecodeField(cls.fields[i], j).value)))
      else None
    case TUnion(members, nullable) =>
      if j.Null? && nullable then Some(DNull)
      else FirstSome(seq(|members|, i requires 0 <= i < |members| => Decode(members[i], j)))
  }

  /** One field of an object: its default when it is absent and has one. */
  function DecodeField(f: Field, j: Json): Option<Data>
    requires j.Obj?
    decreases j, f
  {
    if JsonKey(f.name) in j.fields then Decode(f.ty, j.fields[JsonKey(f.name)])
    else if f.required then None
    else Some(DNull)
  }

  /** `_plain`: absent optionals are left out, keyword fields are under their
      JSON key. */
  function Plain(d: Data): Json
    decreases d, 0
  {
    match d
    case DNull => Null
    case DBool(b) => Bool(b)
    case DInt(i) => Int(i)
    case DFloat(r) => Float(r)
    case DStr(s) => Str(s)
    case DEnum(_, v) => Str(v)
    case DList(items) => Arr(seq(|items|, i requires 0 <= i < |items| => Plain(items[i])))
    case DDict(entries) => Obj(map k | k in entries :: Plain(entries[k]))
    case DObj(cls, vals) => if |vals| == |cls.fields| then Obj(PlainFields(d, |vals|)) else Null
  }

  /** The first `n` fields of an object, written one after the other. */
  function PlainFields(d: Data, n: nat): map<string, Json>
    requires d.DObj? && |d.vals| == |d.cls.fields| && n <= |d.vals|
    decreases d, 0, n
  {
    if n == 0 then map[]
    else if d.vals[n - 1] == DNull then PlainFields(d, n - 1)
    else PlainFields(d, n - 1)[JsonKey(d.cls.fields[n - 1].name) := Plain(d.vals[n - 1])]
  }

  // ---------------------------------------------------------------------
  // Unions
  // ---------------------------------------------------------------------

  /** A full decode implies the shallow shape, where literal fields are
      required. */
  lemma DecodedHasShape(t: Ty, j: Json)
    requires WellFormed(t) && !t.TUnion? && Decode(t, j).Some?
    ensures HasShape(t, j)
  {
    if t.TClass? {
      forall i | 0 <= i < |t.cls.fields| && t.cls.fields[i].ty.TLiteral? ensures LiteralFits(t.cls, i, j) {
        var f := t.cls.fields[i];
        assert DecodeField(f, j).Some?;
        assert Decode(f.ty, j.fields[JsonKey(f.name)]).Some?;
      }
    }
  }

  /** A union decodes what only one of its members decodes as that member does. */
  lemma SoleMember(t: Ty, k: nat, j: Json)
    requires t.TUnion? && k < |t.members| && !j.Null? && Decode(t.members[k], j).Some?
    requires forall i | 0 <= i < |t.members| && i != k :: Decode(t.members[i], j).None?
    ensures Decode(t, j) == Decode(t.members[k], j)
  {
    var options := seq(|t.members|, i requires 0 <= i < |t.members| => Decode(t.members[i], j));
    assert options[k].Some?;
  }

  /** Some member decodes what a union decodes. */
  lemma SomeMember(t: Ty, j: Json) returns (k: nat)
    requires t.TUnion? && Decode(t, j).Some? && !(j.Null? && t.nullable)
    ensures k < |t.members| && Decode(t.members[k], j) == Decode(t, j)
  {
    var options := seq(|t.members|, i requires 0 <= i < |t.members| => Decode(t.members[i], j));
    k :| 0 <= k < |options| && options[k] == FirstSome(options);
  }

  /** Then it is also the one that decodes it. */
  lemma OnlyMember(t: Ty, k: nat, j: Json)
    requires t.TUnion? && WellFormed(t) && Unambiguous(t) && k < |t.members| && Decode(t.members[k], j).Some?
             && !j.Null?
    ensures Decode(t, j) == Decode(t.members[k], j)
  {
    DecodedHasShape(t.members[k], j);
    forall i | 0 <= i < |t.members| && i != k ensures Decode(t.members[i], j).None? {
      OneShape(t, k, i, j);
      if Decode(t.members[i], j).Some? {
        DecodedHasShape(t.members[i], j);
      }
    }
    SoleMember(t, k, j);
  }

  // ---------------------------------------------------------------------
  // The round trip of one value
  // ---------------------------------------------------------------------

  /** What is decoded is of the type. */
  lemma {:induction false} DecodedHasType(t: Ty, j: Json)
    requires WellFormed(t) && Decode(t, j).Some?
    ensures HasType(t, Decode(t, j).value)
    decreases j, t, 1
  {
    var d := Decode(t, j).value;
    match t
    case TList(item) =>
      forall i | 0 <= i < |d.items| ensures HasType(item, d.items[i]) {
        DecodedHasType(item, j.items[i]);
      }
    case TDict(item) =>
      forall k | k in d.entries ensures HasType(item, d.entries[k]) {
        DecodedHasType(item, j.fields[k]);
      }
    case TClass(cls) => DecodedObject(cls, t, j);
    case TUnion(_, _) => DecodedUnion(t, j);
    case _ =>
  }

  lemma {:induction false} DecodedObject(cls: Class, t: Ty, j: Json)
    requires WellFormed(t) && t == TClass(cls) && Decode(t, j).Some?
    ensures HasType(t, Decode(t, j).value)
    decreases j, t, 0
  {
    var d := Decode(t, j).value;
    forall i | 0 <= i < |cls.fields|
        ensures (!cls.fields[i].required && d.vals[i] == DNull) || HasType(cls.fields[i].ty, d.vals[i]) {
      var key := JsonKey(cls.fields[i].name);
      assert DecodeField(cls.fields[i], j) == Some(d.vals[i]);
      if key in j.fields {
        DecodedHasType(cls.fields[i].ty, j.fields[key]);
      }
    }
  }

  lemma {:induction false} DecodedUnion(t: Ty, j: Json)
    requires WellFormed(t) && t.TUnion? && Decode(t, j).Some?
    ensures HasType(t, Decode(t, j).value)
    decreases j, t, 0
  {
    if !(j.Null? && t.nullable) {
      var d := Decode(t, j).value;
      var i := SomeMember(t, j);
      DecodedHasType(t.members[i], j);
      NullIsNullable(t.members[i], j);
      assert HasType(t.members[i], d);
    }
  }

  /** A union decodes null to None only where it may. */
  lemma {:induction false} NullIsNullable(t: Ty, j: Json)
    requires Decode(t, j).Some?
    ensures Decode(t, j) == Some(DNull) ==> t.TUnion?
  {
  }

  /** Data other than None is dumped as something other than null. */
  lemma PlainOfSomething(t: Ty, d: Data)
    requires HasType(t, d) && d != DNull
    ensures !Plain(d).Null?
    decreases t
  {
    if t.TUnion? {
      var i :| 0 <= i < |t.members| && HasType(t.members[i], d);
      PlainOfSomething(t.members[i], d);
    }
  }

  lemma SomethingThere(t: Ty, d: Data)
    requires HasType(t, d) && !Nullable(t)
    ensures d != DNull
  {
  }

  lemma KeysDiffer(cls: Class, i: nat, k: nat)
    requires WellFormed(TClass(cls)) && i < |cls.fields| && k < |cls.fields| && i != k
    ensures JsonKey(cls.fields[i].name) != JsonKey(cls.fields[k].name)
  {
    if JsonKey(cls.fields[i].name) == JsonKey(cls.fields[k].name) {
      JsonKeysDiffer(cls.fields[i].name, cls.fields[k].name);
    }
  }

  /** What one field of an object is dumped as. */
  lemma {:induction false} FieldWritten(d: Data, n: nat, i: nat)
    requires d.DObj? && |d.vals| == |d.cls.fields| && n <= |d.vals| && i < |d.vals|
    requires forall k | 0 <= k < |d.vals| && k != i :: JsonKey(d.cls.fields[i].name) != JsonKey(d.cls.fields[k].name)
    ensures var key := JsonKey(d.cls.fields[i].name);
            if i >= n || d.vals[i] == DNull then key !in PlainFields(d, n)
            else key in PlainFields(d, n) && PlainFields(d, n)[key] == Plain(d.vals[i])
  {
    if n > 0 {
      FieldWritten(d, n - 1, i);
    }
  }

  lemma {:induction false} OnlyFieldsWritten(d: Data, n: nat)
    requires d.DObj? && |d.vals| == |d.cls.fields| && n <= |d.vals|
    ensures PlainFields(d, n).Keys <= Keys(d.cls)
  {
    if n > 0 {
      OnlyFieldsWritten(d, n - 1);
      assert JsonKey(d.cls.fields[n - 1].name) in Keys(d.cls);
    }
  }

  /** Every value of an unambiguous type comes back from what it is dumped as. */
  lemma {:induction false} ValueRoundTrip(t: Ty, d: Data)
    requires WellFormed(t) && Unambiguous(t) && HasType(t, d)
    ensures Decode(t, Plain(d)) == Some(d)
    decreases d, t, 1
  {
    match t
    case TList(item) =>
      forall i | 0 <= i < |d.items| ensures Decode(item, Plain(d.items[i])) == Some(d.items[i]) {
        ValueRoundTrip(item, d.items[i]);
      }
      assert Decode(t, Plain(d)).value.items == d.items;
    case TDict(item) =>
      forall k | k in d.entries ensures Decode(item, Plain(d.entries[k])) == Some(d.entries[k]) {
        ValueRoundTrip(item, d.entries[k]);
      }
      assert Decode(t, Plain(d)).value.entries == d.entries;
    case TClass(cls) => ObjectRoundTrip(t, d);
    case TUnion(_, _) => UnionRoundTrip(t, d);
    case _ =>
  }

  lemma {:induction false} ObjectRoundTrip(t: Ty, d: Data)
    requires t.TClass? && WellFormed(t) && Unambiguous(t) && HasType(t, d)
    ensures Decode(t, Plain(d)) == Some(d)
    decreases d, t, 0
  {
    var j := Plain(d);
    OnlyFieldsWritten(d, |d.vals|);
    forall i | 0 <= i < |t.cls.fields| ensures DecodeField(t.cls.fields[i], j) == Some(d.vals[i]) {
      forall k | 0 <= k < |d.vals| && k != i ensures JsonKey(d.cls.fields[i].name) != JsonKey(d.cls.fields[k].name) {
        KeysDiffer(d.cls, i, k);
      }
      FieldWritten(d, |d.vals|, i);
      if d.vals[i] != DNull {
        ValueRoundTrip(t.cls.fields[i].ty, d.vals[i]);
      } else if t.cls.fields[i].required {
        SomethingThere(t.cls.fields[i].ty, d.vals[i]);
      }
    }
    assert Decode(t, j).value.vals == d.vals;
  }

  lemma {:induction false} UnionRoundTrip(t: Ty, d: Data)
    requires t.TUnion? && WellFormed(t) && Unambiguous(t) && HasType(t, d)
    ensures Decode(t, Plain(d)) == Some(d)
    decreases d, t, 0
  {
    if !d.DNull? {
      var i :| 0 <= i < |t.members| && HasType(t.members[i], d);
      ValueRoundTrip(t.members[i], d);
      PlainOfSomething(t.members[i], d);
      OnlyMember(t, i, Plain(d));
    }
  }

  /** Dumping what was decoded, and decoding that, changes nothing more. */
  lemma DumpIsNormal(t: Ty, j: Json)
    requires WellFormed(t) && Unambiguous(t) && Decode(t, j).Some?
    ensures Decode(t, Plain(Decode(t, j).value)) == Decode(t, j)
  {
    DecodedHasType(t, j);
    ValueRoundTrip(t, Decode(t, j).value);
  }

  // ---------------------------------------------------------------------
  // Messages
  // ---------------------------------------------------------------------

  datatype Role = Request | Response | Notice

  datatype BodySpec = BodySpec(cls: Class, role: Role)

  const OPTIONAL_STRING := TUnion([TStr], true)

  const HEADER := Class("MsgHeader", [
    Field("id", TStr, true),
    Field("kind", TLiteral(["MsgHeader"]), true),
    Field("source", TStr, true),
    Field("time", TFloat, true),
    Field("reqId", OPTIONAL_STRING, false),
    Field("parentReqId", OPTIONAL_STRING, false)])

  datatype Msg = Msg(header: Data, body: Data)

  datatype Code = BadMessage | BadPart | DuplicatePart | UnknownBody | MissingPart | MissingReqId

  /** A part is an object with a string `kind`. */
  predicate IsPart(item: Json) {
    item.Obj? && "kind" in item.fields && item.fields["kind"].Str?
  }

  function KindOf(item: Json): string
    requires IsPart(item)
  {
    item.fields["kind"].s
  }

  predicate IsHeaderKind(kind: string) {
    |kind| >= 6 && kind[|kind| - 6..] == "Header"
  }

  predicate IsBody(item: Json) {
    IsPart(item) && !IsHeaderKind(KindOf(item))
  }

  predicate IsMsgHeader(item: Json) {
    IsPart(item) && KindOf(item) == "MsgHeader"
  }

  /** Parts of distinct kinds; the code of the first that is none, or whose kind
      came before. */
  function Collect(items: seq<Json>): Result<map<string, Json>, Code> {
    if items == [] then Success(map[])
    else
      var seen, item := Collect(items[..|items| - 1]), items[|items| - 1];
      if seen.Failure? then seen
      else if !IsPart(item) then Failure(BadPart)
      else if KindOf(item) in seen.value then Failure(DuplicatePart)
      else Success(seen.value[KindOf(item) := item])
  }

  function Bodies(items: seq<Json>): seq<Json> {
    Filter((item: Json) => IsBody(item), items)
  }

  function ReqId(header: Data): Data
    requires header.DObj? && |header.vals| == 6
  {
    header.vals[4]
  }

  lemma HeaderShape(header: Json)
    requires Decode(TClass(HEADER), header).Some?
    ensures Decode(TClass(HEADER), header).value.DObj? && |Decode(TClass(HEADER), header).value.vals| == 6
  {
  }

  /** The header and the one body of a collection. */
  function Transpose(header: Json, body: Json, bodies: map<string, BodySpec>): Result<Msg, Code>
    requires IsBody(body)
  {
    if KindOf(body) !in bodies then Failure(UnknownBody)
    else
      var spec := bodies[KindOf(body)];
      var h := Decode(TClass(HEADER), header);
      if h.None? then Failure(BadPart)
      else
        HeaderShape(header);
        if !spec.role.Notice? && ReqId(h.value) == DNull then Failure(MissingReqId)
        else
          var b := Decode(TClass(spec.cls), body);
          if b.None? then Failure(BadPart) else Success(Msg(h.value, b.value))
  }

  function FromParts(raw: Json, bodies: map<string, BodySpec>): Result<Msg, Code> {
    if !raw.Arr? then Failure(BadMessage)
    else
      var seen := Collect(raw.items);
      if seen.Failure? then Failure(seen.error)
      else if |Bodies(raw.items)| != 1 then Failure(BadMessage)
      else
        var body := Bodies(raw.items)[0];
        assert body in Bodies(raw.items);
        if KindOf(body) !in bodies then Failure(UnknownBody)
        else if "MsgHeader" !in seen.value then Failure(MissingPart)
        else Transpose(seen.value["MsgHeader"], body, bodies)
  }

  /** The program's loop over the parts: those seen, by kind, and the bodies. */
  method CollectParts(items: seq<Json>) returns (res: Result<map<string, Json>, Code>, found: seq<Json>)
    ensures res == Collect(items)
    ensures res.Success? ==> found == Bodies(items)
  {
    var seen: map<string, Json> := map[];
    found := [];
    for i := 0 to |items|
      invariant Collect(items[..i]) == Success(seen)
      invariant found == Bodies(items[..i])
    {
      var item := items[i];
      assert items[..i + 1][..i] == items[..i];
      if !IsPart(item) {
        CollectFails(items, i + 1);
        return Failure(BadPart), found;
      }
      if KindOf(item) in seen {
        CollectFails(items, i + 1);
        return Failure(DuplicatePart), found;
      }
      seen := seen[KindOf(item) := item];
      if !IsHeaderKind(KindOf(item)) {
        found := found + [item];
      }
    }
    assert items[..|items|] == items;
    return Success(seen), found;
  }

  method Receive(raw: Json, bodies: map<string, BodySpec>) returns (res: Result<Msg, Code>)
    ensures res == FromParts(raw, bodies)
  {
    if !raw.Arr? {
      return Failure(BadMessage);
    }
    var seen, found := CollectParts(raw.items);
    if seen.Failure? {
      return Failure(seen.error);
    }
    if |found| != 1 {
      return Failure(BadMessage);
    }
    assert found[0] in found;
    if KindOf(found[0]) !in bodies {
      return Failure(UnknownBody);
    }
    if "MsgHeader" !in seen.value {
      return Failure(MissingPart);
    }
    return Transpose(seen.value["MsgHeader"], found[0], bodies);
  }

  lemma {:induction false} CollectFails(items: seq<Json>, n: nat)
    requires n <= |items| && Collect(items[..n]).Failure?
    ensures Collect(items) == Collect(items[..n])
  {
    if n < |items| {
      assert items[..|items| - 1][..n] == items[..n];
      CollectFails(items[..|items| - 1], n);
    } else {
      assert items[..n] == items;
    }
  }

  // ---------------------------------------------------------------------
  // Which collections are accepted
  // ---------------------------------------------------------------------

  /** Parts of distinct kinds. */
  ghost predicate Collection(items: seq<Json>) {
    && (forall i | 0 <= i < |items| :: IsPart(items[i]))
    && (forall i, j | 0 <= i < j < |items| :: KindOf(items[i]) != KindOf(items[j]))
  }

  lemma {:induction false} CollectIs(items: seq<Json>)
    ensures Collect(items).Success? <==> Collection(items)
    ensures Collect(items).Success? ==>
              && (forall i | 0 <= i < |items| :: KindOf(items[i]) in Collect(items).value)
              && (forall k | k in Collect(items).value ::
                    var item := Collect(items).value[k]; item in items && IsPart(item) && KindOf(item) == k)
  {
    if items != [] {
      CollectIs(items[..|items| - 1]);
      CollectionOneMore(items);
      CollectOneMore(items);
    }
  }

  lemma CollectionOneMore(items: seq<Json>)
    requires items != []
    ensures var before, last := items[..|items| - 1], items[|items| - 1];
            Collection(items) <==>
            (&& Collection(before) && IsPart(last)
             && forall i | 0 <= i < |before| :: KindOf(before[i]) != KindOf(last))
  {
    var before, last := items[..|items| - 1], items[|items| - 1];
    assert items == before + [last];
  }

  /** What one more part adds to a collection. */
  lemma CollectOneMore(items: seq<Json>)
    requires items != []
    ensures var before, last := Collect(items[..|items| - 1]), items[|items| - 1];
            && (Collect(items).Success? <==> before.Success? && IsPart(last) && KindOf(last) !in before.value)
            && (Collect(items).Success? ==> Collect(items).value == before.value[KindOf(last) := last])
  {
  }

  lemma {:induction false} BodiesAre(items: seq<Json>, body: Json)
    requires Collection(items)
    ensures Bodies(items) == [body] <==>
            body in items && IsBody(body) && forall x | x in items && IsBody(x) :: x == body
  {
    if items != [] {
      var rest, last := items[..|items| - 1], items[|items| - 1];
      assert items == rest + [last];
      assert forall x :: x in items <==> x in rest || x == last;
      if IsBody(last) {
        NoBodies(rest);
        assert last == body ==> body !in rest;
      } else {
        BodiesAre(rest, body);
      }
    }
  }

  lemma {:induction false} NoBodies(items: seq<Json>)
    ensures Bodies(items) == [] <==> forall x | x in items :: !IsBody(x)
  {
    if items != [] {
      NoBodies(items[..|items| - 1]);
      assert items == items[..|items| - 1] + [items[|items| - 1]];
    }
  }

  lemma HeaderIsFound(items: seq<Json>, header: Json)
    requires Collection(items) && header in items && IsMsgHeader(header)
    ensures Collect(items).Success? && "MsgHeader" in Collect(items).value
    ensures Collect(items).value["MsgHeader"] == header
  {
    CollectIs(items);
    var i :| 0 <= i < |items| && items[i] == header;
    var found := Collect(items).value["MsgHeader"];
    var j :| 0 <= j < |items| && items[j] == found;
    assert i == j;
  }

  /** A collection is accepted exactly when it has one message header and one
      body, and the two make a message. */
  lemma AcceptedIff(items: seq<Json>, bodies: map<string, BodySpec>, header: Json, body: Json, msg: Msg)
    requires header in items && IsMsgHeader(header) && body in items && IsBody(body)
    ensures FromParts(Arr(items), bodies) == Success(msg)
       <==> (&& Collection(items) && (forall x | x in items && IsBody(x) :: x == body)
             && Transpose(header, body, bodies) == Success(msg))
  {
    CollectIs(items);
    if Collection(items) {
      HeaderIsFound(items, header);
      BodiesAre(items, body);
      if |Bodies(items)| == 1 {
        assert Bodies(items) == [Bodies(items)[0]];
        BodiesAre(items, Bodies(items)[0]);
      }
    }
  }

  /** The two parts an accepted collection has. */
  lemma AcceptedParts(items: seq<Json>, bodies: map<string, BodySpec>) returns (header: Json, body: Json)
    requires FromParts(Arr(items), bodies).Success?
    ensures header in items && IsMsgHeader(header) && body in items && IsBody(body)
  {
    CollectIs(items);
    header := Collect(items).value["MsgHeader"];
    body := Bodies(items)[0];
    assert body in Bodies(items);
  }

  /** The order of the parts does not matter, nor do header parts this side does
      not know: every collection with the same known parts is the same message. */
  lemma PartsInAnyOrder(items: seq<Json>, items': seq<Json>, bodies: map<string, BodySpec>)
    requires FromParts(Arr(items), bodies).Success? && Collection(items')
    requires forall x | IsBody(x) || IsMsgHeader(x) :: x in items <==> x in items'
    ensures FromParts(Arr(items'), bodies) == FromParts(Arr(items), bodies)
  {
    var header, body := AcceptedParts(items, bodies);
    var msg := FromParts(Arr(items), bodies).value;
    AcceptedIff(items, bodies, header, body, msg);
    AcceptedIff(items', bodies, header, body, msg);
  }

  // ---------------------------------------------------------------------
  // The round trip of a message
  // ---------------------------------------------------------------------

  /** `to_parts`: the header part, then the body. */
  function ToParts(msg: Msg): Json {
    Arr([Plain(msg.header), Plain(msg.body)])
  }

  /** A body kind is not a header's, and the class of a body demands its kind. */
  ghost predicate Registered(bodies: map<string, BodySpec>) {
    forall kind | kind in bodies ::
      && !IsHeaderKind(kind)
      && WellFormed(TClass(bodies[kind].cls)) && Unambiguous(TClass(bodies[kind].cls))
      && Demands(bodies[kind].cls, "kind", [kind])
  }

  /** A message this side may send: header and body of their classes, and a
      request id where the role needs one. */
  ghost predicate Sendable(msg: Msg, kind: string, bodies: map<string, BodySpec>) {
    && kind in bodies
    && HasType(TClass(HEADER), msg.header)
    && HasType(TClass(bodies[kind].cls), msg.body)
    && (bodies[kind].role.Notice? || NamesRequest(msg.header))
  }

  /** The header's field "reqId" has a value. */
  ghost predicate NamesRequest(header: Data)
    requires HasType(TClass(HEADER), header)
  {
    exists i | 0 <= i < |HEADER.fields| :: HEADER.fields[i].name == "reqId" && header.vals[i] != DNull
  }

  lemma ReqIdNamesRequest(header: Data)
    requires HasType(TClass(HEADER), header)
    ensures |header.vals| == 6 && (NamesRequest(header) <==> ReqId(header) != DNull)
  {
    assert HEADER.fields[4].name == "reqId";
    forall i | 0 <= i < |HEADER.fields| && i != 4 ensures HEADER.fields[i].name != "reqId" {
    }
  }

  lemma HeaderNames(i: nat)
    requires i < |HEADER.fields|
    ensures HEADER.fields[i].name !in KEYWORDS
    ensures forall j | 0 <= j < i :: HEADER.fields[j].name != HEADER.fields[i].name
  {
  }

  lemma HeaderTypes(i: nat)
    requires i < |HEADER.fields|
    ensures var f := HEADER.fields[i];
            WellFormed(f.ty) && Unambiguous(f.ty) && (f.ty.TLiteral? ==> f.required) && (f.required ==> !Nullable(f.ty))
  {
    assert OPTIONAL_STRING.members == [TStr];
  }

  lemma HeaderIsUnambiguous()
    ensures WellFormed(TClass(HEADER)) && Unambiguous(TClass(HEADER)) && Demands(HEADER, "kind", ["MsgHeader"])
  {
    forall i | 0 <= i < |HEADER.fields|
      ensures var f := HEADER.fields[i];
              && f.name !in KEYWORDS && (forall j | 0 <= j < i :: HEADER.fields[j].name != f.name)
              && WellFormed(f.ty) && Unambiguous(f.ty) && (f.ty.TLiteral? ==> f.required)
                  && (f.required ==> !Nullable(f.ty))
    {
      HeaderNames(i);
      HeaderTypes(i);
    }
    assert HEADER.fields[1] == Field("kind", TLiteral(["MsgHeader"]), true);
  }

  /** What a class demands is in what it decodes. */
  lemma DecodedKind(cls: Class, j: Json, kind: string)
    requires Decode(TClass(cls), j).Some? && Demands(cls, "kind", [kind])
    ensures IsPart(j) && KindOf(j) == kind
  {
    var i :| 0 <= i < |cls.fields| && cls.fields[i].ty == TLiteral([kind]) && cls.fields[i].required
        && JsonKey(cls.fields[i].name) == "kind";
    assert DecodeField(cls.fields[i], j).Some?;
    assert Decode(cls.fields[i].ty, j.fields["kind"]).Some?;
  }

  /** And in what its objects are dumped as. */
  lemma DumpedKind(cls: Class, d: Data, kind: string)
    requires WellFormed(TClass(cls)) && Unambiguous(TClass(cls)) && HasType(TClass(cls), d)
             && Demands(cls, "kind", [kind])
    ensures IsPart(Plain(d)) && KindOf(Plain(d)) == kind
  {
    ValueRoundTrip(TClass(cls), d);
    DecodedKind(cls, Plain(d), kind);
  }

  lemma DumpTransposes(msg: Msg, kind: string, bodies: map<string, BodySpec>)
    requires Registered(bodies) && Sendable(msg, kind, bodies) && IsBody(Plain(msg.body))
             && KindOf(Plain(msg.body)) == kind
    ensures Transpose(Plain(msg.header), Plain(msg.body), bodies) == Success(msg)
  {
    HeaderIsUnambiguous();
    ReqIdNamesRequest(msg.header);
    ValueRoundTrip(TClass(HEADER), msg.header);
    ValueRoundTrip(TClass(bodies[kind].cls), msg.body);
  }

  lemma TwoParts(header: Json, body: Json)
    requires IsMsgHeader(header) && IsBody(body)
    ensures Collection([header, body]) && forall x | x in [header, body] && IsBody(x) :: x == body
  {
    assert IsHeaderKind("MsgHeader") by {
      assert "MsgHeader"[3..] == "Header";
    }
  }

  /** Every message this side may send is received as it was sent. */
  lemma MessageRoundTrip(msg: Msg, kind: string, bodies: map<string, BodySpec>)
    requires Registered(bodies) && Sendable(msg, kind, bodies)
    ensures FromParts(ToParts(msg), bodies) == Success(msg)
  {
    var header, body := Plain(msg.header), Plain(msg.body);
    HeaderIsUnambiguous();
    DumpedKind(HEADER, msg.header, "MsgHeader");
    DumpedKind(bodies[kind].cls, msg.body, kind);
    DumpTransposes(msg, kind, bodies);
    TwoParts(header, body);
    AcceptedIff([header, body], bodies, header, body, msg);
  }

  /** A received message can be sent on, and is received the same again. */
  lemma ReceivedIsNormal(raw: Json, bodies: map<string, BodySpec>)
    requires Registered(bodies) && FromParts(raw, bodies).Success?
    ensures FromParts(ToParts(FromParts(raw, bodies).value), bodies) == FromParts(raw, bodies)
  {
    var header, body := AcceptedParts(raw.items, bodies);
    var msg := FromParts(raw, bodies).value;
    AcceptedIff(raw.items, bodies, header, body, msg);
    HeaderIsUnambiguous();
    TransposedIsSendable(header, body, bodies);
    MessageRoundTrip(msg, KindOf(body), bodies);
  }

  lemma TransposedIsSendable(header: Json, body: Json, bodies: map<string, BodySpec>)
    requires Registered(bodies) && IsBody(body) && Transpose(header, body, bodies).Success?
    ensures Sendable(Transpose(header, body, bodies).value, KindOf(body), bodies)
  {
    BodyHasType(header, body, bodies);
    HeaderHasType(header, body, bodies);
  }

  lemma HeaderHasType(header: Json, body: Json, bodies: map<string, BodySpec>)
    requires IsBody(body) && Transpose(header, body, bodies).Success?
    ensures var h := Transpose(header, body, bodies).value.header;
            && HasType(TClass(HEADER), h) && KindOf(body) in bodies
            && (bodies[KindOf(body)].role.Notice? || NamesRequest(h))
  {
    HeaderIsUnambiguous();
    DecodedHasType(TClass(HEADER), header);
    ReqIdNamesRequest(Decode(TClass(HEADER), header).value);
  }

  lemma BodyHasType(header: Json, body: Json, bodies: map<string, BodySpec>)
    requires Registered(bodies) && IsBody(body) && Transpose(header, body, bodies).Success?
    ensures KindOf(body) in bodies
    ensures HasType(TClass(bodies[KindOf(body)].cls), Transpose(header, body, bodies).value.body)
  {
    DecodedHasType(TClass(bodies[KindOf(body)].cls), body);
  }
}
