/** What a collection of parts is taken for, told of its JSON: which message, or
    which refusal. */
module Envelopes {
  import opened Common
  import opened JsonValues
  import opened Schemas
  import opened Messages

  predicate OptionalString(j: Json, key: string)
    requires j.Obj?
  {
    key in j.fields ==> j.fields[key].Str? || j.fields[key].Null?
  }

  /** A message header part, key by key. */
  predicate HeaderForm(j: Json) {
    && j.Obj?
    && j.fields.Keys <= {"id", "kind", "source", "time", "reqId", "parentReqId"}
    && "id" in j.fields && j.fields["id"].Str?
    && "kind" in j.fields && j.fields["kind"] == Str("MsgHeader")
    && "source" in j.fields && j.fields["source"].Str?
    && "time" in j.fields && (j.fields["time"].Int? || j.fields["time"].Float?)
    && OptionalString(j, "reqId") && OptionalString(j, "parentReqId")
  }

  /** It carries a request id. */
  predicate HasReqId(j: Json)
    requires j.Obj?
  {
    "reqId" in j.fields && !j.fields["reqId"].Null?
  }

  lemma HeaderFields()
    ensures |HEADER.fields| == 6
    ensures HEADER.fields[0] == Field("id", TStr, true)
    ensures HEADER.fields[1] == Field("kind", TLiteral(["MsgHeader"]), true)
    ensures HEADER.fields[2] == Field("source", TStr, true)
    ensures HEADER.fields[3] == Field("time", TFloat, true)
    ensures HEADER.fields[4] == Field("reqId", OPTIONAL_STRING, false)
    ensures HEADER.fields[5] == Field("parentReqId", OPTIONAL_STRING, false)
  {
  }

  lemma PlainKey(name: string)
    requires name != "" && name[|name| - 1] != '_'
    ensures JsonKey(name) == name
  {
  }

  lemma HeaderKeys()
    ensures forall i | 0 <= i < 6 :: JsonKey(HEADER.fields[i].name) == HEADER.fields[i].name
    ensures Keys(HEADER) == {"id", "kind", "source", "time", "reqId", "parentReqId"}
  {
    HeaderFields();
    forall i | 0 <= i < 6 ensures JsonKey(HEADER.fields[i].name) == HEADER.fields[i].name {
      PlainKey(HEADER.fields[i].name);
    }
  }

  lemma OptionalStringIs(j: Json)
    ensures Decode(OPTIONAL_STRING, j) == if j.Null? then Some(DNull) else if j.Str? then Some(DStr(j.s)) else None
  {
    var options := seq(1, i requires 0 <= i < 1 => Decode(OPTIONAL_STRING.members[i], j));
    assert OPTIONAL_STRING.members == [TStr];
    if !j.Null? {
      assert Decode(OPTIONAL_STRING, j) == FirstSome(options);
      assert options[0] == Decode(TStr, j);
    }
  }

  /** What one field of the header decodes to. */
  lemma HeaderField(j: Json, i: nat)
    requires j.Obj? && i < 6
    ensures i < |HEADER.fields| && HEADER.fields[i].name in {"id", "kind", "source", "time", "reqId", "parentReqId"}
    ensures var key := HEADER.fields[i].name;
            DecodeField(HEADER.fields[i], j) ==
            if key !in j.fields then (if i < 4 then None else Some(DNull))
            else if i == 0 || i == 2 then Decode(TStr, j.fields[key])
            else if i == 1 then Decode(TLiteral(["MsgHeader"]), j.fields[key])
            else if i == 3 then Decode(TFloat, j.fields[key])
            else Decode(OPTIONAL_STRING, j.fields[key])
  {
    HeaderFields();
    HeaderKeys();
  }

  lemma FieldDecodesIff(j: Json, i: nat)
    requires j.Obj? && i < 6
    ensures i < |HEADER.fields|
    ensures DecodeField(HEADER.fields[i], j).Some? <==>
            if i == 0 then "id" in j.fields && j.fields["id"].Str?
            else if i == 1 then "kind" in j.fields && j.fields["kind"] == Str("MsgHeader")
            else if i == 2 then "source" in j.fields && j.fields["source"].Str?
            else if i == 3 then "time" in j.fields && (j.fields["time"].Int? || j.fields["time"].Float?)
            else if i == 4 then OptionalString(j, "reqId")
            else OptionalString(j, "parentReqId")
  {
    HeaderFields();
    HeaderField(j, i);
    if i >= 4 && HEADER.fields[i].name in j.fields {
      OptionalStringIs(j.fields[HEADER.fields[i].name]);
    }
  }

  /** The header is accepted exactly in this form. */
  lemma HeaderDecodesIff(j: Json)
    ensures Decode(TClass(HEADER), j).Some? <==> HeaderForm(j)
  {
    HeaderKeys();
    if j.Obj? {
      FieldsDecodeIff(j);
    }
  }

  lemma FieldsDecodeIff(j: Json)
    requires j.Obj?
    ensures (forall i | 0 <= i < |HEADER.fields| :: DecodeField(HEADER.fields[i], j).Some?) <==>
            (&& "id" in j.fields && j.fields["id"].Str?
             && "kind" in j.fields && j.fields["kind"] == Str("MsgHeader")
             && "source" in j.fields && j.fields["source"].Str?
             && "time" in j.fields && (j.fields["time"].Int? || j.fields["time"].Float?)
             && OptionalString(j, "reqId") && OptionalString(j, "parentReqId"))
  {
    HeaderFields();
    FieldDecodesIff(j, 0);
    FieldDecodesIff(j, 1);
    FieldDecodesIff(j, 2);
    FieldDecodesIff(j, 3);
    FieldDecodesIff(j, 4);
    FieldDecodesIff(j, 5);
  }

  /** And the request id it then has is what stands under "reqId". */
  lemma ReqIdIs(j: Json)
    requires HeaderForm(j)
    ensures Decode(TClass(HEADER), j).Some? && Decode(TClass(HEADER), j).value.DObj?
    ensures var d := Decode(TClass(HEADER), j).value;
            |d.vals| == 6 && ReqId(d) == if HasReqId(j) then DStr(j.fields["reqId"].s) else DNull
  {
    HeaderDecodesIff(j);
    HeaderFields();
    HeaderField(j, 4);
    if "reqId" in j.fields {
      OptionalStringIs(j.fields["reqId"]);
    }
  }

  // ---------------------------------------------------------------------
  // Collections
  // ---------------------------------------------------------------------

  /** The first `n` items are parts, no two of one kind. */
  ghost predicate DistinctParts(items: seq<Json>, n: nat)
    requires n <= |items|
  {
    && (forall i | 0 <= i < n ::
          items[i].Obj? && "kind" in items[i].fields && items[i].fields["kind"].Str?)
    && (forall i, j | 0 <= i < j < n :: items[i].fields["kind"] != items[j].fields["kind"])
  }

  predicate EndsIn(s: string, end: string) {
    |s| >= |end| && s[|s| - |end|..] == end
  }

  lemma DistinctIsCollection(items: seq<Json>, n: nat)
    requires n <= |items|
    ensures DistinctParts(items, n) <==> Collection(items[..n])
  {
    forall i | 0 <= i < n ensures items[..n][i] == items[i] {
    }
  }

  /** A part that is none is refused as such, if it is the first thing wrong. */
  lemma BadPartRefused(items: seq<Json>, bodies: map<string, BodySpec>, n: nat)
    requires n < |items| && DistinctParts(items, n)
    requires !(items[n].Obj? && "kind" in items[n].fields && items[n].fields["kind"].Str?)
    ensures FromParts(Arr(items), bodies) == Failure(BadPart)
  {
    FirstWrong(items, n);
  }

  /** And a second part of one kind. */
  lemma DuplicateRefused(items: seq<Json>, bodies: map<string, BodySpec>, n: nat, m: nat)
    requires m < n < |items| && DistinctParts(items, n)
    requires items[n].Obj? && "kind" in items[n].fields && items[n].fields["kind"] == items[m].fields["kind"]
    ensures FromParts(Arr(items), bodies) == Failure(DuplicatePart)
  {
    assert items[..n][m] == items[m];
    FirstWrong(items, n);
  }

  lemma FirstWrong(items: seq<Json>, n: nat)
    requires n < |items| && DistinctParts(items, n)
    ensures var seen := Collect(items[..n]);
            && seen.Success?
            && (forall m | 0 <= m < n :: KindOf(items[m]) in seen.value)
            && (!IsPart(items[n]) ==> Collect(items) == Failure(BadPart))
            && (IsPart(items[n]) && KindOf(items[n]) in seen.value ==> Collect(items) == Failure(DuplicatePart))
  {
    DistinctIsCollection(items, n);
    CollectIs(items[..n]);
    forall m | 0 <= m < n ensures KindOf(items[m]) in Collect(items[..n]).value {
      assert items[..n][m] == items[m];
    }
    assert items[..n + 1][..n] == items[..n];
    if Collect(items[..n + 1]).Failure? {
      CollectFails(items, n + 1);
    }
  }

  lemma OneBodyIff(items: seq<Json>)
    requires Collection(items)
    ensures |Bodies(items)| == 1 <==>
            exists body | body in items && IsBody(body) :: forall x | x in items && IsBody(x) :: x == body
  {
    if |Bodies(items)| == 1 {
      assert Bodies(items) == [Bodies(items)[0]];
      BodiesAre(items, Bodies(items)[0]);
    }
    forall body | body in items && IsBody(body) && forall x | x in items && IsBody(x) :: x == body
      ensures Bodies(items) == [body]
    {
      BodiesAre(items, body);
    }
  }

  lemma CountRefused(items: seq<Json>, bodies: map<string, BodySpec>)
    requires Collection(items) && |Bodies(items)| != 1
    ensures FromParts(Arr(items), bodies) == Failure(BadMessage)
  {
    CollectIs(items);
  }

  /** No body: every kind ends in "Header". */
  lemma NoBodyRefused(items: seq<Json>, bodies: map<string, BodySpec>)
    requires DistinctParts(items, |items|)
    requires forall k | 0 <= k < |items| :: EndsIn(items[k].fields["kind"].s, "Header")
    ensures FromParts(Arr(items), bodies) == Failure(BadMessage)
  {
    assert items[..|items|] == items;
    DistinctIsCollection(items, |items|);
    OneBodyIff(items);
    CountRefused(items, bodies);
  }

  /** More than one. */
  lemma TwoBodiesRefused(items: seq<Json>, bodies: map<string, BodySpec>, i: nat, j: nat)
    requires DistinctParts(items, |items|) && i < j < |items|
    requires !EndsIn(items[i].fields["kind"].s, "Header") && !EndsIn(items[j].fields["kind"].s, "Header")
    ensures FromParts(Arr(items), bodies) == Failure(BadMessage)
  {
    assert items[..|items|] == items;
    DistinctIsCollection(items, |items|);
    TwoBodies(items, i, j);
    CountRefused(items, bodies);
  }

  lemma TwoBodies(items: seq<Json>, i: nat, j: nat)
    requires Collection(items) && i < j < |items| && IsBody(items[i]) && IsBody(items[j])
    ensures |Bodies(items)| != 1
  {
    OneBodyIff(items);
    assert items[i] != items[j];
  }

  /** The verdict on a collection with one body: the first of these that
      applies. */
  ghost function Verdict(header: Option<Json>, body: Json, bodies: map<string, BodySpec>): Result<Msg, Code>
    requires body.Obj? && "kind" in body.fields && body.fields["kind"].Str?
  {
    var kind := body.fields["kind"].s;
    if kind !in bodies then Failure(UnknownBody)
    else if header.None? then Failure(MissingPart)
    else if !HeaderForm(header.value) then Failure(BadPart)
    else if bodies[kind].role != Notice && !HasReqId(header.value) then Failure(MissingReqId)
    else if Decode(TClass(bodies[kind].cls), body).None? then Failure(BadPart)
    else
      HeaderDecodesIff(header.value);
      Success(Msg(Decode(TClass(HEADER), header.value).value, Decode(TClass(bodies[kind].cls), body).value))
  }

  /** The part of kind "MsgHeader", where there is one. */
  ghost predicate HeaderPart(items: seq<Json>, header: Option<Json>) {
    if header.Some? then
      header.value in items && header.value.Obj? && "kind" in header.value.fields
      && header.value.fields["kind"] == Str("MsgHeader")
    else forall x | x in items && x.Obj? && "kind" in x.fields :: x.fields["kind"] != Str("MsgHeader")
  }

  lemma OneBodyVerdict(items: seq<Json>, bodies: map<string, BodySpec>, header: Option<Json>, body: Json)
    requires DistinctParts(items, |items|) && HeaderPart(items, header)
    requires body in items && !EndsIn(body.fields["kind"].s, "Header")
    requires forall x | x in items && x != body :: EndsIn(x.fields["kind"].s, "Header")
    ensures FromParts(Arr(items), bodies) == Verdict(header, body, bodies)
  {
    assert items[..|items|] == items;
    DistinctIsCollection(items, |items|);
    CollectIs(items);
    BodiesAre(items, body);
    if header.Some? {
      HeaderIsFound(items, header.value);
      TransposeVerdict(header.value, body, bodies);
    } else {
      HeaderFoundIff(items);
    }
  }

  lemma HeaderFoundIff(items: seq<Json>)
    requires Collect(items).Success?
    ensures "MsgHeader" in Collect(items).value <==>
            exists x | x in items && x.Obj? && "kind" in x.fields :: x.fields["kind"] == Str("MsgHeader")
  {
    CollectIs(items);
    if x :| x in items && x.Obj? && "kind" in x.fields && x.fields["kind"] == Str("MsgHeader") {
      var i :| 0 <= i < |items| && items[i] == x;
      assert KindOf(items[i]) == "MsgHeader";
    }
  }

  lemma TransposeVerdict(header: Json, body: Json, bodies: map<string, BodySpec>)
    requires IsBody(body)
    ensures Transpose(header, body, bodies) == Verdict(Some(header), body, bodies)
  {
    HeaderDecodesIff(header);
    if HeaderForm(header) {
      ReqIdIs(header);
    }
  }

  /** An ordinary request: accepted exactly with a request id. */
  lemma RequestNeedsReqId(items: seq<Json>, bodies: map<string, BodySpec>, header: Json, body: Json)
    requires DistinctParts(items, |items|) && HeaderPart(items, Some(header)) && HeaderForm(header)
    requires body in items && !EndsIn(body.fields["kind"].s, "Header")
    requires forall x | x in items && x != body :: EndsIn(x.fields["kind"].s, "Header")
    requires var kind := body.fields["kind"].s; kind in bodies && Decode(TClass(bodies[kind].cls), body).Some?
    ensures var spec := bodies[body.fields["kind"].s];
            var accepted := spec.role == Notice || ("reqId" in header.fields && !header.fields["reqId"].Null?);
            && (FromParts(Arr(items), bodies).Success? <==> accepted)
            && (!accepted ==> FromParts(Arr(items), bodies) == Failure(MissingReqId))
  {
    OneBodyVerdict(items, bodies, Some(header), body);
  }
}
