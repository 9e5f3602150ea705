/** `refNamedShapes` as written (src/protocol.ts): shapes are recognised by their
    canonical text, looked up in a map that a loop fills. It does what the walk
    on values does. */
module SchemaWalk {
  import opened Common
  import opened CanonicalText
  import opened SchemaRefs

  /** The shapes passed in, in the order of their names. */
  datatype Shapes = Shapes(names: seq<string>, schemas: map<string, Doc>) {
    ghost predicate Ok() {
      && (forall n :: n in names <==> n in schemas)
      && (forall n | n in schemas :: schemas[n].DocObj? && Valid(schemas[n]))
    }
  }

  function DefsOf(shapes: Shapes): Defs {
    var schemas := map n | n in shapes.schemas :: Norm(shapes.schemas[n]);
    Defs(schemas, v => Filter((n: string) => n in schemas && schemas[n] == v, shapes.names))
  }

  /** The names of the first `n` shapes with a text. */
  function NamesWith(shapes: Shapes, names: seq<string>, text: string): seq<string>
    requires forall n | n in shapes.schemas :: Valid(shapes.schemas[n])
  {
    if names == [] then []
    else
      var rest, last := NamesWith(shapes, names[..|names| - 1], text), names[|names| - 1];
      if last in shapes.schemas && Canonical(shapes.schemas[last]) == text then rest + [last] else rest
  }

  /** The map says for every text the names of its shapes, in order. */
  ghost predicate IsNamesByShape(shapes: Shapes, names: seq<string>, byText: map<string, seq<string>>)
    requires forall n | n in shapes.schemas :: Valid(shapes.schemas[n])
  {
    forall text :: NamesWith(shapes, names, text) == if text in byText then byText[text] else []
  }

  lemma NamesWithOneMore(shapes: Shapes, names: seq<string>, i: nat, key: string, text: string)
    requires forall n | n in shapes.schemas :: Valid(shapes.schemas[n])
    requires i < |names| && names[i] in shapes.schemas && key == Canonical(shapes.schemas[names[i]])
    ensures NamesWith(shapes, names[..i + 1], text) == NamesWith(shapes, names[..i], text) + if key == text
            then [names[i]] else []
  {
    assert names[..i + 1][..i] == names[..i];
  }

  method NamesByShape(shapes: Shapes) returns (byText: map<string, seq<string>>)
    requires shapes.Ok()
    ensures IsNamesByShape(shapes, shapes.names, byText)
    ensures forall text | text in byText :: byText[text] != []
  {
    byText := map[];
    for i := 0 to |shapes.names|
      invariant forall text :: NamesWith(shapes, shapes.names[..i], text) == if text in byText then byText[text] else []
      invariant forall text | text in byText :: byText[text] != []
    {
      var name := shapes.names[i];
      assert name in shapes.names;
      var key := Canonical(shapes.schemas[name]);
      ghost var before := byText;
      byText := byText[key := (if key in byText then byText[key] else []) + [name]];
      forall text
        ensures NamesWith(shapes, shapes.names[..i + 1], text) == if text in byText then byText[text] else []
      {
        NamesWithOneMore(shapes, shapes.names, i, key, text);
        assert NamesWith(shapes, shapes.names[..i], text) == if text in before then before[text] else [];
      }
    }
    assert shapes.names[..|shapes.names|] == shapes.names;
  }

  /** The text a shape is recognised by. */
  function TextOf(d: Doc): string {
    if Valid(d) then Canonical(d) else ""
  }

  /** The walk, with the text of a shape as a parameter: None where it throws. */
  function WalkDoc(text: Doc -> string, d: Doc, byText: map<string, seq<string>>, top: bool): Option<Doc>
    decreases d
  {
    match d
    case DocArr(items) =>
      if forall i | 0 <= i < |items| :: WalkDoc(text, items[i], byText, false).Some?
      then Some(DocArr(seq(|items|, i requires 0 <= i < |items| && WalkDoc(text, items[i], byText, false).Some? =>
          WalkDoc(text, items[i], byText, false).value)))
      else None
    case DocObj(keys, fields) =>
      if !top && text(d) in byText then
        if |byText[text(d)]| != 1 then None
        else Some(DocObj(["$ref"], map["$ref" := DocStr(PREFIX + byText[text(d)][0])]))
      else if forall k | k in fields :: WalkDoc(text, fields[k], byText, false).Some?
      then Some(DocObj(keys, map k | k in fields :: WalkDoc(text, fields[k], byText, false).value))
      else None
    case _ => Some(d)
  }

  lemma {:induction false} NamesAgree(shapes: Shapes, schemas: map<string, Shape>, names: seq<string>, d: Doc)
    requires shapes.Ok() && Valid(d) && schemas == map n | n in shapes.schemas :: Norm(shapes.schemas[n])
    ensures NamesWith(shapes, names, Canonical(d)) ==
            Filter((n: string) => n in schemas && schemas[n] == Norm(d), names)
  {
    if names != [] {
      NamesAgree(shapes, schemas, names[..|names| - 1], d);
      var last := names[|names| - 1];
      if last in shapes.schemas {
        SameTextIff(shapes.schemas[last], d);
      }
    }
  }

  /** A text is in the map exactly when the value is named. */
  lemma LookupAgrees(shapes: Shapes, byText: map<string, seq<string>>, d: Doc)
    requires shapes.Ok() && Valid(d) && d.DocObj? && IsNamesByShape(shapes, shapes.names, byText)
    requires forall text | text in byText :: byText[text] != []
    ensures Canonical(d) in byText <==> DefsOf(shapes).Named(Norm(d))
    ensures Canonical(d) in byText ==> byText[Canonical(d)] == DefsOf(shapes).NamesOf(Norm(d))
  {
    NamesAgree(shapes, DefsOf(shapes).schemas, shapes.names, d);
  }

  /** The shapes without a "$ref" are definitions as compression takes them. */
  lemma DefsAreValid(shapes: Shapes)
    requires shapes.Ok() && forall n | n in shapes.schemas :: NoRef(Norm(shapes.schemas[n]))
    ensures DefsOf(shapes).Valid()
  {
  }

  /** Names a value whose text is looked up; it only keeps the verifier from
      printing every value it meets. */
  ghost predicate LookedUp(d: Doc) {
    true
  }

  /** The text tells the named shapes, and their names. */
  ghost predicate Recognises(text: Doc -> string, byText: map<string, seq<string>>, defs: Defs) {
    forall d: Doc {:trigger LookedUp(d)} | LookedUp(d) && Valid(d) && d.DocObj? ::
      && (text(d) in byText <==> defs.Named(Norm(d)))
      && (text(d) in byText ==> byText[text(d)] == defs.NamesOf(Norm(d)))
  }

  lemma CanonicalRecognises(shapes: Shapes, byText: map<string, seq<string>>)
    requires shapes.Ok() && IsNamesByShape(shapes, shapes.names, byText) && forall text | text in byText ::
             byText[text] != []
    ensures Recognises(TextOf, byText, DefsOf(shapes))
  {
    forall d: Doc {:trigger LookedUp(d)} | LookedUp(d) && Valid(d) && d.DocObj?
      ensures TextOf(d) in byText <==> DefsOf(shapes).Named(Norm(d))
      ensures TextOf(d) in byText ==> byText[TextOf(d)] == DefsOf(shapes).NamesOf(Norm(d))
    {
      LookupAgrees(shapes, byText, d);
    }
  }

  /** The program's walk over `d` does what the walk over its value does; by
      name. */
  ghost predicate Agrees(text: Doc -> string, defs: Defs, byText: map<string, seq<string>>, d: Doc, top: bool) {
    forall n: nat {:trigger Turns(n)} :: Turns(n) ==>
      match WalkDoc(text, d, byText, top)
      case None => Walk(Norm(d), defs, top).None?
      case Some(c) => Walk(Norm(d), defs, top) == Some(Norm(c))
  }

  lemma AgreesMeans(text: Doc -> string, defs: Defs, byText: map<string, seq<string>>, d: Doc, top: bool)
    ensures Agrees(text, defs, byText, d, top) <==>
              (WalkDoc(text, d, byText, top).Some? <==> Walk(Norm(d), defs, top).Some?)
              && (WalkDoc(text, d, byText, top).Some? ==>
                  Walk(Norm(d), defs, top) == Some(Norm(WalkDoc(text, d, byText, top).value)))
  {
    assert Turns(0);
  }

  /** Recognising shapes by their text loses nothing and confuses nothing. */
  lemma {:induction false} WalkAgrees(text: Doc -> string, defs: Defs, byText: map<string, seq<string>>, d: Doc,
      top: bool)
    requires Recognises(text, byText, defs) && Valid(d)
    ensures Agrees(text, defs, byText, d, top)
    decreases d
  {
    if d.DocArr? {
      forall i | 0 <= i < |d.items| ensures Agrees(text, defs, byText, d.items[i], false) {
        WalkAgrees(text, defs, byText, d.items[i], false);
      }
      ArrayWalkAgrees(text, defs, byText, d, top);
    } else if d.DocObj? {
      assert LookedUp(d);
      if !top && text(d) in byText {
        CopyWalkAgrees(text, defs, byText, d);
      } else {
        forall k | k in d.fields ensures Agrees(text, defs, byText, d.fields[k], false) {
          WalkAgrees(text, defs, byText, d.fields[k], false);
        }
        ObjectWalkAgrees(text, defs, byText, d, top);
      }
    } else {
      AgreesMeans(text, defs, byText, d, top);
    }
  }

  lemma CopyWalkAgrees(text: Doc -> string, defs: Defs, byText: map<string, seq<string>>, d: Doc)
    requires d.DocObj? && text(d) in byText && defs.Named(Norm(d)) && byText[text(d)] == defs.NamesOf(Norm(d))
    ensures Agrees(text, defs, byText, d, false)
  {
    var names := byText[text(d)];
    if |names| == 1 {
      assert Norm(WalkDoc(text, d, byText, false).value).fields == RefTo(names[0]).fields;
    }
    AgreesMeans(text, defs, byText, d, false);
  }

  lemma ArrayWalkAgrees(text: Doc -> string, defs: Defs, byText: map<string, seq<string>>, d: Doc, top: bool)
    requires d.DocArr? && forall i | 0 <= i < |d.items| :: Agrees(text, defs, byText, d.items[i], false)
    ensures Agrees(text, defs, byText, d, top)
  {
    var v := Norm(d);
    forall i | 0 <= i < |d.items|
      ensures WalkDoc(text, d.items[i], byText, false).Some? <==> Walk(v.items[i], defs, false).Some?
      ensures WalkDoc(text, d.items[i], byText, false).Some? ==>
                Walk(v.items[i], defs, false) == Some(Norm(WalkDoc(text, d.items[i], byText, false).value))
    {
      AgreesMeans(text, defs, byText, d.items[i], false);
    }
    if WalkDoc(text, d, byText, top).Some? {
      assert Walk(v, defs, top).value.items == Norm(WalkDoc(text, d, byText, top).value).items;
    }
    AgreesMeans(text, defs, byText, d, top);
  }

  /** The walk over the fields of an object that is kept. */
  lemma KeptDoc(text: Doc -> string, byText: map<string, seq<string>>, d: Doc, top: bool)
    requires d.DocObj? && (top || text(d) !in byText)
    ensures WalkDoc(text, d, byText, top).Some? <==>
            forall k | k in d.fields :: WalkDoc(text, d.fields[k], byText, false).Some?
    ensures WalkDoc(text, d, byText, top).Some? ==>
              var c := WalkDoc(text, d, byText, top).value;
              c.DocObj? && c.fields.Keys == d.fields.Keys && forall k | k in d.fields ::
                  c.fields[k] == WalkDoc(text, d.fields[k], byText, false).value
  {
  }

  lemma KeptShape(defs: Defs, v: Shape, top: bool)
    requires v.Obj? && (top || !defs.Named(v))
    ensures Walk(v, defs, top).Some? <==> forall k | k in v.fields :: Walk(v.fields[k], defs, false).Some?
    ensures Walk(v, defs, top).Some? ==>
              var c := Walk(v, defs, top).value;
              c.Obj? && c.fields.Keys == v.fields.Keys && forall k | k in v.fields ::
                  c.fields[k] == Walk(v.fields[k], defs, false).value
  {
  }

  lemma SameFieldsSameShape(c: Doc, v: Shape)
    requires c.DocObj? && v.Obj? && c.fields.Keys == v.fields.Keys && forall k | k in c.fields ::
             Norm(c.fields[k]) == v.fields[k]
    ensures Norm(c) == v
  {
    assert Norm(c).fields == v.fields;
  }

  lemma ObjectWalkAgrees(text: Doc -> string, defs: Defs, byText: map<string, seq<string>>, d: Doc, top: bool)
    requires d.DocObj? && (top || (text(d) !in byText && !defs.Named(Norm(d))))
    requires forall k | k in d.fields :: Agrees(text, defs, byText, d.fields[k], false)
    ensures Agrees(text, defs, byText, d, top)
  {
    KeptDoc(text, byText, d, top);
    var v := Norm(d);
    KeptShape(defs, v, top);
    assert v.fields.Keys == d.fields.Keys;
    forall k | k in d.fields
      ensures WalkDoc(text, d.fields[k], byText, false).Some? <==> Walk(v.fields[k], defs, false).Some?
      ensures WalkDoc(text, d.fields[k], byText, false).Some? ==>
                Walk(v.fields[k], defs, false) == Some(Norm(WalkDoc(text, d.fields[k], byText, false).value))
    {
      AgreesMeans(text, defs, byText, d.fields[k], false);
    }
    if WalkDoc(text, d, byText, top).Some? {
      SameFieldsSameShape(WalkDoc(text, d, byText, top).value, Walk(Norm(d), defs, top).value);
    }
    AgreesMeans(text, defs, byText, d, top);
  }

  function Norms(docs: map<string, Doc>): map<string, Shape> {
    map n | n in docs :: Norm(docs[n])
  }

  /** The results of the walk over the first `n` names. */
  ghost predicate Walked(text: Doc -> string, shapes: Shapes, byText: map<string, seq<string>>, n: nat,
      out: map<string, Doc>)
    requires n <= |shapes.names|
  {
    && (forall name :: name in out <==> name in shapes.names[..n])
    && (forall name | name in out ::
        name in shapes.schemas && WalkDoc(text, shapes.schemas[name], byText, true) == Some(out[name]))
  }

  ghost predicate SomeThrows(text: Doc -> string, shapes: Shapes, byText: map<string, seq<string>>) {
    exists n | n in shapes.schemas :: WalkDoc(text, shapes.schemas[n], byText, true).None?
  }

  /** What the loop over the shapes gives; by name. */
  ghost predicate IsResult(text: Doc -> string, shapes: Shapes, byText: map<string, seq<string>>,
      res: Option<map<string, Doc>>) {
    forall n: nat {:trigger Turns(n)} :: Turns(n) && n == |shapes.names| ==>
      if res.None? then SomeThrows(text, shapes, byText) else Walked(text, shapes, byText, n, res.value)
  }

  ghost predicate EachAgrees(text: Doc -> string, shapes: Shapes, byText: map<string, seq<string>>, defs: Defs) {
    forall n | n in shapes.schemas :: Agrees(text, defs, byText, shapes.schemas[n], true)
  }

  lemma WalksAgree(text: Doc -> string, shapes: Shapes, byText: map<string, seq<string>>, defs: Defs)
    requires shapes.Ok() && Recognises(text, byText, defs)
    ensures EachAgrees(text, shapes, byText, defs)
  {
    forall n | n in shapes.schemas ensures Agrees(text, defs, byText, shapes.schemas[n], true) {
      WalkAgrees(text, defs, byText, shapes.schemas[n], true);
    }
  }

  lemma WalkedIsCompressed(text: Doc -> string, shapes: Shapes, byText: map<string, seq<string>>,
      out: map<string, Doc>, defs: Defs)
    requires EachAgrees(text, shapes, byText, defs) && Walked(text, shapes, byText, |shapes.names|, out)
    requires forall n :: n in shapes.names <==> n in shapes.schemas
    requires defs.schemas.Keys == shapes.schemas.Keys && forall n | n in shapes.schemas ::
             defs.schemas[n] == Norm(shapes.schemas[n])
    ensures Compress(defs) == Some(Norms(out))
  {
    assert shapes.names[..|shapes.names|] == shapes.names;
    var compressed := Norms(out);
    assert compressed.Keys == defs.schemas.Keys;
    forall n | n in compressed ensures Walk(defs.schemas[n], defs, true) == Some(compressed[n]) {
      AgreesMeans(text, defs, byText, shapes.schemas[n], true);
    }
    CompressFromEach(defs, compressed);
  }

  lemma ThrowIsThrow(text: Doc -> string, shapes: Shapes, byText: map<string, seq<string>>, defs: Defs)
    requires EachAgrees(text, shapes, byText, defs) && SomeThrows(text, shapes, byText)
    requires defs.schemas.Keys == shapes.schemas.Keys && forall n | n in shapes.schemas ::
             defs.schemas[n] == Norm(shapes.schemas[n])
    ensures Compress(defs).None?
  {
    var n :| n in shapes.schemas && WalkDoc(text, shapes.schemas[n], byText, true).None?;
    AgreesMeans(text, defs, byText, shapes.schemas[n], true);
    assert Walk(defs.schemas[n], defs, true).None?;
  }

  lemma ResultIsCompressed(text: Doc -> string, shapes: Shapes, byText: map<string, seq<string>>,
      res: Option<map<string, Doc>>, defs: Defs)
    requires shapes.Ok() && Recognises(text, byText, defs) && IsResult(text, shapes, byText, res)
    requires defs.schemas.Keys == shapes.schemas.Keys && forall n | n in shapes.schemas ::
             defs.schemas[n] == Norm(shapes.schemas[n])
    ensures Compress(defs) == if res.None? then None else Some(Norms(res.value))
  {
    assert Turns(|shapes.names|);
    WalksAgree(text, shapes, byText, defs);
    if res.None? {
      ThrowIsThrow(text, shapes, byText, defs);
    } else {
      WalkedIsCompressed(text, shapes, byText, res.value, defs);
    }
  }

  /** The loop over the shapes: the walk of each, or None at the first that
      throws. */
  method WalkAll(text: Doc -> string, shapes: Shapes, byText: map<string, seq<string>>)
      returns (res: Option<map<string, Doc>>)
    requires forall n | n in shapes.names :: n in shapes.schemas
    ensures IsResult(text, shapes, byText, res)
  {
    var out: map<string, Doc> := map[];
    for i := 0 to |shapes.names|
      invariant Walked(text, shapes, byText, i, out)
    {
      var name := shapes.names[i];
      assert name in shapes.names;
      var c := WalkDoc(text, shapes.schemas[name], byText, true);
      if c.None? {
        return None;
      }
      assert shapes.names[..i + 1] == shapes.names[..i] + [name];
      out := out[name := c.value];
    }
    return Some(out);
  }

  /** Expanding every reference in the result gives the shapes passed in back, up
      to key order, whatever bound of at least their depth is set. */
  lemma ResultExpandsBack(shapes: Shapes, res: map<string, Doc>, n: string, fuel: nat)
    requires shapes.Ok() && (forall m | m in shapes.schemas :: NoRef(Norm(shapes.schemas[m])))
    requires Compress(DefsOf(shapes)) == Some(Norms(res)) && n in shapes.schemas
    requires fuel >= Depth(Norm(shapes.schemas[n]))
    ensures n in res && Expand(Norm(res[n]), Norms(res), fuel) == Some(Norm(shapes.schemas[n]))
  {
    DefsAreValid(shapes);
    CompressFromEach(DefsOf(shapes), Norms(res));
    assert n in Norms(res);
    CompressionPreserves(DefsOf(shapes), Norms(res), n, fuel);
  }

  /** `refNamedShapes`: every shape compressed, or None where it throws; either
      way what compression on values says. */
  method RefNamedShapes(shapes: Shapes) returns (res: Option<map<string, Doc>>)
    requires shapes.Ok()
    ensures Compress(DefsOf(shapes)) == if res.None? then None else Some(Norms(res.value))
  {
    var byText := NamesByShape(shapes);
    res := WalkAll(TextOf, shapes, byText);
    CanonicalRecognises(shapes, byText);
    ResultIsCompressed(TextOf, shapes, byText, res, DefsOf(shapes));
  }
}
