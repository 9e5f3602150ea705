/** Giving nested shapes back their names (`refNamedShapes`, src/protocol.ts): a
    nested copy of a named shape becomes a reference, and nothing is lost. */
module SchemaRefs {
  import opened Common
  import opened CanonicalText

  /** The shapes by name, and the names of a shape in declaration order. */
  datatype Defs = Defs(schemas: map<string, Shape>, naming: Shape -> seq<string>) {
    function NamesOf(v: Shape): seq<string> {
      naming(v)
    }

    predicate Named(v: Shape) {
      v.Obj? && NamesOf(v) != []
    }

    /** The names are those of the shapes, and every schema is an object without
        a "$ref". */
    ghost predicate Valid() {
      && (forall v, n :: n in naming(v) <==> n in schemas && schemas[n] == v)
      && (forall n | n in schemas :: schemas[n].Obj? && NoRef(schemas[n]))
    }
  }

  const PREFIX := "#/$defs/"

  function RefTo(name: string): Shape {
    Obj(map["$ref" := Str(PREFIX + name)])
  }

  /** The name an object refers to. */
  function Target(v: Shape): Option<string> {
    if v.Obj? && "$ref" in v.fields && v.fields["$ref"].Str? && |v.fields["$ref"].s| >= |PREFIX|
        && v.fields["$ref"].s[..|PREFIX|] == PREFIX
    then Some(v.fields["$ref"].s[|PREFIX|..])
    else None
  }

  /** No object has a "$ref" key. */
  predicate NoRef(v: Shape)
    decreases v
  {
    match v
    case Arr(items) => forall i | 0 <= i < |items| :: NoRef(items[i])
    case Obj(fields) => "$ref" !in fields && forall k | k in fields :: NoRef(fields[k])
    case _ => true
  }

  /** The walk on values: None where it throws. */
  function Walk(v: Shape, defs: Defs, top: bool): Option<Shape>
    decreases v
  {
    match v
    case Arr(items) =>
      if forall i | 0 <= i < |items| :: Walk(items[i], defs, false).Some?
      then Some(Arr(seq(|items|, i requires 0 <= i < |items| && Walk(items[i], defs, false).Some? =>
          Walk(items[i], defs, false).value)))
      else None
    case Obj(fields) =>
      if !top && defs.Named(v) then
        if |defs.NamesOf(v)| > 1 then None else Some(RefTo(defs.NamesOf(v)[0]))
      else if forall k | k in fields :: Walk(fields[k], defs, false).Some?
      then Some(Obj(map k | k in fields :: Walk(fields[k], defs, false).value))
      else None
    case _ => Some(v)
  }

  /** The result for every name; None where it throws. */
  function Compress(defs: Defs): Option<map<string, Shape>> {
    if forall n | n in defs.schemas :: Walk(defs.schemas[n], defs, true).Some?
    then Some(map n | n in defs.schemas :: Walk(defs.schemas[n], defs, true).value)
    else None
  }

  // ---------------------------------------------------------------------
  // Expanding gives the shapes back
  // ---------------------------------------------------------------------

  /** Every reference replaced by what it names, `fuel` references deep. */
  function Expand(v: Shape, compressed: map<string, Shape>, fuel: nat): Option<Shape>
    decreases fuel, v
  {
    var t := Target(v);
    if t.Some? then
      if fuel == 0 || t.value !in compressed then None else Expand(compressed[t.value], compressed, fuel - 1)
    else
      match v
      case Arr(items) =>
        if forall i | 0 <= i < |items| :: Expand(items[i], compressed, fuel).Some?
        then Some(Arr(seq(|items|, i requires 0 <= i < |items| && Expand(items[i], compressed, fuel).Some? =>
            Expand(items[i], compressed, fuel).value)))
        else None
      case Obj(fields) =>
        if forall k | k in fields :: Expand(fields[k], compressed, fuel).Some?
        then Some(Obj(map k | k in fields :: Expand(fields[k], compressed, fuel).value))
        else None
      case _ => Some(v)
  }

  /** The greatest depth among the values under `keys`. */
  ghost function DeepestOf(v: Shape, keys: set<string>): nat
    requires v.Obj? && keys <= v.fields.Keys
    decreases v, 0, |keys|
  {
    if keys == {} then 0
    else
      var k :| k in keys;
      var d, rest := Depth(v.fields[k]), DeepestOf(v, keys - {k});
      if d < rest then rest else d
  }

  ghost function DeepestIn(v: Shape, n: nat): nat
    requires v.Arr? && n <= |v.items|
    decreases v, 0, n
  {
    if n == 0 then 0
    else
      var d, rest := Depth(v.items[n - 1]), DeepestIn(v, n - 1);
      if d < rest then rest else d
  }

  /** How deeply a shape is nested. */
  ghost function Depth(v: Shape): nat
    decreases v, 1
  {
    match v
    case Arr(items) => 1 + DeepestIn(v, |items|)
    case Obj(fields) => 1 + DeepestOf(v, fields.Keys)
    case _ => 0
  }

  lemma {:induction false} FieldIsShallower(v: Shape, keys: set<string>, k: string)
    requires v.Obj? && keys <= v.fields.Keys && k in keys
    ensures Depth(v.fields[k]) <= DeepestOf(v, keys)
    decreases |keys|
  {
    var first :| first in keys && DeepestOf(v, keys) == if Depth(v.fields[first]) < DeepestOf(v, keys - {first})
        then DeepestOf(v, keys - {first}) else Depth(v.fields[first]);
    if k != first {
      FieldIsShallower(v, keys - {first}, k);
    }
  }

  lemma {:induction false} ItemIsShallower(v: Shape, n: nat, i: nat)
    requires v.Arr? && i < n <= |v.items|
    ensures Depth(v.items[i]) <= DeepestIn(v, n)
  {
    if i < n - 1 {
      ItemIsShallower(v, n - 1, i);
    }
  }

  lemma RefIsTarget(name: string)
    ensures Target(RefTo(name)) == Some(name) && !NoRef(RefTo(name))
  {
    assert (PREFIX + name)[..|PREFIX|] == PREFIX && (PREFIX + name)[|PREFIX|..] == name;
  }

  /** Expanding what the walk made of `v` gives `v` back; by name. */
  ghost predicate Restores(v: Shape, defs: Defs, compressed: map<string, Shape>, top: bool, fuel: nat) {
    forall n: nat {:trigger Turns(n)} :: Turns(n) && n == fuel ==>
      Walk(v, defs, top).Some? && Expand(Walk(v, defs, top).value, compressed, n) == Some(v)
  }

  lemma RestoresMeans(v: Shape, defs: Defs, compressed: map<string, Shape>, top: bool, fuel: nat)
    ensures Restores(v, defs, compressed, top, fuel)
       <==> Walk(v, defs, top).Some? && Expand(Walk(v, defs, top).value, compressed, fuel) == Some(v)
  {
    assert Turns(fuel);
  }

  /** The result is the walk over each schema. */
  ghost predicate IsCompressed(defs: Defs, compressed: map<string, Shape>) {
    compressed.Keys == defs.schemas.Keys && forall n | n in compressed ::
        Walk(defs.schemas[n], defs, true) == Some(compressed[n])
  }

  lemma CompressFromEach(defs: Defs, compressed: map<string, Shape>)
    ensures Compress(defs) == Some(compressed) <==> IsCompressed(defs, compressed)
  {
    if IsCompressed(defs, compressed) {
      assert Compress(defs).Some?;
      assert Compress(defs).value == compressed;
    }
  }

  lemma ExpandRef(name: string, compressed: map<string, Shape>, fuel: nat)
    requires name in compressed && fuel > 0
    ensures Expand(RefTo(name), compressed, fuel) == Expand(compressed[name], compressed, fuel - 1)
  {
    RefIsTarget(name);
  }

  /** A named copy becomes a reference to a name of it. */
  lemma WalkNamed(v: Shape, defs: Defs) returns (n: string)
    requires defs.Valid() && v.Obj? && defs.Named(v) && Walk(v, defs, false).Some?
    ensures Walk(v, defs, false) == Some(RefTo(n)) && n in defs.schemas && defs.schemas[n] == v && Depth(v) > 0
  {
    n := defs.NamesOf(v)[0];
    assert n in defs.NamesOf(v);
  }

  /** And comes back when what that name was compressed to does. */
  lemma RestoresNamed(v: Shape, defs: Defs, compressed: map<string, Shape>, n: string, fuel: nat)
    requires n in compressed && Walk(v, defs, true) == Some(compressed[n]) && Walk(v, defs, false) == Some(RefTo(n))
    requires fuel > 0 && Restores(v, defs, compressed, true, fuel - 1)
    ensures Restores(v, defs, compressed, false, fuel)
  {
    RestoresMeans(v, defs, compressed, true, fuel - 1);
    ExpandRef(n, compressed, fuel);
    RestoresMeans(v, defs, compressed, false, fuel);
  }

  /** A nested copy needs as many references deep as it is nested, a whole schema
      one less. */
  lemma {:induction false} ExpandsBack(v: Shape, defs: Defs, compressed: map<string, Shape>, top: bool, fuel: nat)
    requires defs.Valid() && IsCompressed(defs, compressed) && NoRef(v) && Walk(v, defs, top).Some?
    requires fuel + (if top then 1 else 0) >= Depth(v)
    ensures Restores(v, defs, compressed, top, fuel)
    decreases v, if top then 0 else 1, 1
  {
    if v.Arr? {
      ArrayExpandsBack(v, defs, compressed, top, fuel);
    } else if v.Obj? && !top && defs.Named(v) {
      var n := WalkNamed(v, defs);
      ExpandsBack(v, defs, compressed, true, fuel - 1);
      RestoresNamed(v, defs, compressed, n, fuel);
    } else if v.Obj? {
      ObjectExpandsBack(v, defs, compressed, top, fuel);
    } else {
      RestoresMeans(v, defs, compressed, top, fuel);
    }
  }

  lemma {:induction false} ArrayExpandsBack(v: Shape, defs: Defs, compressed: map<string, Shape>, top: bool, fuel: nat)
    requires defs.Valid() && IsCompressed(defs, compressed) && NoRef(v) && v.Arr? && Walk(v, defs, top).Some?
    requires fuel + (if top then 1 else 0) >= Depth(v)
    ensures Restores(v, defs, compressed, top, fuel)
    decreases v, if top then 0 else 1, 0
  {
    var c := Walk(v, defs, top).value;
    forall i | 0 <= i < |v.items| ensures Expand(c.items[i], compressed, fuel) == Some(v.items[i]) {
      ItemIsShallower(v, |v.items|, i);
      ExpandsBack(v.items[i], defs, compressed, false, fuel);
      RestoresMeans(v.items[i], defs, compressed, false, fuel);
    }
    assert Expand(c, compressed, fuel).value.items == v.items;
    RestoresMeans(v, defs, compressed, top, fuel);
  }

  lemma {:induction false} ObjectExpandsBack(v: Shape, defs: Defs, compressed: map<string, Shape>, top: bool, fuel: nat)
    requires defs.Valid() && IsCompressed(defs, compressed) && NoRef(v) && v.Obj? && Walk(v, defs, top).Some?
             && (top || !defs.Named(v))
    requires fuel + (if top then 1 else 0) >= Depth(v)
    ensures Restores(v, defs, compressed, top, fuel)
    decreases v, if top then 0 else 1, 0
  {
    var c := Walk(v, defs, top).value;
    forall k | k in v.fields ensures Expand(c.fields[k], compressed, fuel) == Some(v.fields[k]) {
      FieldIsShallower(v, v.fields.Keys, k);
      ExpandsBack(v.fields[k], defs, compressed, false, fuel);
      RestoresMeans(v.fields[k], defs, compressed, false, fuel);
    }
    assert "$ref" !in c.fields;
    ExpandFields(c, v, compressed, fuel);
    RestoresMeans(v, defs, compressed, top, fuel);
  }

  lemma ExpandFields(c: Shape, v: Shape, compressed: map<string, Shape>, fuel: nat)
    requires c.Obj? && v.Obj? && "$ref" !in c.fields && c.fields.Keys == v.fields.Keys
    requires forall k | k in v.fields :: Expand(c.fields[k], compressed, fuel) == Some(v.fields[k])
    ensures Expand(c, compressed, fuel) == Some(v)
  {
    assert Expand(c, compressed, fuel).value.fields == v.fields;
  }

  /** Compression preserves meaning: following every reference ends, after no
      more of them than the shape is deep, and gives back exactly the shapes
      passed in. */
  lemma CompressionPreserves(defs: Defs, compressed: map<string, Shape>, name: string, fuel: nat)
    requires defs.Valid() && Compress(defs) == Some(compressed) && name in compressed
             && fuel >= Depth(defs.schemas[name])
    ensures Expand(compressed[name], compressed, fuel) == Some(defs.schemas[name])
  {
    CompressFromEach(defs, compressed);
    ExpandsBack(defs.schemas[name], defs, compressed, true, fuel);
    RestoresMeans(defs.schemas[name], defs, compressed, true, fuel);
  }

  // ---------------------------------------------------------------------
  // No copy survives
  // ---------------------------------------------------------------------

  datatype Hop = Item(i: nat) | Key(k: string)

  function Child(v: Shape, hop: Hop): Option<Shape> {
    match hop
    case Item(i) => if v.Arr? && i < |v.items| then Some(v.items[i]) else None
    case Key(k) => if v.Obj? && k in v.fields then Some(v.fields[k]) else None
  }

  function At(v: Shape, path: seq<Hop>): Option<Shape>
    decreases path
  {
    if path == [] then Some(v)
    else if Child(v, path[0]).None? then None
    else At(Child(v, path[0]).value, path[1..])
  }

  /** What the walk changed has a reference in it. */
  lemma {:induction false} ChangedHasRef(v: Shape, defs: Defs, top: bool)
    requires Walk(v, defs, top).Some? && NoRef(Walk(v, defs, top).value)
    ensures Walk(v, defs, top).value == v
    decreases v
  {
    var c := Walk(v, defs, top).value;
    match v
    case Arr(items) =>
      forall i | 0 <= i < |items| ensures c.items[i] == items[i] {
        assert c.items[i] == Walk(items[i], defs, false).value && NoRef(c.items[i]);
        ChangedHasRef(items[i], defs, false);
      }
    case Obj(fields) =>
      if !top && defs.Named(v) {
        RefIsTarget(defs.NamesOf(v)[0]);
      } else {
        forall k | k in fields ensures c.fields[k] == fields[k] {
          assert c.fields[k] == Walk(fields[k], defs, false).value && NoRef(c.fields[k]);
          ChangedHasRef(fields[k], defs, false);
        }
        assert c.fields == fields;
      }
    case _ =>
  }

  lemma NamedHasNoRef(defs: Defs, v: Shape)
    requires defs.Valid() && defs.Named(v)
    ensures NoRef(v)
  {
    var n := defs.naming(v)[0];
    assert n in defs.naming(v);
    assert defs.schemas[n] == v;
  }

  /** No nested copy of a named shape is left anywhere in the result. */
  lemma {:induction false} NoCopySurvives(v: Shape, defs: Defs, top: bool, path: seq<Hop>)
    requires defs.Valid() && Walk(v, defs, top).Some? && (top ==> path != [])
    requires At(Walk(v, defs, top).value, path).Some?
    ensures !defs.Named(At(Walk(v, defs, top).value, path).value)
    decreases path
  {
    var c := Walk(v, defs, top).value;
    if path == [] {
      if defs.Named(c) {
        NamedHasNoRef(defs, c);
        ChangedHasRef(v, defs, top);
        RefIsTarget(defs.NamesOf(v)[0]);
      }
    } else if v.Obj? && !top && defs.Named(v) {
      assert c == RefTo(defs.NamesOf(v)[0]);
      assert path[0] == Key("$ref");
      assert At(c, path) == At(c.fields["$ref"], path[1..]);
      StringHasNoParts(c.fields["$ref"], path[1..]);
    } else {
      var hop := path[0];
      var part := Child(v, hop).value;
      assert Child(c, hop) == Walk(part, defs, false);
      NoCopySurvives(part, defs, false, path[1..]);
    }
  }

  lemma StringHasNoParts(v: Shape, path: seq<Hop>)
    requires v.Str? && At(v, path).Some?
    ensures At(v, path) == Some(v)
  {
  }

  /** At the end of the path is a nested shape whose one name is `name`, and no
      nested shape on the way has a name. */
  predicate Copies(v: Shape, defs: Defs, top: bool, path: seq<Hop>, name: string)
    decreases path
  {
    if path == [] then !top && v.Obj? && defs.NamesOf(v) == [name]
    else
      && (top || !defs.Named(v)) && Child(v, path[0]).Some?
      && Copies(Child(v, path[0]).value, defs, false, path[1..], name)
  }

  /** Every outermost nested copy becomes the reference to its name, in place. */
  lemma {:induction false} CopyBecomesRef(v: Shape, defs: Defs, top: bool, path: seq<Hop>, name: string)
    requires Walk(v, defs, top).Some? && Copies(v, defs, top, path, name)
    ensures At(Walk(v, defs, top).value, path) == Some(Obj(map["$ref" := Str("#/$defs/" + name)]))
    decreases path
  {
    if path != [] {
      var part := Child(v, path[0]).value;
      assert Child(Walk(v, defs, top).value, path[0]) == Walk(part, defs, false);
      CopyBecomesRef(part, defs, false, path[1..], name);
    }
  }

  // ---------------------------------------------------------------------
  // When it throws
  // ---------------------------------------------------------------------

  /** At the end of the path is a nested shape with several names, and no nested
      shape on the way has a name. */
  predicate Clashes(v: Shape, defs: Defs, top: bool, path: seq<Hop>)
    decreases path
  {
    if path == [] then !top && v.Obj? && |defs.NamesOf(v)| > 1
    else (top || !defs.Named(v)) && Child(v, path[0]).Some? && Clashes(Child(v, path[0]).value, defs, false, path[1..])
  }

  lemma {:induction false} ClashThrows(v: Shape, defs: Defs, top: bool, path: seq<Hop>)
    requires Clashes(v, defs, top, path)
    ensures Walk(v, defs, top).None?
    decreases path
  {
    if path != [] {
      ClashThrows(Child(v, path[0]).value, defs, false, path[1..]);
    }
  }

  lemma {:induction false} ThrowHasClash(v: Shape, defs: Defs, top: bool) returns (path: seq<Hop>)
    requires Walk(v, defs, top).None?
    ensures Clashes(v, defs, top, path)
    decreases v
  {
    if v.Obj? && !top && defs.Named(v) {
      path := [];
    } else if v.Arr? {
      var i :| 0 <= i < |v.items| && Walk(v.items[i], defs, false).None?;
      var rest := ThrowHasClash(v.items[i], defs, false);
      path := [Item(i)] + rest;
      assert path[1..] == rest;
    } else {
      var k :| k in v.fields && Walk(v.fields[k], defs, false).None?;
      var rest := ThrowHasClash(v.fields[k], defs, false);
      path := [Key(k)] + rest;
      assert path[1..] == rest;
    }
  }

  ghost predicate HasClash(defs: Defs) {
    exists n, path :: n in defs.schemas && Clashes(defs.schemas[n], defs, true, path)
  }

  lemma ClashFound(defs: Defs, n: string, path: seq<Hop>)
    requires n in defs.schemas && Clashes(defs.schemas[n], defs, true, path)
    ensures HasClash(defs)
  {
  }

  /** Compression throws exactly when an outermost nested copy has two names. */
  lemma ThrowsIff(defs: Defs)
    ensures Compress(defs).None? <==> HasClash(defs)
  {
    if Compress(defs).None? {
      var n :| n in defs.schemas && Walk(defs.schemas[n], defs, true).None?;
      var path := ThrowHasClash(defs.schemas[n], defs, true);
      ClashFound(defs, n, path);
    } else {
      forall n, path | n in defs.schemas ensures !Clashes(defs.schemas[n], defs, true, path) {
        assert n in Compress(defs).value;
        if Clashes(defs.schemas[n], defs, true, path) {
          ClashThrows(defs.schemas[n], defs, true, path);
        }
      }
    }
  }
}
