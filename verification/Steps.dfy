/** Lifecycle operations as data and back (fabric/units.py), and resolving their
    references from a run's store (deployer/lifecycle.py). */
module Steps {
  import opened Common
  import opened JsonValues

  // ---------------------------------------------------------------------
  // Operations
  // ---------------------------------------------------------------------

  /** A token of a command: a text, a reference to a value of the run, a
      variable of the declarations, which only a plan can replace, or some other
      value, which no command takes. */
  datatype Token =
    | Text(text: string)
    | Ref(name: string, key: Option<string>)
    | Var(variable: string)
    | Other(value: Json)

  /** A field of a raw node: JSON with references and variables in it. A
      decoded reference holds whatever stood under its two keys. */
  datatype Value =
    | Plain(json: Json)
    | List(items: seq<Value>)
    | Dict(entries: map<string, Value>)
    | RefValue(name: Value, key: Value)
    | VarValue(variable: string)

  datatype Node = Node(id: string, kind: string, fields: Value)

  datatype Command = Command(title: string, argv: seq<Token>, optional: bool, timeout: Option<real>)

  datatype Operation =
    | Primitive(key: string, nodes: seq<Node>, create: seq<Command>, delete: seq<Command>, probe: bool)
    | WriteFile(path: string, content: string, mode: Option<int>)
    | Capture(name: string, title: string, argv: seq<Token>, optional: bool, retries: nat,
              restartUnit: Option<string>, resultKey: Option<string>)
    | SymlinkNetns(container: string, pid: Token)
    | Directory(host: string, path: string, owned: bool)
    | Chmod(host: string, path: string, bits: int)
    | RemovePath(host: string, path: string, recursive: bool)

  // ---------------------------------------------------------------------
  // Steps
  // ---------------------------------------------------------------------

  datatype Arg = ArgText(text: string) | ArgRef(name: string, key: Option<string>)

  datatype StepNode = StepNode(id: string, kind: string, fields: Json)

  datatype StepCommand = StepCommand(title: string, argv: seq<Arg>, optional: Option<bool>, timeout: Option<real>)

  datatype Step =
    | PrimitiveStep(key: string, nodes: seq<StepNode>, create: seq<StepCommand>, delete: seq<StepCommand>)
    | WriteFileStep(path: string, content: string, mode: Option<int>)
    | CaptureStep(name: string, title: string, argv: seq<Arg>, optional: Option<bool>, retries: Option<nat>,
                  restartUnit: Option<string>, resultKey: Option<string>)
    | SymlinkNetnsStep(container: string, pid: Arg)
    | DirectoryStep(path: string, owned: Option<bool>)
    | ChmodStep(path: string, bits: int)
    | RemovePathStep(path: string, recursive: Option<bool>)

  // ---------------------------------------------------------------------
  // Dump
  // ---------------------------------------------------------------------

  /** A list of results: the values, or the first failure. */
  function All<T, U, E>(f: T -> Result<U, E>, s: seq<T>): Result<seq<U>, E> {
    if s == [] then Success([])
    else
      var head := f(s[0]);
      if head.Failure? then Failure(head.error)
      else
        var rest := All(f, s[1..]);
        if rest.Failure? then rest else Success([head.value] + rest.value)
  }

  /** `x or None`. */
  function OrNone(x: bool): Option<bool> {
    if x then Some(true) else None
  }

  function Truth(x: Option<bool>): bool {
    x.Some? && x.value
  }

  function ToArg(t: Token): Result<Arg, string> {
    match t
    case Text(s) => Success(ArgText(s))
    case Ref(name, key) => Success(ArgRef(name, key))
    case Var(v) => Failure(v)
    case Other(_) => Failure("")
  }

  function FromArg(a: Arg): Token {
    match a
    case ArgText(s) => Text(s)
    case ArgRef(name, key) => Ref(name, key)
  }

  /** `json.dumps` with `_encode_ref`; None where it raises. */
  function Encode(v: Value): Option<Json>
    decreases v
  {
    match v
    case Plain(j) => if j.Arr? || j.Obj? then None else Some(j)
    case List(items) =>
      if forall i | 0 <= i < |items| :: Encode(items[i]).Some?
      then Some(Arr(seq(|items|, i requires 0 <= i < |items| && Encode(items[i]).Some? => Encode(items[i]).value)))
      else None
    case Dict(entries) =>
      if forall k | k in entries :: Encode(entries[k]).Some?
      then Some(Obj(map k | k in entries :: Encode(entries[k]).value))
      else None
    case RefValue(name, key) =>
      if Encode(name).Some? && Encode(key).Some?
      then Some(Obj(map["$ref" := Encode(name).value, "$key" := Encode(key).value]))
      else None
    case VarValue(_) => None
  }

  /** `json.loads` with `_decode_ref`, innermost objects first. */
  function Decode(j: Json): Value
    decreases j
  {
    match j
    case Arr(items) => List(seq(|items|, i requires 0 <= i < |items| => Decode(items[i])))
    case Obj(fields) =>
      if "$ref" in fields
      then RefValue(Decode(fields["$ref"]), if "$key" in fields then Decode(fields["$key"]) else Plain(Null))
      else Dict(map k | k in fields :: Decode(fields[k]))
    case _ => Plain(j)
  }

  function DumpNode(n: Node): Result<StepNode, string> {
    var fields := Encode(n.fields);
    if fields.None? then Failure(n.id) else Success(StepNode(n.id, n.kind, fields.value))
  }

  function LoadNode(n: StepNode): Node {
    Node(n.id, n.kind, Decode(n.fields))
  }

  function DumpCommand(c: Command): Result<StepCommand, string> {
    var argv := All(ToArg, c.argv);
    if argv.Failure? then Failure(argv.error)
        else Success(StepCommand(c.title, argv.value, OrNone(c.optional), c.timeout))
  }

  function LoadCommand(c: StepCommand): Command {
    Command(c.title, Map(FromArg, c.argv), Truth(c.optional), c.timeout)
  }

  function Map<T, U>(f: T -> U, s: seq<T>): seq<U> {
    seq(|s|, i requires 0 <= i < |s| => f(s[i]))
  }

  /** `to_step`: refused when a token or field is none of the run's. */
  function ToStep(op: Operation): Result<Step, string> {
    match op
    case Primitive(key, nodes, create, delete, _) =>
      var n := All(DumpNode, nodes);
      var c := All(DumpCommand, create);
      var d := All(DumpCommand, delete);
      if n.Failure? then Failure(n.error)
      else if c.Failure? then Failure(c.error)
      else if d.Failure? then Failure(d.error)
      else Success(PrimitiveStep(key, n.value, c.value, d.value))
    case WriteFile(path, content, mode) => Success(WriteFileStep(path, content, mode))
    case Capture(name, title, argv, optional, retries, restartUnit, resultKey) =>
      var a := All(ToArg, argv);
      if a.Failure? then Failure(a.error)
      else
        var again := if retries == 0 then None else Some(retries);
        Success(CaptureStep(name, title, a.value, OrNone(optional), again, restartUnit, resultKey))
    case SymlinkNetns(container, pid) =>
      var p := ToArg(pid);
      if p.Failure? then Failure(p.error) else Success(SymlinkNetnsStep(container, p.value))
    case Directory(_, path, owned) => Success(DirectoryStep(path, OrNone(owned)))
    case Chmod(_, path, bits) => Success(ChmodStep(path, bits))
    case RemovePath(_, path, recursive) => Success(RemovePathStep(path, OrNone(recursive)))
  }

  /** `to_operation`. */
  function ToOperation(step: Step, host: string): Operation {
    match step
    case PrimitiveStep(key, nodes, create, delete) =>
      Primitive(key, Map(LoadNode, nodes), Map(LoadCommand, create), Map(LoadCommand, delete), false)
    case WriteFileStep(path, content, mode) => WriteFile(path, content, mode)
    case CaptureStep(name, title, argv, optional, retries, restartUnit, resultKey) =>
      var again := if retries.Some? then retries.value else 0;
      Capture(name, title, Map(FromArg, argv), Truth(optional), again, restartUnit, resultKey)
    case SymlinkNetnsStep(container, pid) => SymlinkNetns(container, FromArg(pid))
    case DirectoryStep(path, owned) => Directory(host, path, Truth(owned))
    case ChmodStep(path, bits) => Chmod(host, path, bits)
    case RemovePathStep(path, recursive) => RemovePath(host, path, Truth(recursive))
  }

  // ---------------------------------------------------------------------
  // The round trip
  // ---------------------------------------------------------------------

  /** No object has a literal "$ref" key. */
  predicate NoLiteralRef(v: Value)
    decreases v
  {
    match v
    case List(items) => forall i | 0 <= i < |items| :: NoLiteralRef(items[i])
    case Dict(entries) => "$ref" !in entries && forall k | k in entries :: NoLiteralRef(entries[k])
    case RefValue(name, key) => NoLiteralRef(name) && NoLiteralRef(key)
    case _ => true
  }

  /** Fields survive exactly when they have no literal "$ref" key: such an object
      comes back as a reference. */
  lemma {:induction false} FieldsRoundTrip(v: Value)
    requires Encode(v).Some?
    ensures Decode(Encode(v).value) == v <==> NoLiteralRef(v)
    decreases v
  {
    match v
    case List(items) =>
      forall i | 0 <= i < |items| ensures Decode(Encode(items[i]).value) == items[i] <==> NoLiteralRef(items[i]) {
        FieldsRoundTrip(items[i]);
      }
      var back := Decode(Encode(v).value).items;
      assert forall i | 0 <= i < |items| :: back[i] == Decode(Encode(items[i]).value);
    case Dict(entries) =>
      forall k | k in entries ensures Decode(Encode(entries[k]).value) == entries[k] <==> NoLiteralRef(entries[k]) {
        FieldsRoundTrip(entries[k]);
      }
      if "$ref" !in entries {
        var back := Decode(Encode(v).value).entries;
        assert forall k | k in entries :: back[k] == Decode(Encode(entries[k]).value);
      }
    case RefValue(name, key) =>
      FieldsRoundTrip(name);
      FieldsRoundTrip(key);
    case _ =>
  }

  /** A literal "$ref" key that names no reference comes back as one. */
  lemma LiteralRefIsLost(v: Value)
    requires v == Dict(map["$ref" := Plain(Str("x"))])
    ensures Encode(v).Some? && Decode(Encode(v).value) == RefValue(Plain(Str("x")), Plain(Null)) != v
  {
    assert "$ref" in v.entries;
  }

  lemma {:induction false} AllGivesEach<T, U, E>(f: T -> Result<U, E>, s: seq<T>)
    ensures All(f, s).Success? <==> forall i | 0 <= i < |s| :: f(s[i]).Success?
    ensures All(f, s).Success? ==>
              |All(f, s).value| == |s| && forall i | 0 <= i < |s| :: f(s[i]) == Success(All(f, s).value[i])
  {
    if s != [] {
      AllGivesEach(f, s[1..]);
      if forall i | 0 <= i < |s| :: f(s[i]).Success? {
        assert forall i | 0 <= i < |s[1..]| :: f(s[1..][i]) == f(s[i + 1]);
      }
      if All(f, s[1..]).Failure? {
        var i :| 0 <= i < |s[1..]| && !f(s[1..][i]).Success?;
        assert !f(s[i + 1]).Success?;
      }
    }
  }

  lemma ArgvRoundTrip(argv: seq<Token>)
    requires All(ToArg, argv).Success?
    ensures Map(FromArg, All(ToArg, argv).value) == argv
  {
    AllGivesEach(ToArg, argv);
    forall i | 0 <= i < |argv| ensures FromArg(All(ToArg, argv).value[i]) == argv[i] {
      assert ToArg(argv[i]) == Success(All(ToArg, argv).value[i]);
    }
  }

  lemma CommandsRoundTrip(commands: seq<Command>)
    requires All(DumpCommand, commands).Success?
    ensures Map(LoadCommand, All(DumpCommand, commands).value) == commands
  {
    AllGivesEach(DumpCommand, commands);
    forall i | 0 <= i < |commands| ensures LoadCommand(DumpCommand(commands[i]).value) == commands[i] {
      ArgvRoundTrip(commands[i].argv);
    }
  }

  lemma NodesRoundTrip(nodes: seq<Node>)
    requires All(DumpNode, nodes).Success?
    ensures Map(LoadNode, All(DumpNode, nodes).value) == nodes <==> forall n | n in nodes :: NoLiteralRef(n.fields)
  {
    AllGivesEach(DumpNode, nodes);
    var back := Map(LoadNode, All(DumpNode, nodes).value);
    forall i | 0 <= i < |nodes| ensures back[i] == nodes[i] <==> NoLiteralRef(nodes[i].fields) {
      NodeRoundTrip(nodes[i]);
    }
  }

  lemma NodeRoundTrip(n: Node)
    requires DumpNode(n).Success?
    ensures LoadNode(DumpNode(n).value) == n <==> NoLiteralRef(n.fields)
  {
    FieldsRoundTrip(n.fields);
  }

  /** The operation on `host`, without its probe, which is not run. */
  function OnHost(op: Operation, host: string): Operation {
    match op
    case Primitive(_, _, _, _, _) => op.(probe := false)
    case Directory(_, path, owned) => Directory(host, path, owned)
    case Chmod(_, path, bits) => Chmod(host, path, bits)
    case RemovePath(_, path, recursive) => RemovePath(host, path, recursive)
    case _ => op
  }

  predicate CleanFields(op: Operation) {
    op.Primitive? ==> forall n | n in op.nodes :: NoLiteralRef(n.fields)
  }

  /** The round trip: the operation that comes back is the one that went in,
      for every kind, exactly when no node field has a literal "$ref" key. */
  lemma StepRoundTrip(op: Operation, host: string)
    requires ToStep(op).Success?
    ensures ToOperation(ToStep(op).value, host) == OnHost(op, host) <==> CleanFields(op)
  {
    match op
    case Primitive(_, nodes, create, delete, _) =>
      NodesRoundTrip(nodes);
      CommandsRoundTrip(create);
      CommandsRoundTrip(delete);
    case Capture(_, _, argv, _, _, _, _) => ArgvRoundTrip(argv);
    case _ =>
  }

  /** A command's title, time limit and flag, and its arguments one by one. */
  ghost predicate SameCommand(c: Command, s: StepCommand) {
    && s.title == c.title && s.timeout == c.timeout && s.optional == (if c.optional then Some(true) else None)
    && |s.argv| == |c.argv|
    && forall i | 0 <= i < |c.argv| ::
         match c.argv[i]
         case Text(text) => s.argv[i] == ArgText(text)
         case Ref(name, key) => s.argv[i] == ArgRef(name, key)
         case _ => false
  }

  ghost predicate SameCommands(commands: seq<Command>, steps: seq<StepCommand>) {
    |steps| == |commands| && forall i | 0 <= i < |commands| :: SameCommand(commands[i], steps[i])
  }

  /** A step says what its operation says, under the same names; what is false or
      zero is left out, and so is the host. */
  ghost predicate SaysTheSame(op: Operation, step: Step) {
    match op
    case Primitive(key, nodes, create, delete, _) =>
      && step.PrimitiveStep? && step.key == key
      && |step.nodes| == |nodes|
      && (forall i | 0 <= i < |nodes| :: step.nodes[i].id == nodes[i].id && step.nodes[i].kind == nodes[i].kind)
      && SameCommands(create, step.create) && SameCommands(delete, step.delete)
    case WriteFile(path, content, mode) =>
      step.WriteFileStep? && step.path == path && step.content == content && step.mode == mode
    case Capture(name, title, argv, optional, retries, restartUnit, resultKey) =>
      && step.CaptureStep? && step.name == name && step.title == title
      && SameCommand(Command("", argv, optional, None), StepCommand("", step.argv, step.optional, None))
      && step.retries == (if retries == 0 then None else Some(retries))
      && step.restartUnit == restartUnit && step.resultKey == resultKey
    case SymlinkNetns(container, pid) =>
      && step.SymlinkNetnsStep? && step.container == container
      && (pid.Text? ==> step.pid == ArgText(pid.text)) && (pid.Ref? ==> step.pid == ArgRef(pid.name, pid.key))
    case Directory(_, path, owned) =>
      step.DirectoryStep? && step.path == path && step.owned == if owned then Some(true) else None
    case Chmod(_, path, bits) => step.ChmodStep? && step.path == path && step.bits == bits
    case RemovePath(_, path, recursive) =>
      step.RemovePathStep? && step.path == path && step.recursive == if recursive then Some(true) else None
  }

  lemma CommandDumped(c: Command)
    requires DumpCommand(c).Success?
    ensures SameCommand(c, DumpCommand(c).value)
  {
    AllGivesEach(ToArg, c.argv);
    var argv := All(ToArg, c.argv).value;
    forall i | 0 <= i < |c.argv|
      ensures match c.argv[i]
              case Text(text) => argv[i] == ArgText(text)
              case Ref(name, key) => argv[i] == ArgRef(name, key)
              case _ => false
    {
      assert ToArg(c.argv[i]) == Success(argv[i]);
    }
  }

  lemma CommandsDumped(commands: seq<Command>)
    requires All(DumpCommand, commands).Success?
    ensures SameCommands(commands, All(DumpCommand, commands).value)
  {
    AllGivesEach(DumpCommand, commands);
    forall i | 0 <= i < |commands| ensures SameCommand(commands[i], All(DumpCommand, commands).value[i]) {
      CommandDumped(commands[i]);
    }
  }

  lemma StepSaysTheSame(op: Operation)
    requires ToStep(op).Success?
    ensures SaysTheSame(op, ToStep(op).value)
  {
    match op
    case Primitive(_, nodes, create, delete, _) =>
      AllGivesEach(DumpNode, nodes);
      CommandsDumped(create);
      CommandsDumped(delete);
    case Capture(_, _, argv, optional, _, _, _) => CommandDumped(Command("", argv, optional, None));
    case _ =>
  }

  // ---------------------------------------------------------------------
  // Resolving references
  // ---------------------------------------------------------------------

  type Store = map<string, Json>

  /** `_resolve` of one reference. */
  function Lookup(name: string, key: Option<string>, store: Store): Json {
    var result := if name in store then store[name] else Null;
    if key.None? then result
    else if result.Obj? && key.value in result.fields then result.fields[key.value]
    else Null
  }

  function ResolveToken(t: Token, store: Store): Token {
    if !t.Ref? then t
    else
      var j := Lookup(t.name, t.key, store);
      if j.Str? then Text(j.s) else Other(j)
  }

  function ResolveArg(a: Arg, store: Store): Arg {
    if a.ArgRef? && Lookup(a.name, a.key, store).Str? then ArgText(Lookup(a.name, a.key, store).s) else a
  }

  /** A value of the store as a field. */
  function Embed(j: Json): Value
    decreases j
  {
    match j
    case Arr(items) => List(seq(|items|, i requires 0 <= i < |items| => Embed(items[i])))
    case Obj(fields) => Dict(map k | k in fields :: Embed(fields[k]))
    case _ => Plain(j)
  }

  function KeyOf(key: Json): Option<string> {
    if key.Str? then Some(key.s) else None
  }

  function ResolveValue(v: Value, store: Store): Value
    decreases v
  {
    match v
    case List(items) => List(seq(|items|, i requires 0 <= i < |items| => ResolveValue(items[i], store)))
    case Dict(entries) => Dict(map k | k in entries :: ResolveValue(entries[k], store))
    case RefValue(name, key) =>
      if name.Plain? && name.json.Str? && key.Plain? then Embed(Lookup(name.json.s, KeyOf(key.json), store))
          else Plain(Null)
    case _ => v
  }

  /** The same on the serialized fields. */
  function ResolveJson(j: Json, store: Store): Json
    decreases j
  {
    match j
    case Arr(items) => Arr(seq(|items|, i requires 0 <= i < |items| => ResolveJson(items[i], store)))
    case Obj(fields) =>
      if "$ref" in fields then
        if fields["$ref"].Str?
            then Lookup(fields["$ref"].s, if "$key" in fields then KeyOf(fields["$key"]) else None, store) else Null
      else Obj(map k | k in fields :: ResolveJson(fields[k], store))
    case _ => j
  }

  function ResolveCommand(c: Command, store: Store): Command {
    c.(argv := Map(t => ResolveToken(t, store), c.argv))
  }

  function ResolveStepCommand(c: StepCommand, store: Store): StepCommand {
    c.(argv := Map(a => ResolveArg(a, store), c.argv))
  }

  function Resolve(op: Operation, store: Store): Operation {
    match op
    case Primitive(_, nodes, create, delete, _) =>
      op.(nodes := Map((n: Node) => n.(fields := ResolveValue(n.fields, store)), nodes),
          create := Map(c => ResolveCommand(c, store), create), delete := Map(c => ResolveCommand(c, store), delete))
    case Capture(_, _, argv, _, _, _, _) => op.(argv := Map(t => ResolveToken(t, store), argv))
    case SymlinkNetns(_, pid) => op.(pid := ResolveToken(pid, store))
    case _ => op
  }

  function ResolveStep(step: Step, store: Store): Step {
    match step
    case PrimitiveStep(_, nodes, create, delete) =>
      step.(nodes := Map((n: StepNode) => n.(fields := ResolveJson(n.fields, store)), nodes),
            create := Map(c => ResolveStepCommand(c, store), create),
                delete := Map(c => ResolveStepCommand(c, store), delete))
    case CaptureStep(_, _, argv, _, _, _, _) => step.(argv := Map(a => ResolveArg(a, store), argv))
    case SymlinkNetnsStep(_, pid) => step.(pid := ResolveArg(pid, store))
    case _ => step
  }

  /** What the references of a field are made of: a name, and a key or none. */
  predicate TypedRefs(v: Value)
    decreases v
  {
    match v
    case List(items) => forall i | 0 <= i < |items| :: TypedRefs(items[i])
    case Dict(entries) => forall k | k in entries :: TypedRefs(entries[k])
    case RefValue(name, key) =>
      name.Plain? && name.json.Str? && key.Plain? && (key.json.Null? || key.json.Str?)
    case _ => true
  }

  predicate TypedFields(op: Operation) {
    op.Primitive? ==> forall n | n in op.nodes :: TypedRefs(n.fields)
  }

  /** The store has a string for the reference. */
  predicate TokenKnown(t: Token, store: Store) {
    t.Ref? ==> Lookup(t.name, t.key, store).Str?
  }

  predicate ArgvKnown(argv: seq<Token>, store: Store) {
    forall t | t in argv :: TokenKnown(t, store)
  }

  /** It has one for every reference in an argument list. */
  predicate Known(op: Operation, store: Store) {
    match op
    case Primitive(_, _, create, delete, _) =>
      && (forall c | c in create :: ArgvKnown(c.argv, store))
      && (forall c | c in delete :: ArgvKnown(c.argv, store))
    case Capture(_, _, argv, _, _, _, _) => ArgvKnown(argv, store)
    case SymlinkNetns(_, pid) => TokenKnown(pid, store)
    case _ => true
  }

  lemma {:induction false} EncodeEmbedded(j: Json)
    ensures Encode(Embed(j)) == Some(j)
    decreases j
  {
    match j
    case Arr(items) =>
      forall i | 0 <= i < |items| ensures Encode(Embed(items[i])) == Some(items[i]) {
        EncodeEmbedded(items[i]);
      }
      assert Encode(Embed(j)).value.items == items;
    case Obj(fields) =>
      forall k | k in fields ensures Encode(Embed(fields[k])) == Some(fields[k]) {
        EncodeEmbedded(fields[k]);
      }
      assert Encode(Embed(j)).value.fields == fields;
    case _ =>
  }

  lemma {:induction false} FieldsResolve(v: Value, store: Store)
    requires Encode(v).Some? && NoLiteralRef(v) && TypedRefs(v)
    ensures Encode(ResolveValue(v, store)) == Some(ResolveJson(Encode(v).value, store))
    decreases v
  {
    match v
    case List(items) =>
      forall i | 0 <= i < |items|
        ensures Encode(ResolveValue(items[i], store)) == Some(ResolveJson(Encode(items[i]).value, store))
      {
        FieldsResolve(items[i], store);
      }
      ListResolves(v, store);
    case Dict(entries) =>
      forall k | k in entries
        ensures Encode(ResolveValue(entries[k], store)) == Some(ResolveJson(Encode(entries[k]).value, store))
      {
        FieldsResolve(entries[k], store);
      }
      DictResolves(v, store);
    case RefValue(name, key) => EncodeEmbedded(Lookup(name.json.s, KeyOf(key.json), store));
    case _ =>
  }

  lemma ListResolves(v: Value, store: Store)
    requires v.List? && Encode(v).Some?
    requires forall i | 0 <= i < |v.items| ::
               Encode(ResolveValue(v.items[i], store)) == Some(ResolveJson(Encode(v.items[i]).value, store))
    ensures Encode(ResolveValue(v, store)) == Some(ResolveJson(Encode(v).value, store))
  {
    var items' := ResolveValue(v, store).items;
    assert forall i | 0 <= i < |v.items| :: items'[i] == ResolveValue(v.items[i], store);
    assert Encode(ResolveValue(v, store)).value.items == ResolveJson(Encode(v).value, store).items;
  }

  lemma DictResolves(v: Value, store: Store)
    requires v.Dict? && Encode(v).Some? && "$ref" !in v.entries
    requires forall k | k in v.entries ::
               Encode(ResolveValue(v.entries[k], store)) == Some(ResolveJson(Encode(v.entries[k]).value, store))
    ensures Encode(ResolveValue(v, store)) == Some(ResolveJson(Encode(v).value, store))
  {
    var entries' := ResolveValue(v, store).entries;
    assert forall k | k in v.entries :: entries'[k] == ResolveValue(v.entries[k], store);
    assert Encode(ResolveValue(v, store)).value.fields == ResolveJson(Encode(v).value, store).fields;
  }

  lemma TokenResolves(t: Token, store: Store)
    requires ToArg(t).Success?
    ensures ToArg(ResolveToken(t, store)).Success? <==> TokenKnown(t, store)
    ensures TokenKnown(t, store) ==> ToArg(ResolveToken(t, store)) == Success(ResolveArg(ToArg(t).value, store))
  {
  }

  lemma ArgvResolves(argv: seq<Token>, store: Store)
    requires All(ToArg, argv).Success?
    ensures var r := All(ToArg, Map(t => ResolveToken(t, store), argv));
            && (r.Success? <==> ArgvKnown(argv, store))
            && (r.Success? ==> r.value == Map(a => ResolveArg(a, store), All(ToArg, argv).value))
  {
    var argv' := Map(t => ResolveToken(t, store), argv);
    AllGivesEach(ToArg, argv);
    AllGivesEach(ToArg, argv');
    forall i | 0 <= i < |argv|
      ensures ToArg(argv'[i]).Success? <==> TokenKnown(argv[i], store)
      ensures TokenKnown(argv[i], store) ==> ToArg(argv'[i]) == Success(ResolveArg(ToArg(argv[i]).value, store))
    {
      TokenResolves(argv[i], store);
    }
    if ArgvKnown(argv, store) {
      assert All(ToArg, argv').value == Map(a => ResolveArg(a, store), All(ToArg, argv).value);
    }
  }

  lemma CommandsResolve(commands: seq<Command>, store: Store)
    requires All(DumpCommand, commands).Success?
    ensures var r := All(DumpCommand, Map(c => ResolveCommand(c, store), commands));
            && (r.Success? <==> forall c | c in commands :: ArgvKnown(c.argv, store))
            && (r.Success? ==> r.value == Map(c => ResolveStepCommand(c, store), All(DumpCommand, commands).value))
  {
    var commands' := Map(c => ResolveCommand(c, store), commands);
    AllGivesEach(DumpCommand, commands);
    AllGivesEach(DumpCommand, commands');
    forall i | 0 <= i < |commands|
      ensures DumpCommand(commands'[i]).Success? <==> ArgvKnown(commands[i].argv, store)
      ensures DumpCommand(commands'[i]).Success? ==>
                DumpCommand(commands'[i]).value == ResolveStepCommand(DumpCommand(commands[i]).value, store)
    {
      ArgvResolves(commands[i].argv, store);
    }
    if forall c | c in commands :: ArgvKnown(c.argv, store) {
      assert All(DumpCommand, commands').value ==
          Map(c => ResolveStepCommand(c, store), All(DumpCommand, commands).value);
    }
  }

  lemma NodesResolve(nodes: seq<Node>, store: Store)
    requires All(DumpNode, nodes).Success?
    requires forall n | n in nodes :: TypedRefs(n.fields) && NoLiteralRef(n.fields)
    ensures All(DumpNode, Map((n: Node) => n.(fields := ResolveValue(n.fields, store)), nodes))
         == Success(Map((n: StepNode) => n.(fields := ResolveJson(n.fields, store)), All(DumpNode, nodes).value))
  {
    var nodes' := Map((n: Node) => n.(fields := ResolveValue(n.fields, store)), nodes);
    AllGivesEach(DumpNode, nodes);
    AllGivesEach(DumpNode, nodes');
    forall i | 0 <= i < |nodes|
      ensures var d := DumpNode(nodes[i]).value;
              DumpNode(nodes'[i]) == Success(d.(fields := ResolveJson(d.fields, store)))
    {
      FieldsResolve(nodes[i].fields, store);
    }
    assert All(DumpNode, nodes').value ==
        Map((n: StepNode) => n.(fields := ResolveJson(n.fields, store)), All(DumpNode, nodes).value);
  }

  /** Resolving commutes with serializing: what is resolved can be serialized
      exactly when the store has a string for every reference in an argument
      list, and then it is the step resolved. */
  lemma ResolvingCommutes(op: Operation, store: Store)
    requires ToStep(op).Success? && CleanFields(op) && TypedFields(op)
    ensures ToStep(Resolve(op, store)).Success? <==> Known(op, store)
    ensures Known(op, store) ==> ToStep(Resolve(op, store)) == Success(ResolveStep(ToStep(op).value, store))
  {
    match op
    case Primitive(_, nodes, create, delete, _) =>
      NodesResolve(nodes, store);
      CommandsResolve(create, store);
      CommandsResolve(delete, store);
    case Capture(_, _, argv, _, _, _, _) => ArgvResolves(argv, store);
    case SymlinkNetns(_, pid) => TokenResolves(pid, store);
    case _ =>
  }

  lemma ResolveOnHost(op: Operation, store: Store, host: string)
    ensures Resolve(OnHost(op, host), store) == OnHost(Resolve(op, store), host)
  {
  }

  /** Whatever the store has: what runs is the same whether references are filled
      in before the operation was serialized or after it was loaded. */
  lemma ResolveAfterLoading(op: Operation, store: Store, host: string)
    requires ToStep(op).Success? && CleanFields(op)
    ensures Resolve(ToOperation(ToStep(op).value, host), store) == OnHost(Resolve(op, store), host)
  {
    StepRoundTrip(op, host);
    ResolveOnHost(op, store, host);
  }

  /** Filled in in the step it is the same, too, exactly when no value that is
      filled into a field has a literal "$ref" key. */
  lemma ResolveAnywhere(op: Operation, store: Store, host: string)
    requires ToStep(op).Success? && CleanFields(op) && TypedFields(op) && Known(op, store)
    ensures ToOperation(ResolveStep(ToStep(op).value, store), host)
         == Resolve(ToOperation(ToStep(op).value, host), store)
         <==> CleanFields(Resolve(op, store))
  {
    ResolveAfterLoading(op, store, host);
    ResolvingCommutes(op, store);
    StepRoundTrip(Resolve(op, store), host);
  }
}
