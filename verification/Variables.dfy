/** What a plan's variables stand for when its steps run: the text last assigned
    to them, else the value last captured under their name (fabric/plan.py,
    deployer/lifecycle.py). */
module Variables {
  import opened Common
  import opened JsonValues
  import opened Steps
  import opened Plans

  // ---------------------------------------------------------------------
  // Capturing
  // ---------------------------------------------------------------------

  /** What the store holds under a capture's name once it was answered. */
  function Stored(resultKey: Option<string>, answer: Json): Json {
    if resultKey.Some? then Obj(map[resultKey.value := answer]) else answer
  }

  /** A capture's `create`. `answers` is what its attempts would print, empty
      where one fails. The first answer is stored; with none, an optional capture
      stores null and any other fails. Before each attempt but the first, the unit
      is restarted. */
  method RunCapture(op: Operation, answers: seq<string>, store: Store) returns (after: Option<Store>, restarts: nat)
    requires op.Capture? && |answers| == op.retries + 1
    ensures forall i | 0 <= i < |answers| && answers[i] != "" && (forall j | 0 <= j < i :: answers[j] == "") ::
              && after == Some(store[op.name := Stored(op.resultKey, Str(answers[i]))])
              && restarts == if op.restartUnit.Some? then i else 0
    ensures (forall i | 0 <= i < |answers| :: answers[i] == "") ==>
              && after == (if op.optional then Some(store[op.name := Null]) else None)
              && restarts == if op.restartUnit.Some? then op.retries else 0
  {
    restarts := 0;
    for attempt := 0 to |answers|
      invariant forall j | 0 <= j < attempt :: answers[j] == ""
      invariant restarts == if op.restartUnit.None? then 0 else if attempt <= op.retries then attempt else op.retries
    {
      if answers[attempt] != "" {
        var value := Str(answers[attempt]);
        after := Some(store[op.name := if op.resultKey.Some? then Obj(map[op.resultKey.value := value]) else value]);
        return;
      }
      if attempt < op.retries && op.restartUnit.Some? {
        restarts := restarts + 1;
      }
    }
    after := if op.optional then Some(store[op.name := Null]) else None;
  }

  /** What a reference finds once its capture was answered, and what it finds
      otherwise: nothing under a name that was not captured, under a key the
      capture did not publish, or under a key of a plain value. Other captures
      change nothing. */
  lemma LookupFinds(store: Store, name: string, key: Option<string>, answer: string)
    ensures ResolveToken(Ref(name, key), store[name := Stored(key, Str(answer))]) == Text(answer)
    ensures forall other, k | other != name ::
              Lookup(other, k, store[name := Stored(key, Str(answer))]) == Lookup(other, k, store)
    ensures forall k: string | key != Some(k) :: Lookup(name, Some(k), store[name := Stored(key, Str(answer))]) == Null
    ensures name !in store ==> forall k :: Lookup(name, k, store) == Null
  {
  }

  // ---------------------------------------------------------------------
  // What a variable stands for, by the declarations
  // ---------------------------------------------------------------------

  predicate Assigned(ds: seq<Declaration>, v: string) {
    exists i | 0 <= i < |ds| :: ds[i].Assign? && ds[i].variable == v
  }

  predicate AssignedAt(ds: seq<Declaration>, i: nat, v: string, text: string) {
    i < |ds| && ds[i] == Assign(v, text) && !Assigned(ds[i + 1..], v)
  }

  predicate LastAssigned(ds: seq<Declaration>, v: string, text: string) {
    exists i | 0 <= i < |ds| :: AssignedAt(ds, i, v, text)
  }

  predicate Captures(ds: seq<Declaration>, v: string) {
    exists i | 0 <= i < |ds| :: ds[i].CaptureInto? && ds[i].variable == v
  }

  predicate CapturedAt(ds: seq<Declaration>, i: nat, v: string, wait: bool) {
    i < |ds| && ds[i].CaptureInto? && ds[i].variable == v && ds[i].wait == wait && !Captures(ds[i + 1..], v)
  }

  predicate LastCaptured(ds: seq<Declaration>, v: string, wait: bool) {
    exists i | 0 <= i < |ds| :: CapturedAt(ds, i, v, wait)
  }

  /** `j` is what the declarations `ds` make of `v`, with what was captured. */
  predicate StandsFor(ds: seq<Declaration>, store: Store, v: string, j: Json) {
    if Assigned(ds, v) then j.Str? && LastAssigned(ds, v, j.s)
    else
      && v in store
      && (LastCaptured(ds, v, false) ==> store[v] == j)
      && (LastCaptured(ds, v, true) ==> store[v] == Obj(map["CHASSIS_ID" := j]))
  }

  /** Each variable of the declarations has its value in `env`. */
  ghost predicate Environment(ds: seq<Declaration>, store: Store, env: map<string, Json>) {
    forall v | Assigned(ds, v) || Captures(ds, v) :: v in env && StandsFor(ds, store, v, env[v])
  }

  /** An operation with the value of each variable in its place. */
  function Substituted(op: Operation, env: map<string, Json>): Operation {
    match op
    case Primitive(_, nodes, create, delete, _) =>
      op.(nodes := Map((n: Node) => n.(fields := FieldWith(n.fields, env)), nodes),
          create := Map((c: Command) => c.(argv := Map(t => TokenWith(t, env), c.argv)), create),
          delete := Map((c: Command) => c.(argv := Map(t => TokenWith(t, env), c.argv)), delete))
    case Capture(_, _, argv, _, _, _, _) => op.(argv := Map(t => TokenWith(t, env), argv))
    case SymlinkNetns(_, pid) => op.(pid := TokenWith(pid, env))
    case _ => op
  }

  function TokenWith(t: Token, env: map<string, Json>): Token {
    if t.Var? && t.variable in env
    then if env[t.variable].Str? then Text(env[t.variable].s) else Other(env[t.variable])
    else t
  }

  function FieldWith(v: Value, env: map<string, Json>): Value
    decreases v
  {
    match v
    case List(items) => List(seq(|items|, i requires 0 <= i < |items| => FieldWith(items[i], env)))
    case Dict(entries) => Dict(map k | k in entries :: FieldWith(entries[k], env))
    case VarValue(name) => if name in env then Embed(env[name]) else v
    case _ => v
  }

  // ---------------------------------------------------------------------
  // A plan's variables are those of its declarations
  // ---------------------------------------------------------------------

  lemma OneMoreIsLast(ds: seq<Declaration>, d: Declaration, v: string)
    ensures Assigned(ds + [d], v) <==> Assigned(ds, v) || (d.Assign? && d.variable == v)
    ensures Captures(ds + [d], v) <==> Captures(ds, v) || (d.CaptureInto? && d.variable == v)
  {
    var all := ds + [d];
    assert all[|ds|] == d;
    assert forall i | 0 <= i < |ds| :: all[i] == ds[i];
  }

  lemma LastAssignedMore(ds: seq<Declaration>, d: Declaration, v: string, text: string)
    requires !(d.Assign? && d.variable == v) && LastAssigned(ds, v, text)
    ensures LastAssigned(ds + [d], v, text)
  {
    var i :| 0 <= i < |ds| && AssignedAt(ds, i, v, text);
    OneMoreIsLast(ds[i + 1..], d, v);
    assert (ds + [d])[i + 1..] == ds[i + 1..] + [d] && (ds + [d])[i] == ds[i];
    assert AssignedAt(ds + [d], i, v, text);
  }

  lemma LastCapturedMore(ds: seq<Declaration>, d: Declaration, v: string, wait: bool)
    requires !(d.CaptureInto? && d.variable == v) && LastCaptured(ds, v, wait)
    ensures LastCaptured(ds + [d], v, wait)
  {
    var i :| 0 <= i < |ds| && CapturedAt(ds, i, v, wait);
    OneMoreIsLast(ds[i + 1..], d, v);
    assert (ds + [d])[i + 1..] == ds[i + 1..] + [d] && (ds + [d])[i] == ds[i];
    assert CapturedAt(ds + [d], i, v, wait);
  }

  lemma NewestIsLast(ds: seq<Declaration>, d: Declaration)
    ensures d.Assign? ==> LastAssigned(ds + [d], d.variable, d.text)
    ensures d.CaptureInto? ==> LastCaptured(ds + [d], d.variable, d.wait)
  {
    var all := ds + [d];
    assert all[|ds|] == d && all[|ds| + 1..] == [];
    assert d.Assign? ==> AssignedAt(all, |ds|, d.variable, d.text);
    assert d.CaptureInto? ==> CapturedAt(all, |ds|, d.variable, d.wait);
  }

  /** The names a plan has, and what for: its assignments and its captures. */
  ghost predicate NamesAre(p: Plan, ds: seq<Declaration>) {
    && (forall v :: v in p.values <==> Assigned(ds, v))
    && (forall v | v in p.values :: LastAssigned(ds, v, p.values[v]))
    && (forall v :: v in p.refs <==> Captures(ds, v))
    && (forall v | v in p.refs ::
          exists wait :: LastCaptured(ds, v, wait) && p.refs[v] == Ref(v, if wait then Some("CHASSIS_ID") else None))
  }

  lemma DeclareNames(p: Plan, d: Declaration)
    requires Declare(p, d).Success?
    ensures var q := Declare(p, d).value;
            && q.values == (if d.Assign? then p.values[d.variable := d.text] else p.values)
            && q.refs == if d.CaptureInto?
                         then p.refs[d.variable := Ref(d.variable, if d.wait then Some("CHASSIS_ID") else None)]
                             else p.refs
  {
  }

  lemma NamesOneMore(p: Plan, ds: seq<Declaration>, d: Declaration)
    requires NamesAre(p, ds) && Declare(p, d).Success?
    ensures NamesAre(Declare(p, d).value, ds + [d])
  {
    var q, all := Declare(p, d).value, ds + [d];
    DeclareNames(p, d);
    NewestIsLast(ds, d);
    forall v ensures v in q.values <==> Assigned(all, v) ensures v in q.refs <==> Captures(all, v) {
      OneMoreIsLast(ds, d, v);
    }
    forall v | v in q.values ensures LastAssigned(all, v, q.values[v]) {
      if !(d.Assign? && d.variable == v) {
        LastAssignedMore(ds, d, v, q.values[v]);
      }
    }
    forall v | v in q.refs
      ensures exists wait :: LastCaptured(all, v, wait)
                && q.refs[v] == Ref(v, if wait then Some("CHASSIS_ID") else None)
    {
      if !(d.CaptureInto? && d.variable == v) {
        var wait :| LastCaptured(ds, v, wait) && p.refs[v] == Ref(v, if wait then Some("CHASSIS_ID") else None);
        LastCapturedMore(ds, d, v, wait);
      }
    }
  }

  lemma {:induction false} PlanNames(scope: string, ds: seq<Declaration>)
    requires DeclareAll(Plan(scope, [], map[], map[]), ds).Success?
    ensures NamesAre(DeclareAll(Plan(scope, [], map[], map[]), ds).value, ds)
  {
    if ds != [] {
      var before, last := ds[..|ds| - 1], ds[|ds| - 1];
      PlanNames(scope, before);
      NamesOneMore(DeclareAll(Plan(scope, [], map[], map[]), before).value, before, last);
      assert before + [last] == ds;
    }
  }

  // ---------------------------------------------------------------------
  // Filling and resolving substitutes
  // ---------------------------------------------------------------------

  /** What the plan's variables resolve to. */
  ghost predicate Agrees(p: Plan, store: Store, env: map<string, Json>) {
    && (forall v | v in p.values :: v in env && env[v] == Str(p.values[v]))
    && (forall v | v in p.refs && v !in p.values ::
          v in env && p.refs[v].Ref? && Lookup(p.refs[v].name, p.refs[v].key, store) == env[v])
    && (forall v | v in p.refs :: p.refs[v].Ref?)
  }

  lemma EnvironmentAgrees(p: Plan, ds: seq<Declaration>, store: Store, env: map<string, Json>)
    requires NamesAre(p, ds) && Environment(ds, store, env)
    ensures Agrees(p, store, env)
  {
    forall v | v in p.values ensures v in env && env[v] == Str(p.values[v]) {
      AssignedIsIt(ds, store, v, env[v], p.values[v]);
    }
    forall v | v in p.refs && v !in p.values
      ensures v in env && p.refs[v].Ref? && Lookup(p.refs[v].name, p.refs[v].key, store) == env[v]
    {
      var wait :| LastCaptured(ds, v, wait) && p.refs[v] == Ref(v, if wait then Some("CHASSIS_ID") else None);
      CapturedIsIt(ds, store, v, env[v], wait);
    }
  }

  lemma AssignedIsIt(ds: seq<Declaration>, store: Store, v: string, j: Json, text: string)
    requires Assigned(ds, v) && StandsFor(ds, store, v, j) && LastAssigned(ds, v, text)
    ensures j == Str(text)
  {
    LastIsOne(ds, v, j.s, text);
  }

  lemma CapturedIsIt(ds: seq<Declaration>, store: Store, v: string, j: Json, wait: bool)
    requires !Assigned(ds, v) && StandsFor(ds, store, v, j) && LastCaptured(ds, v, wait)
    ensures Lookup(v, if wait then Some("CHASSIS_ID") else None, store) == j
  {
  }

  lemma LastIsOne(ds: seq<Declaration>, v: string, s: string, t: string)
    requires LastAssigned(ds, v, s) && LastAssigned(ds, v, t)
    ensures s == t
  {
    var i :| 0 <= i < |ds| && AssignedAt(ds, i, v, s);
    var j :| 0 <= j < |ds| && AssignedAt(ds, j, v, t);
    NoneAfter(ds, i, v);
    NoneAfter(ds, j, v);
  }

  lemma NoneAfter(ds: seq<Declaration>, i: nat, v: string)
    requires i < |ds| && !Assigned(ds[i + 1..], v)
    ensures forall j | i < j < |ds| :: !(ds[j].Assign? && ds[j].variable == v)
  {
    forall j | i < j < |ds| ensures !(ds[j].Assign? && ds[j].variable == v) {
      assert ds[i + 1..][j - i - 1] == ds[j];
    }
  }

  lemma TokenSubstituted(t: Token, p: Plan, store: Store, env: map<string, Json>)
    requires Agrees(p, store, env) && !t.Ref? && FillToken(t, p).Success?
    ensures ResolveToken(FillToken(t, p).value, store) == TokenWith(t, env)
  {
  }

  lemma ArgvSubstituted(argv: seq<Token>, p: Plan, store: Store, env: map<string, Json>)
    requires Agrees(p, store, env) && DeclaredArgv(argv) && All(t => FillToken(t, p), argv).Success?
    ensures Map(t => ResolveToken(t, store), All(t => FillToken(t, p), argv).value) == Map(t => TokenWith(t, env), argv)
  {
    var filled := All(t => FillToken(t, p), argv).value;
    AllGivesEach(t => FillToken(t, p), argv);
    forall i | 0 <= i < |argv| ensures ResolveToken(filled[i], store) == TokenWith(argv[i], env) {
      assert FillToken(argv[i], p) == Success(filled[i]) && argv[i] in argv;
      TokenSubstituted(argv[i], p, store, env);
    }
  }

  lemma CommandsSubstituted(commands: seq<Command>, p: Plan, store: Store, env: map<string, Json>)
    requires Agrees(p, store, env) && (forall c | c in commands :: DeclaredArgv(c.argv))
    requires All(c => FillCommand(c, p), commands).Success?
    ensures Map(c => ResolveCommand(c, store), All(c => FillCommand(c, p), commands).value)
         == Map((c: Command) => c.(argv := Map(t => TokenWith(t, env), c.argv)), commands)
  {
    var filled := All(c => FillCommand(c, p), commands).value;
    AllGivesEach(c => FillCommand(c, p), commands);
    forall i | 0 <= i < |commands|
      ensures ResolveCommand(filled[i], store)
           == commands[i].(argv := Map(t => TokenWith(t, env), commands[i].argv))
    {
      assert FillCommand(commands[i], p) == Success(filled[i]) && commands[i] in commands;
      ArgvSubstituted(commands[i].argv, p, store, env);
    }
  }

  lemma {:induction false} FieldSubstituted(v: Value, p: Plan, store: Store, env: map<string, Json>)
    requires Agrees(p, store, env) && DeclaredField(v) && FillValue(v, p).Some?
    ensures ResolveValue(FillValue(v, p).value, store) == FieldWith(v, env)
    decreases v
  {
    match v
    case List(items) =>
      forall i | 0 <= i < |items|
          ensures ResolveValue(FillValue(items[i], p).value, store) == FieldWith(items[i], env) {
        FieldSubstituted(items[i], p, store, env);
      }
      ListSubstituted(v, p, store, env);
    case Dict(entries) =>
      forall k | k in entries
          ensures ResolveValue(FillValue(entries[k], p).value, store) == FieldWith(entries[k], env) {
        FieldSubstituted(entries[k], p, store, env);
      }
      DictSubstituted(v, p, store, env);
    case _ =>
  }

  lemma ListSubstituted(v: Value, p: Plan, store: Store, env: map<string, Json>)
    requires v.List? && FillValue(v, p).Some?
    requires forall i | 0 <= i < |v.items| ::
               ResolveValue(FillValue(v.items[i], p).value, store) == FieldWith(v.items[i], env)
    ensures ResolveValue(FillValue(v, p).value, store) == FieldWith(v, env)
  {
    var filled := FillValue(v, p).value;
    assert forall i | 0 <= i < |v.items| :: filled.items[i] == FillValue(v.items[i], p).value;
    assert ResolveValue(filled, store).items == FieldWith(v, env).items;
  }

  lemma DictSubstituted(v: Value, p: Plan, store: Store, env: map<string, Json>)
    requires v.Dict? && FillValue(v, p).Some?
    requires forall k | k in v.entries ::
               ResolveValue(FillValue(v.entries[k], p).value, store) == FieldWith(v.entries[k], env)
    ensures ResolveValue(FillValue(v, p).value, store) == FieldWith(v, env)
  {
    var filled := FillValue(v, p).value;
    assert forall k | k in v.entries :: filled.entries[k] == FillValue(v.entries[k], p).value;
    assert ResolveValue(filled, store).entries == FieldWith(v, env).entries;
  }

  lemma NodesSubstituted(nodes: seq<Node>, p: Plan, store: Store, env: map<string, Json>)
    requires Agrees(p, store, env) && (forall n | n in nodes :: DeclaredField(n.fields))
    requires All(n => FillNode(n, p), nodes).Success?
    ensures Map((n: Node) => n.(fields := ResolveValue(n.fields, store)), All(n => FillNode(n, p), nodes).value)
         == Map((n: Node) => n.(fields := FieldWith(n.fields, env)), nodes)
  {
    var filled := All(n => FillNode(n, p), nodes).value;
    AllGivesEach(n => FillNode(n, p), nodes);
    forall i | 0 <= i < |nodes|
      ensures filled[i].(fields := ResolveValue(filled[i].fields, store))
           == nodes[i].(fields := FieldWith(nodes[i].fields, env))
    {
      assert FillNode(nodes[i], p) == Success(filled[i]) && nodes[i] in nodes;
      FieldSubstituted(nodes[i].fields, p, store, env);
    }
  }

  lemma OpSubstituted(op: Operation, p: Plan, store: Store, env: map<string, Json>)
    requires Agrees(p, store, env) && DeclaredOp(op) && Fill(op, p).Success?
    ensures Resolve(Fill(op, p).value, store) == Substituted(op, env)
  {
    match op
    case Primitive(_, nodes, create, delete, _) =>
      NodesSubstituted(nodes, p, store, env);
      CommandsSubstituted(create, p, store, env);
      CommandsSubstituted(delete, p, store, env);
    case Capture(_, _, argv, _, _, _, _) => ArgvSubstituted(argv, p, store, env);
    case _ =>
  }

  /** A variable means its value: filled in when declared and resolved when run,
      an operation is the declared one with, for each variable, the text last
      assigned to it, else the value last captured under its name. */
  lemma VariablesMeanTheirValues(scope: string, ds: seq<Declaration>, op: Operation, store: Store,
      env: map<string, Json>)
    requires DeclareAll(Plan(scope, [], map[], map[]), ds).Success? && Environment(ds, store, env) && DeclaredOp(op)
    requires Fill(op, DeclareAll(Plan(scope, [], map[], map[]), ds).value).Success?
    ensures Resolve(Fill(op, DeclareAll(Plan(scope, [], map[], map[]), ds).value).value, store) == Substituted(op, env)
  {
    var p := DeclareAll(Plan(scope, [], map[], map[]), ds).value;
    PlanNames(scope, ds);
    EnvironmentAgrees(p, ds, store, env);
    OpSubstituted(op, p, store, env);
  }

  // ---------------------------------------------------------------------
  // Refused exactly where a variable has no value yet
  // ---------------------------------------------------------------------

  predicate ArgvMentions(argv: seq<Token>, v: string) {
    Var(v) in argv
  }

  predicate FieldMentions(f: Value, v: string)
    decreases f
  {
    match f
    case List(items) => exists i | 0 <= i < |items| :: FieldMentions(items[i], v)
    case Dict(entries) => exists k | k in entries :: FieldMentions(entries[k], v)
    case VarValue(name) => name == v
    case _ => false
  }

  predicate Mentions(op: Operation, v: string) {
    match op
    case Primitive(_, nodes, create, delete, _) =>
      || (exists n | n in nodes :: FieldMentions(n.fields, v))
      || (exists c | c in create + delete :: ArgvMentions(c.argv, v))
    case Capture(_, _, argv, _, _, _, _) => ArgvMentions(argv, v)
    case SymlinkNetns(_, pid) => pid == Var(v)
    case _ => false
  }

  ghost predicate Unset(p: Plan, v: string) {
    v !in p.values && v !in p.refs
  }

  lemma ArgvFillsIff(argv: seq<Token>, p: Plan)
    ensures All(t => FillToken(t, p), argv).Success? <==> forall v | ArgvMentions(argv, v) :: !Unset(p, v)
  {
    AllGivesEach(t => FillToken(t, p), argv);
    forall i | 0 <= i < |argv|
      ensures FillToken(argv[i], p).Success? <==> (argv[i].Var? ==> !Unset(p, argv[i].variable))
    {
    }
    if forall v | ArgvMentions(argv, v) :: !Unset(p, v) {
      forall i | 0 <= i < |argv| ensures FillToken(argv[i], p).Success? {
        assert argv[i].Var? ==> ArgvMentions(argv, argv[i].variable);
      }
    }
  }

  lemma CommandsFillIff(commands: seq<Command>, p: Plan)
    ensures All(c => FillCommand(c, p), commands).Success?
       <==> forall v, c | c in commands && ArgvMentions(c.argv, v) :: !Unset(p, v)
  {
    AllGivesEach(c => FillCommand(c, p), commands);
    forall i | 0 <= i < |commands|
      ensures FillCommand(commands[i], p).Success?
         <==> forall v | ArgvMentions(commands[i].argv, v) :: !Unset(p, v)
    {
      ArgvFillsIff(commands[i].argv, p);
    }
  }

  lemma {:induction false} FieldFillsIff(f: Value, p: Plan)
    requires DeclaredField(f)
    ensures FillValue(f, p).Some? <==> forall v | FieldMentions(f, v) :: !Unset(p, v)
    decreases f
  {
    match f
    case List(items) =>
      forall i | 0 <= i < |items|
        ensures FillValue(items[i], p).Some? <==> forall v | FieldMentions(items[i], v) :: !Unset(p, v)
      {
        FieldFillsIff(items[i], p);
      }
    case Dict(entries) =>
      forall k | k in entries
        ensures FillValue(entries[k], p).Some? <==> forall v | FieldMentions(entries[k], v) :: !Unset(p, v)
      {
        FieldFillsIff(entries[k], p);
      }
    case VarValue(name) =>
      assert FieldMentions(f, name);
    case _ =>
  }

  lemma NodesFillIff(nodes: seq<Node>, p: Plan)
    requires forall n | n in nodes :: DeclaredField(n.fields)
    ensures All(n => FillNode(n, p), nodes).Success?
       <==> forall v, n | n in nodes && FieldMentions(n.fields, v) :: !Unset(p, v)
  {
    AllGivesEach(n => FillNode(n, p), nodes);
    forall i | 0 <= i < |nodes|
      ensures FillNode(nodes[i], p).Success? <==> forall v | FieldMentions(nodes[i].fields, v) :: !Unset(p, v)
    {
      assert nodes[i] in nodes;
      FieldFillsIff(nodes[i].fields, p);
    }
  }

  lemma PrimitiveFillsIff(op: Operation, p: Plan)
    requires op.Primitive? && DeclaredOp(op)
    ensures Fill(op, p).Success? <==> forall v | Mentions(op, v) :: !Unset(p, v)
  {
    NodesFillIff(op.nodes, p);
    CommandsFillIff(op.create, p);
    CommandsFillIff(op.delete, p);
    forall v ensures Mentions(op, v) <==>
        || (exists n | n in op.nodes :: FieldMentions(n.fields, v))
        || (exists c | c in op.create :: ArgvMentions(c.argv, v))
        || (exists c | c in op.delete :: ArgvMentions(c.argv, v))
    {
    }
  }

  /** An operation is refused for its variables exactly when it mentions one that
      no declaration before it assigned or captured. */
  lemma FillsIff(scope: string, ds: seq<Declaration>, op: Operation)
    requires DeclareAll(Plan(scope, [], map[], map[]), ds).Success? && DeclaredOp(op)
    ensures Fill(op, DeclareAll(Plan(scope, [], map[], map[]), ds).value).Success?
       <==> forall v | Mentions(op, v) :: Assigned(ds, v) || Captures(ds, v)
  {
    var p := DeclareAll(Plan(scope, [], map[], map[]), ds).value;
    PlanNames(scope, ds);
    match op
    case Primitive(_, nodes, create, delete, _) => PrimitiveFillsIff(op, p);
    case Capture(_, _, argv, _, _, _, _) => ArgvFillsIff(argv, p);
    case SymlinkNetns(_, pid) => assert pid.Var? ==> Mentions(op, pid.variable);
    case _ =>
  }

  // ---------------------------------------------------------------------
  // What a declaration adds
  // ---------------------------------------------------------------------

  /** A capture's step: plain, or one that is retried thirty times while the
      controller is restarted and publishes under its key. */
  lemma CaptureIs(p: Plan, unit: Option<nat>, v: string, argv: seq<Token>, wait: bool)
    requires Declare(p, CaptureInto(unit, v, argv, wait)).Success?
    ensures |Added(p, CaptureInto(unit, v, argv, wait))| == 1
    ensures var step := Added(p, CaptureInto(unit, v, argv, wait))[0];
            step == if wait
                    then CaptureStep(v, p.scope, step.argv, None, Some(30), Some("ovn-controller"), Some("CHASSIS_ID"))
                    else CaptureStep(v, p.scope, step.argv, None, None, None, None)
  {
  }

  /** A container's link: the name written or last assigned, and the process id
      that was last captured, even where its variable was assigned, too. */
  lemma LinkIs(p: Plan, unit: Option<nat>, container: Expr, v: string)
    requires Declare(p, LinkNetns(unit, container, v)).Success? && v in p.refs && p.refs[v].Ref?
    ensures Added(p, LinkNetns(unit, container, v))
         == [SymlinkNetnsStep(if container.Literal? then container.text else p.values[container.name],
                              ArgRef(p.refs[v].name, p.refs[v].key))]
  {
  }

  /** An empty unit follows with the name, kind and key it was opened with. */
  lemma OpenIs(p: Plan, name: string, kind: string, key: Option<string>)
    ensures Declare(p, Open(name, kind, key)).Success?
    ensures Declare(p, Open(name, kind, key)).value.units == p.units + [Unit(name, kind, key, p.scope, [])]
  {
  }

  predicate Opens(ds: seq<Declaration>) {
    exists d | d in ds :: d.Open?
  }

  /** The units are cut where they are opened: after an `Open`, the steps declared
      up to the next go to its unit, and the units before it stay as they are. */
  lemma {:induction false} UnitHoldsItsSteps(p: Plan, name: string, kind: string, key: Option<string>,
      ds: seq<Declaration>)
    requires !Opens(ds) && DeclareAll(Declare(p, Open(name, kind, key)).value, ds).Success?
    ensures var cut := Declare(p, Open(name, kind, key)).value;
            DeclareAll(cut, ds).value.units == p.units + [Unit(name, kind, key, p.scope, AddedBy(cut, ds))]
  {
    if ds != [] {
      var cut := Declare(p, Open(name, kind, key)).value;
      var before, last := ds[..|ds| - 1], ds[|ds| - 1];
      assert forall d | d in before :: d in ds;
      assert last in ds;
      UnitHoldsItsSteps(p, name, kind, key, before);
      DeclareGrowsNewest(DeclareAll(cut, before).value, last);
    }
  }

  lemma DeclareGrowsNewest(p: Plan, d: Declaration)
    requires Declare(p, d).Success? && !d.Open? && p.units != []
    ensures var n := |p.units| - 1;
            Declare(p, d).value.units == p.units[n := p.units[n].(steps := p.units[n].steps + Added(p, d))]
  {
    var (q, what) := Declared(p, d).value;
    if what.None? {
      assert p.units[|p.units| - 1].steps + Added(p, d) == p.units[|p.units| - 1].steps;
    }
  }

  lemma {:induction false} DeclareAllAppends(p: Plan, ds: seq<Declaration>, more: seq<Declaration>)
    ensures DeclareAll(p, ds + more)
         == if DeclareAll(p, ds).Success? then DeclareAll(DeclareAll(p, ds).value, more) else DeclareAll(p, ds)
  {
    if more == [] {
      assert ds + more == ds;
    } else {
      var before := more[..|more| - 1];
      DeclareAllAppends(p, ds, before);
      assert (ds + more)[..|ds + more| - 1] == ds + before;
    }
  }
}
