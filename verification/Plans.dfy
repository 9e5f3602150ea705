/** A scope's declarations cut into units of work (fabric/plan.py). */
module Plans {
  import opened Common
  import opened JsonValues
  import opened Steps

  datatype Unit = Unit(name: string, kind: string, key: Option<string>, scope: string, steps: seq<Step>)

  /** What a scope's emitter and its units share. */
  datatype Plan = Plan(scope: string, units: seq<Unit>, values: map<string, string>, refs: map<string, Token>)

  datatype PlanError =
    | OutsideUnit(step: Step)
    | OlderUnit(unit: string, step: Step)
    | Unknown(variable: string)
    | NotAStep(what: string)

  /** A code expression of a declaration: a literal, or a name. */
  datatype Expr = Literal(text: string) | Name(name: string)

  datatype Declaration =
    | Open(name: string, kind: string, key: Option<string>)
    | Do(unit: Option<nat>, op: Operation)
    | CaptureInto(unit: Option<nat>, variable: string, argv: seq<Token>, wait: bool)
    | LinkNetns(unit: Option<nat>, container: Expr, pidVariable: string)
    | Assign(variable: string, text: string)

  // ---------------------------------------------------------------------
  // Variables
  // ---------------------------------------------------------------------

  /** A name set by an assignment, else the reference of a capture. */
  function FillToken(t: Token, p: Plan): Result<Token, PlanError> {
    if !t.Var? then Success(t)
    else if t.variable in p.values then Success(Text(p.values[t.variable]))
    else if t.variable in p.refs then Success(p.refs[t.variable])
    else Failure(Unknown(t.variable))
  }

  function RefAsValue(t: Token): Value {
    match t
    case Text(s) => Plain(Str(s))
    case Ref(name, key) => RefValue(Plain(Str(name)), Plain(if key.Some? then Str(key.value) else Null))
    case Var(v) => VarValue(v)
    case Other(j) => Plain(j)
  }

  /** None where a variable is unknown. */
  function FillValue(v: Value, p: Plan): Option<Value>
    decreases v
  {
    match v
    case List(items) =>
      if forall i | 0 <= i < |items| :: FillValue(items[i], p).Some?
      then Some(List(seq(|items|, i requires 0 <= i < |items| && FillValue(items[i], p).Some? =>
          FillValue(items[i], p).value)))
      else None
    case Dict(entries) =>
      if forall k | k in entries :: FillValue(entries[k], p).Some?
      then Some(Dict(map k | k in entries :: FillValue(entries[k], p).value))
      else None
    case RefValue(name, key) =>
      if FillValue(name, p).Some? && FillValue(key, p).Some?
          then Some(RefValue(FillValue(name, p).value, FillValue(key, p).value)) else None
    case VarValue(name) =>
      var t := FillToken(Var(name), p);
      if t.Success? then Some(RefAsValue(t.value)) else None
    case Plain(_) => Some(v)
  }

  function FillNode(n: Node, p: Plan): Result<Node, PlanError> {
    var fields := FillValue(n.fields, p);
    if fields.Some? then Success(n.(fields := fields.value)) else Failure(Unknown(n.id))
  }

  function FillCommand(c: Command, p: Plan): Result<Command, PlanError> {
    var argv := All(t => FillToken(t, p), c.argv);
    if argv.Success? then Success(c.(argv := argv.value)) else Failure(argv.error)
  }

  /** `_resolve` of the emitter. */
  function Fill(op: Operation, p: Plan): Result<Operation, PlanError> {
    match op
    case Primitive(key, nodes, create, delete, probe) =>
      var n := All(n => FillNode(n, p), nodes);
      var c := All(c => FillCommand(c, p), create);
      var d := All(c => FillCommand(c, p), delete);
      if n.Failure? then Failure(n.error)
      else if c.Failure? then Failure(c.error)
      else if d.Failure? then Failure(d.error)
      else Success(Primitive(key, n.value, c.value, d.value, probe))
    case Capture(_, _, argv, _, _, _, _) =>
      var a := All(t => FillToken(t, p), argv);
      if a.Failure? then Failure(a.error) else Success(op.(argv := a.value))
    case SymlinkNetns(container, pid) =>
      var t := FillToken(pid, p);
      if t.Failure? then Failure(t.error) else Success(SymlinkNetns(container, t.value))
    case _ => Success(op)
  }

  // ---------------------------------------------------------------------
  // Declaring
  // ---------------------------------------------------------------------

  /** The step of an operation under the variables of a plan. */
  function StepOf(p: Plan, op: Operation): Result<Step, PlanError> {
    var filled := Fill(op, p);
    if filled.Failure? then Failure(filled.error)
    else
      var step := ToStep(filled.value);
      if step.Failure? then Failure(NotAStep(step.error)) else Success(step.value)
  }

  /** `_add`: only the newest unit takes operations. */
  function AddTo(p: Plan, unit: Option<nat>, op: Operation): Result<Plan, PlanError> {
    var step := StepOf(p, op);
    if step.Failure? then Failure(step.error)
    else if unit.None? || unit.value >= |p.units| then Failure(OutsideUnit(step.value))
    else if unit.value != |p.units| - 1 then Failure(OlderUnit(p.units[unit.value].name, step.value))
    else
      var newest := p.units[unit.value];
      Success(p.(units := p.units[unit.value := newest.(steps := newest.steps + [step.value])]))
  }

  function CaptureRef(variable: string, wait: bool): Token {
    Ref(variable, if wait then Some("CHASSIS_ID") else None)
  }

  function CaptureOf(p: Plan, variable: string, argv: seq<Token>, wait: bool): Operation {
    if wait then Capture(variable, p.scope, argv, false, 30, Some("ovn-controller"), Some("CHASSIS_ID"))
    else Capture(variable, p.scope, argv, false, 0, None, None)
  }

  function ValueOf(p: Plan, e: Expr): Result<string, PlanError> {
    match e
    case Literal(text) => Success(text)
    case Name(name) => if name in p.values then Success(p.values[name]) else Failure(Unknown(name))
  }

  /** The operation a declaration adds, and the plan it adds it to: a capture
      names its variable before it is added. */
  function Declared(p: Plan, d: Declaration): Result<(Plan, Option<(Option<nat>, Operation)>), PlanError> {
    match d
    case Open(name, kind, key) => Success((p.(units := p.units + [Unit(name, kind, key, p.scope, [])]), None))
    case Do(unit, op) => Success((p, Some((unit, op))))
    case CaptureInto(unit, v, argv, wait) =>
      Success((p.(refs := p.refs[v := CaptureRef(v, wait)]), Some((unit, CaptureOf(p, v, argv, wait)))))
    case LinkNetns(unit, container, v) =>
      var c := ValueOf(p, container);
      if c.Failure? then Failure(c.error)
      else if v !in p.refs then Failure(Unknown(v))
      else Success((p, Some((unit, SymlinkNetns(c.value, p.refs[v])))))
    case Assign(v, text) => Success((p.(values := p.values[v := text]), None))
  }

  function Declare(p: Plan, d: Declaration): Result<Plan, PlanError> {
    var what := Declared(p, d);
    if what.Failure? then Failure(what.error)
    else if what.value.1.None? then Success(what.value.0)
    else AddTo(what.value.0, what.value.1.value.0, what.value.1.value.1)
  }

  /** The step a declaration adds. */
  function Added(p: Plan, d: Declaration): seq<Step> {
    var what := Declared(p, d);
    if what.Failure? || what.value.1.None? then []
    else
      var step := StepOf(what.value.0, what.value.1.value.1);
      if step.Success? then [step.value] else []
  }

  function DeclareAll(p: Plan, ds: seq<Declaration>): Result<Plan, PlanError> {
    if ds == [] then Success(p)
    else
      var before := DeclareAll(p, ds[..|ds| - 1]);
      if before.Failure? then before else Declare(before.value, ds[|ds| - 1])
  }

  /** The steps of an accepted sequence of declarations, in declaration order. */
  function AddedBy(p: Plan, ds: seq<Declaration>): seq<Step> {
    if ds == [] then []
    else
      var before := DeclareAll(p, ds[..|ds| - 1]);
      AddedBy(p, ds[..|ds| - 1]) + if before.Success? then Added(before.value, ds[|ds| - 1]) else []
  }

  function StepsOf(units: seq<Unit>): seq<Step> {
    if units == [] then [] else StepsOf(units[..|units| - 1]) + units[|units| - 1].steps
  }

  /** An operation that can be serialized is taken by the newest unit alone; the
      scope itself refuses it, an older unit refuses it under its own name. */
  lemma TakenByNewest(p: Plan, unit: Option<nat>, op: Operation)
    requires StepOf(p, op).Success? && (unit.Some? ==> unit.value < |p.units|)
    ensures AddTo(p, unit, op).Success? <==> unit.Some? && unit.value + 1 == |p.units|
    ensures unit.None? ==> AddTo(p, unit, op) == Failure(OutsideUnit(StepOf(p, op).value))
    ensures AddTo(p, unit, op).Failure? && unit.Some? ==>
              AddTo(p, unit, op) == Failure(OlderUnit(p.units[unit.value].name, StepOf(p, op).value))
  {
  }

  lemma AddToAddsLast(p: Plan, unit: Option<nat>, op: Operation)
    requires AddTo(p, unit, op).Success?
    ensures StepOf(p, op).Success?
            && StepsOf(AddTo(p, unit, op).value.units) == StepsOf(p.units) + [StepOf(p, op).value]
  {
    var units, units' := p.units, AddTo(p, unit, op).value.units;
    var n := |units| - 1;
    assert units'[..n] == units[..n] && units'[n].steps == units[n].steps + [StepOf(p, op).value];
    assert StepsOf(units[..n]) + (units[n].steps + [StepOf(p, op).value]) == StepsOf(units) + [StepOf(p, op).value];
  }

  lemma DeclareAddsLast(p: Plan, d: Declaration)
    requires Declare(p, d).Success?
    ensures StepsOf(Declare(p, d).value.units) == StepsOf(p.units) + Added(p, d)
  {
    var (q, what) := Declared(p, d).value;
    if what.Some? {
      AddToAddsLast(q, what.value.0, what.value.1);
    } else if d.Open? {
      assert q.units[..|q.units| - 1] == p.units;
    }
  }

  /** Cutting keeps the declarations: the units' steps, one unit after the
      other, are the declared operations in order. */
  lemma {:induction false} CuttingKeepsOrder(p: Plan, ds: seq<Declaration>)
    requires DeclareAll(p, ds).Success?
    ensures StepsOf(DeclareAll(p, ds).value.units) == StepsOf(p.units) + AddedBy(p, ds)
  {
    if ds != [] {
      CuttingKeepsOrder(p, ds[..|ds| - 1]);
      DeclareAddsLast(DeclareAll(p, ds[..|ds| - 1]).value, ds[|ds| - 1]);
    }
  }

  // ---------------------------------------------------------------------
  // References point back
  // ---------------------------------------------------------------------

  predicate ArgvNames(argv: seq<Arg>, name: string) {
    exists a | a in argv :: a.ArgRef? && a.name == name
  }

  predicate CommandsName(commands: seq<StepCommand>, name: string) {
    exists c | c in commands :: ArgvNames(c.argv, name)
  }

  /** Some reference in serialized fields is to `name`. */
  predicate JsonNames(j: Json, name: string)
    decreases j
  {
    match j
    case Arr(items) => exists i | 0 <= i < |items| :: JsonNames(items[i], name)
    case Obj(fields) =>
      if "$ref" in fields then fields["$ref"] == Str(name) else exists k | k in fields :: JsonNames(fields[k], name)
    case _ => false
  }

  /** Some reference of the step is to `name`. */
  predicate StepNames(step: Step, name: string) {
    match step
    case PrimitiveStep(_, nodes, create, delete) =>
      (exists n | n in nodes :: JsonNames(n.fields, name)) || CommandsName(create, name) || CommandsName(delete, name)
    case CaptureStep(_, _, argv, _, _, _, _) => ArgvNames(argv, name)
    case SymlinkNetnsStep(_, pid) => pid.ArgRef? && pid.name == name
    case _ => false
  }

  /** A field as a declaration writes it: variables, but no reference of its
      own and no key that would read as one. */
  predicate DeclaredField(v: Value)
    decreases v
  {
    match v
    case List(items) => forall i | 0 <= i < |items| :: DeclaredField(items[i])
    case Dict(entries) => "$ref" !in entries && forall k | k in entries :: DeclaredField(entries[k])
    case RefValue(_, _) => false
    case _ => true
  }

  predicate DeclaredArgv(argv: seq<Token>) {
    forall t | t in argv :: !t.Ref?
  }

  /** An operation as a declaration writes it. */
  predicate DeclaredOp(op: Operation) {
    match op
    case Primitive(_, nodes, create, delete, _) =>
      && (forall n | n in nodes :: DeclaredField(n.fields))
      && (forall c | c in create + delete :: DeclaredArgv(c.argv))
    case Capture(_, _, argv, _, _, _, _) => DeclaredArgv(argv)
    case SymlinkNetns(_, pid) => !pid.Ref?
    case _ => true
  }

  predicate WrittenSo(d: Declaration) {
    (d.Do? ==> DeclaredOp(d.op)) && (d.CaptureInto? ==> DeclaredArgv(d.argv))
  }

  /** The variables of a plan that stand for references stand for captures of
      their own name. */
  ghost predicate RefsNameThemselves(p: Plan) {
    forall v | v in p.refs :: p.refs[v].Ref? && p.refs[v].name == v
  }

  lemma {:induction false} FieldNames(v: Value, p: Plan, name: string)
    requires RefsNameThemselves(p) && DeclaredField(v) && FillValue(v, p).Some? && Encode(FillValue(v, p).value).Some?
    requires JsonNames(Encode(FillValue(v, p).value).value, name)
    ensures name in p.refs
    decreases v
  {
    match v
    case List(items) =>
      var j := Encode(FillValue(v, p).value).value;
      var i :| 0 <= i < |j.items| && JsonNames(j.items[i], name);
      FieldNames(items[i], p, name);
    case Dict(entries) =>
      var j := Encode(FillValue(v, p).value).value;
      var k :| k in j.fields && JsonNames(j.fields[k], name);
      FieldNames(entries[k], p, name);
    case _ =>
  }

  lemma ArgvNamesRefs(argv: seq<Token>, p: Plan, name: string)
    requires RefsNameThemselves(p) && DeclaredArgv(argv) && All(t => FillToken(t, p), argv).Success?
    requires All(ToArg, All(t => FillToken(t, p), argv).value).Success?
    requires ArgvNames(All(ToArg, All(t => FillToken(t, p), argv).value).value, name)
    ensures name in p.refs
  {
    var filled := All(t => FillToken(t, p), argv).value;
    AllGivesEach(t => FillToken(t, p), argv);
    AllGivesEach(ToArg, filled);
    var args := All(ToArg, filled).value;
    var i :| 0 <= i < |args| && args[i].ArgRef? && args[i].name == name;
    assert ToArg(filled[i]) == Success(args[i]);
    assert FillToken(argv[i], p) == Success(filled[i]);
    assert argv[i] in argv;
  }

  lemma CommandsNameRefs(commands: seq<Command>, p: Plan, name: string)
    requires RefsNameThemselves(p) && (forall c | c in commands :: DeclaredArgv(c.argv))
    requires All(c => FillCommand(c, p), commands).Success?
    requires All(DumpCommand, All(c => FillCommand(c, p), commands).value).Success?
    requires CommandsName(All(DumpCommand, All(c => FillCommand(c, p), commands).value).value, name)
    ensures name in p.refs
  {
    var filled := All(c => FillCommand(c, p), commands).value;
    AllGivesEach(c => FillCommand(c, p), commands);
    AllGivesEach(DumpCommand, filled);
    var dumped := All(DumpCommand, filled).value;
    var i :| 0 <= i < |dumped| && ArgvNames(dumped[i].argv, name);
    assert DumpCommand(filled[i]) == Success(dumped[i]) && FillCommand(commands[i], p) == Success(filled[i]);
    assert commands[i] in commands;
    ArgvNamesRefs(commands[i].argv, p, name);
  }

  lemma NodesNameRefs(nodes: seq<Node>, p: Plan, name: string)
    requires RefsNameThemselves(p) && (forall n | n in nodes :: DeclaredField(n.fields))
    requires All(n => FillNode(n, p), nodes).Success?
    requires All(DumpNode, All(n => FillNode(n, p), nodes).value).Success?
    requires exists n | n in All(DumpNode, All(n => FillNode(n, p), nodes).value).value :: JsonNames(n.fields, name)
    ensures name in p.refs
  {
    var filled := All(n => FillNode(n, p), nodes).value;
    AllGivesEach(n => FillNode(n, p), nodes);
    AllGivesEach(DumpNode, filled);
    var dumped := All(DumpNode, filled).value;
    var i :| 0 <= i < |dumped| && JsonNames(dumped[i].fields, name);
    assert DumpNode(filled[i]) == Success(dumped[i]) && FillNode(nodes[i], p) == Success(filled[i]);
    assert nodes[i] in nodes;
    FieldNames(nodes[i].fields, p, name);
  }

  /** Every reference of a planned step is to a variable captured in the plan. */
  lemma StepNamesRefs(p: Plan, op: Operation, name: string)
    requires RefsNameThemselves(p) && DeclaredOp(op) && StepOf(p, op).Success? && StepNames(StepOf(p, op).value, name)
    ensures name in p.refs
  {
    match op
    case Primitive(_, nodes, create, delete, _) =>
      var step := StepOf(p, op).value;
      if CommandsName(step.create, name) {
        CommandsNameRefs(create, p, name);
      } else if CommandsName(step.delete, name) {
        CommandsNameRefs(delete, p, name);
      } else {
        NodesNameRefs(nodes, p, name);
      }
    case Capture(_, _, argv, _, _, _, _) => ArgvNamesRefs(argv, p, name);
    case _ =>
  }

  /** One of the steps captures `name`. */
  ghost predicate Captured(steps: seq<Step>, name: string) {
    exists j | 0 <= j < |steps| :: steps[j].CaptureStep? && steps[j].name == name
  }

  /** Every reference of a step is to a capture before it, or to itself. */
  ghost predicate PointBack(steps: seq<Step>) {
    forall k, name | 0 <= k < |steps| && StepNames(steps[k], name) :: Captured(steps[..k + 1], name)
  }

  lemma CapturedStays(steps: seq<Step>, more: seq<Step>, name: string)
    requires Captured(steps, name)
    ensures Captured(steps + more, name)
  {
    var j :| 0 <= j < |steps| && steps[j].CaptureStep? && steps[j].name == name;
    assert (steps + more)[j] == steps[j];
  }

  lemma PointBackOneMore(steps: seq<Step>, step: Step)
    requires PointBack(steps)
    requires forall name | StepNames(step, name) :: Captured(steps + [step], name)
    ensures PointBack(steps + [step])
  {
    var longer := steps + [step];
    forall k, name | 0 <= k < |longer| && StepNames(longer[k], name) ensures Captured(longer[..k + 1], name) {
      if k < |steps| {
        assert longer[..k + 1] == steps[..k + 1];
      } else {
        assert longer[..k + 1] == longer;
      }
    }
  }

  /** Every variable that stands for a reference was captured. */
  ghost predicate RefsCaptured(p: Plan) {
    && RefsNameThemselves(p)
    && (forall v | v in p.refs :: Captured(StepsOf(p.units), v))
    && PointBack(StepsOf(p.units))
  }

  /** A symlink's process id is the reference of a capture, or a variable. */
  lemma AddedNames(p: Plan, d: Declaration, name: string)
    requires RefsNameThemselves(p) && WrittenSo(d) && |Added(p, d)| == 1 && StepNames(Added(p, d)[0], name)
    ensures name in p.refs || (Added(p, d)[0].CaptureStep? && Added(p, d)[0].name == name)
  {
    var (q, what) := Declared(p, d).value;
    if d.LinkNetns? {
      assert StepOf(q, what.value.1).value == SymlinkNetnsStep(what.value.1.container, FromRef(p.refs[d.pidVariable]));
    } else {
      assert RefsNameThemselves(q);
      StepNamesRefs(q, what.value.1, name);
    }
  }

  function FromRef(t: Token): Arg
    requires t.Ref?
  {
    ArgRef(t.name, t.key)
  }

  /** A declaration adds at most one step, and no variable that was not there
      or is not the capture it adds. */
  lemma DeclaredShape(p: Plan, d: Declaration)
    requires RefsNameThemselves(p) && Declare(p, d).Success?
    ensures RefsNameThemselves(Declare(p, d).value) && |Added(p, d)| <= 1
    ensures forall v | v in Declare(p, d).value.refs ::
              v in p.refs || (|Added(p, d)| == 1 && Added(p, d)[0].CaptureStep? && Added(p, d)[0].name == v)
  {
  }

  lemma AddedIsCaptured(steps: seq<Step>, step: Step, name: string)
    requires Captured(steps, name) || (step.CaptureStep? && step.name == name)
    ensures Captured(steps + [step], name)
  {
    if Captured(steps, name) {
      CapturedStays(steps, [step], name);
    } else {
      assert (steps + [step])[|steps|] == step;
    }
  }

  lemma DeclareKeepsCaptured(p: Plan, d: Declaration)
    requires RefsCaptured(p) && WrittenSo(d) && Declare(p, d).Success?
    ensures RefsCaptured(Declare(p, d).value)
  {
    var q, steps, added := Declare(p, d).value, StepsOf(p.units), Added(p, d);
    DeclareAddsLast(p, d);
    DeclaredShape(p, d);
    if added == [] {
      assert steps + added == steps;
    } else {
      var step := added[0];
      assert added == [step];
      forall v | v in q.refs ensures Captured(steps + [step], v) {
        AddedIsCaptured(steps, step, v);
      }
      forall name | StepNames(step, name) ensures Captured(steps + [step], name) {
        AddedNames(p, d, name);
        AddedIsCaptured(steps, step, name);
      }
      PointBackOneMore(steps, step);
    }
  }

  /** References point back: in an accepted plan every run-time reference names
      a capture declared earlier in the scope, or the very capture it is an
      argument of. */
  lemma {:induction false} RefsPointBack(scope: string, ds: seq<Declaration>)
    requires (forall d | d in ds :: WrittenSo(d)) && DeclareAll(Plan(scope, [], map[], map[]), ds).Success?
    ensures RefsCaptured(DeclareAll(Plan(scope, [], map[], map[]), ds).value)
  {
    if ds != [] {
      var before := ds[..|ds| - 1];
      RefsPointBack(scope, before);
      DeclareKeepsCaptured(DeclareAll(Plan(scope, [], map[], map[]), before).value, ds[|ds| - 1]);
    }
  }

  // ---------------------------------------------------------------------
  // The emitter as it updates the shared plan
  // ---------------------------------------------------------------------

  class SharedPlan {
    const scope: string
    var units: seq<Unit>
    var values: map<string, string>
    var refs: map<string, Token>

    constructor (scope: string)
      ensures View() == Plan(scope, [], map[], map[])
    {
      this.scope := scope;
      units, values, refs := [], map[], map[];
    }

    function View(): Plan
      reads this
    {
      Plan(scope, units, values, refs)
    }
  }

  /** The scope's emitter (no unit) or one of its units. */
  class PlanEmitter {
    const plan: SharedPlan
    const unit: Option<nat>

    constructor (plan: SharedPlan, unit: Option<nat>)
      ensures this.plan == plan && this.unit == unit
    {
      this.plan, this.unit := plan, unit;
    }

    method OpenUnit(name: string, kind: string, key: Option<string>) returns (emitter: PlanEmitter)
      modifies plan
      ensures Declare(old(plan.View()), Open(name, kind, key)) == Success(plan.View())
      ensures fresh(emitter) && emitter.plan == plan && emitter.unit == Some(|old(plan.units)|)
    {
      emitter := new PlanEmitter(plan, Some(|plan.units|));
      plan.units := plan.units + [Unit(name, kind, key, plan.scope, [])];
    }

    method Add(op: Operation) returns (error: Option<PlanError>)
      modifies plan`units
      ensures match AddTo(old(plan.View()), unit, op)
              case Success(p) => error == None && plan.View() == p
              case Failure(e) => error == Some(e) && plan.View() == old(plan.View())
    {
      var step := StepOf(plan.View(), op);
      if step.Failure? {
        return Some(step.error);
      }
      if unit.None? || unit.value >= |plan.units| {
        return Some(OutsideUnit(step.value));
      }
      if unit.value != |plan.units| - 1 {
        return Some(OlderUnit(plan.units[unit.value].name, step.value));
      }
      var newest := plan.units[unit.value];
      plan.units := plan.units[unit.value := newest.(steps := newest.steps + [step.value])];
      return None;
    }

    /** The variable is set first, and stays set when the capture is refused. */
    method CaptureValue(variable: string, argv: seq<Token>, wait: bool) returns (error: Option<PlanError>)
      modifies plan`units, plan`refs
      ensures plan.refs == old(plan.refs)[variable := CaptureRef(variable, wait)]
      ensures match Declare(old(plan.View()), CaptureInto(unit, variable, argv, wait))
              case Success(p) => error == None && plan.View() == p
              case Failure(e) => error == Some(e) && plan.units == old(plan.units)
    {
      plan.refs := plan.refs[variable := CaptureRef(variable, wait)];
      error := Add(CaptureOf(plan.View(), variable, argv, wait));
    }

    method AssignValue(variable: string, text: string)
      modifies plan`values
      ensures Declare(old(plan.View()), Assign(variable, text)) == Success(plan.View())
    {
      plan.values := plan.values[variable := text];
    }
  }
}
