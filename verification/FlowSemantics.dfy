/**
  A big-step semantics of the flow language that knows no scope stack, no per-scope policy and no
  shared return cell. One environment lists the visible bindings, oldest first; entering a block or
  a workflow only remembers how long that list was.
 */
module FlowSemantics {
  import opened Wrappers
  import opened FlowSyntax

  // ---------- values, types and errors ----------

  /** An integer lives in a shared storage cell; no other modelled type can be changed after creation. */
  datatype Value =
    | VoidValue
    | BoolValue(b: bool)
    | IntValue(cell: nat)
    | StringValue(s: string)
    | DurationValue(count: nat)
    | ErrorValue(what: string)
    | WorkflowValue(workflow: Workflow)
    | InvocationValue(definition: Workflow, arguments: seq<Argument>)
    | FreeFunctionValue(builtin: FreeFunction)

  /** The functions the first scope binds. */
  datatype FreeFunction = Println | Panic | StrFormat

  datatype Argument = Argument(name: Option<string>, value: Value)

  datatype Entry = Entry(name: string, value: Value)

  /** Types are compared by id; the workflow and function types never set theirs, so they share `UndefinedType`. */
  datatype TypeId = VoidType | BooleanType | IntegerType | StringType | DurationType | ErrorType | UndefinedType

  datatype EvalError =
    | AlreadyDeclared | UnknownType | InvalidConstructor | UndeclaredIdentifier | NotCallable
    | OperatorNotFound | IntegerOverflow | NotABoolean | InvalidAssignment | NotRaisable
    | ExpectedDuration | NotAwaitable | InvalidArgumentCount | ArgumentTypeMismatch
    | NoReturnValue | InvalidReturnType | InvalidFormat | Panicked | DepthExceeded | NotModelled

  datatype FlowControlPolicy = Stay | Return | Break

  function TypeOf(v: Value): TypeId {
    match v
    case VoidValue => VoidType
    case BoolValue(_) => BooleanType
    case IntValue(_) => IntegerType
    case StringValue(_) => StringType
    case DurationValue(_) => DurationType
    case ErrorValue(_) => ErrorType
    case WorkflowValue(_) => UndefinedType
    case InvocationValue(_, _) => UndefinedType
    case FreeFunctionValue(_) => UndefinedType
  }

  function FindType(name: string): Option<TypeId> {
    if name == "void" then Some(VoidType)
    else if name == "boolean" then Some(BooleanType)
    else if name == "integer" then Some(IntegerType)
    else if name == "string" then Some(StringType)
    else if name == "duration" then Some(DurationType)
    else if name == "error" then Some(ErrorType)
    else if name == "workflow" then Some(UndefinedType)
    else None
  }

  /** The storage cell behind the integer type's default value, shared by everything built from it. */
  const DEFAULT_INTEGER: nat := 0

  // ---------- states and outcomes ----------

  /**
    `env[base..]` are the bindings of the current block; `policy` is the control signal raised in
    it; `result` is the return value of the current activation. `steps` counts evaluated statements.
   */
  datatype State = State(
    store: seq<int>, env: seq<Entry>, base: nat,
    policy: FlowControlPolicy, result: Option<Value>, steps: nat)

  /** An error aborts the run; all that is kept of it is how many statements were evaluated. */
  datatype Outcome<+T> = Ok(value: T, st: State) | Fail(error: EvalError, steps: nat) {
    predicate IsFailure() {
      Fail?
    }

    function PropagateFailure<U>(): (r: Outcome<U>)
      requires Fail?
    {
      Fail(error, steps)
    }

    function Extract(): (T, State)
      requires Ok?
    {
      (value, st)
    }
  }

  /** The latest binding of a name, if there is one. */
  function Lookup(env: seq<Entry>, name: string): Option<Value> {
    if env == [] then None
    else if env[|env| - 1].name == name then Some(env[|env| - 1].value)
    else Lookup(env[..|env| - 1], name)
  }

  /** The bindings of the current block. */
  function Locals(st: State): seq<Entry> {
    if st.base <= |st.env| then st.env[st.base..] else []
  }

  /** The bindings every run starts with. */
  const BUILTINS: seq<Entry> := [
    Entry("println", FreeFunctionValue(Println)),
    Entry("panic", FreeFunctionValue(Panic)),
    Entry("str_format", FreeFunctionValue(StrFormat))]

  /** The state every run starts in: cell 0 is the default integer, cell 1 holds the instance id. */
  function Initial(instanceId: int): State {
    State([0, instanceId], BUILTINS + [Entry("instance_id", IntValue(1))], 0, Stay, None, 0)
  }

  function Bind(st: State, name: string, v: Value): State {
    st.(env := st.env + [Entry(name, v)])
  }

  /** The content of a cell; `WellFormed` states never read past the store. */
  function Load(store: seq<int>, cell: nat): int {
    if cell < |store| then store[cell] else 0
  }

  function Alloc(st: State, i: int): Outcome<Value> {
    Ok(IntValue(|st.store|), st.(store := st.store + [i]))
  }

  function SetResult(st: State, v: Value): State {
    st.(result := Some(v), policy := Return)
  }

  // ---------- operations on values ----------

  predicate InInt64(i: int) {
    -0x8000_0000_0000_0000 <= i < 0x8000_0000_0000_0000
  }

  function IntegerResult(i: int, st: State): Outcome<Value> {
    if InInt64(i) then Alloc(st, i) else Fail(IntegerOverflow, st.steps)
  }

  /** Only integers have binary operators among the modelled types. */
  function ApplyBinary(op: BinaryOp, lhs: Value, rhs: Value, st: State): Outcome<Value> {
    if !(lhs.IntValue? && rhs.IntValue?) then Fail(OperatorNotFound, st.steps) else
    var l, r := Load(st.store, lhs.cell), Load(st.store, rhs.cell);
    match op
    case Plus => IntegerResult(l + r, st)
    case Minus => IntegerResult(l - r, st)
    case Less => Ok(BoolValue(l < r), st)
    case LessEq => Ok(BoolValue(l <= r), st)
    case Greater => Ok(BoolValue(l > r), st)
    case GreaterEq => Ok(BoolValue(l >= r), st)
    case Eq => Ok(BoolValue(l == r), st)
    case NotEq => Ok(BoolValue(l != r), st)
  }

  /**
    What a declaration stores. A missing or void initialiser yields the type's own default value,
    cell included; an integer is copied out of the cell it shares.
   */
  function Construct(t: TypeId, v: Value, st: State): Outcome<Value> {
    match t
    case VoidType => if v.VoidValue? then Ok(VoidValue, st) else Fail(InvalidConstructor, st.steps)
    case BooleanType =>
      if v.VoidValue? then Ok(BoolValue(false), st)
      else if v.BoolValue? then Ok(v, st) else Fail(InvalidConstructor, st.steps)
    case IntegerType =>
      if v.VoidValue? then Ok(IntValue(DEFAULT_INTEGER), st)
      else if v.IntValue? then Alloc(st, Load(st.store, v.cell)) else Fail(InvalidConstructor, st.steps)
    case StringType =>
      if v.VoidValue? then Ok(StringValue(""), st)
      else if v.StringValue? then Ok(v, st) else Fail(InvalidConstructor, st.steps)
    case DurationType =>
      if v.VoidValue? then Ok(DurationValue(0), st)
      else if v.DurationValue? then Ok(v, st) else Fail(InvalidConstructor, st.steps)
    case ErrorType => Fail(InvalidConstructor, st.steps)
    case UndefinedType => Fail(InvalidConstructor, st.steps)
  }

  /** Whether an assignment succeeds: integers take integers, every other type its own and errors. */
  predicate Assignable(lhs: Value, rhs: Value) {
    if lhs.IntValue? then rhs.IntValue? else TypeOf(lhs) == TypeOf(rhs) || rhs.ErrorValue?
  }

  /** The state after an assignment: an integer is overwritten in its cell; anything else leaves the store alone. */
  function Assigned(lhs: Value, rhs: Value, st: State): State {
    if lhs.IntValue? && rhs.IntValue? && lhs.cell < |st.store| then
      st.(store := st.store[lhs.cell := Load(st.store, rhs.cell)])
    else st
  }

  function FindArgument(args: seq<Argument>, name: string): Option<Value> {
    if args == [] then None
    else if args[0].name == Some(name) then Some(args[0].value)
    else FindArgument(args[1..], name)
  }

  /** Binds the inputs from `index` on: by argument name if one matches, else by position. */
  function BindInputs(inputs: seq<Declaration>, args: seq<Argument>, index: nat, st: State): Outcome<()>
    requires index <= |inputs| == |args|
    decreases |inputs| - index
  {
    if index == |inputs| then Ok((), st) else
    var input := inputs[index];
    var named := FindArgument(args, input.name);
    var argument := if named.Some? then named.value else args[index].value;
    var expected := FindType(input.typeName);
    if expected.None? then Fail(UnknownType, st.steps)
    else if expected.value != TypeOf(argument) then Fail(ArgumentTypeMismatch, st.steps)
    else BindInputs(inputs, args, index + 1, Bind(st, input.name, argument))
  }

  /** A workflow without a signature ignores its arguments. */
  function BindArguments(w: Workflow, args: seq<Argument>, st: State): Outcome<()> {
    if w.signature.None? then Ok((), st)
    else if |args| != |w.signature.value.inputs| then Fail(InvalidArgumentCount, st.steps)
    else BindInputs(w.signature.value.inputs, args, 0, st)
  }

  function ReturnType(w: Workflow): Option<TypeId> {
    if w.signature.Some? && w.signature.value.returnType.Some?
    then FindType(w.signature.value.returnType.value)
    else Some(VoidType)
  }

  /** The value an activation hands back, checked against the declared type; errors always pass. */
  function CheckResult(expected: TypeId, result: Option<Value>): Result<Value, EvalError> {
    if result.None? && expected != VoidType then Failure(NoReturnValue) else
    var v := if result.Some? then result.value else VoidValue;
    if TypeOf(v) != expected && TypeOf(v) != ErrorType then Failure(InvalidReturnType) else Success(v)
  }

  /**
    Printing returns nothing, whatever it is given, and panicking ends the run. Formatting needs a
    string first, which it returns when nothing is to be filled in; filling in is not modelled.
   */
  function CallFree(f: FreeFunction, args: seq<Argument>, st: State): Outcome<Value> {
    match f
    case Println => Ok(VoidValue, st)
    case Panic => Fail(Panicked, st.steps)
    case StrFormat =>
      if args == [] || !args[0].value.StringValue? then Fail(InvalidFormat, st.steps)
      else if |args| == 1 then Ok(args[0].value, st)
      else Fail(NotModelled, st.steps)
  }

  /** Adds already evaluated arguments in front of those still to come. */
  function Prepended(args: seq<Argument>, rest: Outcome<seq<Argument>>): Outcome<seq<Argument>> {
    match rest case Ok(more, st) => Ok(args + more, st) case Fail(error, steps) => Fail(error, steps)
  }

  // ---------- evaluation ----------

  // `loops` is the interpreter's maximum loop count and `d` bounds how deep workflow calls nest.

  function EvalExpr(loops: nat, d: nat, e: Expr, st: State): Outcome<Value>
    decreases d, e, 0, 0
  {
    match e
    case BoolLiteral(b) => Ok(BoolValue(b), st)
    case IntLiteral(i) => Alloc(st, i)
    case StringLiteral(s) => Ok(StringValue(s), st)
    case DurationLiteral(count) => Ok(DurationValue(count), st)
    case Identifier(name) =>
      (match Lookup(st.env, name) case Some(v) => Ok(v, st) case None => Fail(UndeclaredIdentifier, st.steps))
    case Chain(first, terms) =>
      var (lhs, st1) :- EvalExpr(loops, d, first, st);
      EvalTerms(loops, d, lhs, terms, st1)
    case FunctionCall(callee, arguments) => EvalCall(loops, d, callee, arguments, st)
    case AwaitExpression(awaited, duration) =>
      var (v, st1) :- EvalExpr(loops, d, awaited, st);
      EvalAwaitable(loops, d, v, duration, st1)
    case TryExpression(attempt) => EvalTry(loops, d, attempt, st)
  }

  /** An error becomes the activation's result; the expression itself goes on with a moved-from error. */
  function EvalTry(loops: nat, d: nat, attempt: Expr, st: State): Outcome<Value>
    decreases d, attempt, 1, 0
  {
    var (v, st1) :- EvalExpr(loops, d, attempt, st);
    if v.ErrorValue? then Ok(ErrorValue(""), SetResult(st1, v)) else Ok(v, st1)
  }

  /** Calling a workflow only packs it with its arguments; awaiting the invocation runs it. */
  function EvalCall(loops: nat, d: nat, callee: string, arguments: seq<CallArgument>, st: State): Outcome<Value>
    decreases d, arguments, 1, 0
  {
    match Lookup(st.env, callee)
    case None => Fail(UndeclaredIdentifier, st.steps)
    case Some(WorkflowValue(w)) =>
      var (args, st1) :- EvalArguments(loops, d, arguments, st);
      Ok(InvocationValue(w, args), st1)
    case Some(FreeFunctionValue(f)) =>
      var (args, st1) :- EvalArguments(loops, d, arguments, st);
      CallFree(f, args, st1)
    case Some(_) => Fail(NotCallable, st.steps)
  }

  function EvalAwaitable(loops: nat, d: nat, awaitable: Value, duration: Expr, st: State): Outcome<Value>
    decreases d, duration, 2, 0
  {
    match awaitable
    case InvocationValue(w, args) => EvalAwait(loops, d, duration, w, args, st)
    case WorkflowValue(w) => EvalAwait(loops, d, duration, w, [], st)
    case _ => Fail(NotAwaitable, st.steps)
  }

  function EvalTerms(loops: nat, d: nat, lhs: Value, terms: seq<Operation>, st: State): Outcome<Value>
    decreases d, terms, 0, 0
  {
    if terms == [] then Ok(lhs, st) else
    assert terms[0] decreases to terms[0].term;
    var (rhs, st1) :- EvalExpr(loops, d, terms[0].term, st);
    var (v, st2) :- ApplyBinary(terms[0].op, lhs, rhs, st1);
    EvalTerms(loops, d, v, terms[1..], st2)
  }

  function EvalArguments(loops: nat, d: nat, args: seq<CallArgument>, st: State): Outcome<seq<Argument>>
    decreases d, args, 0, 0
  {
    if args == [] then Ok([], st) else
    assert args[0] decreases to args[0].value;
    var (v, st1) :- EvalExpr(loops, d, args[0].value, st);
    Prepended([Argument(args[0].name, v)], EvalArguments(loops, d, args[1..], st1))
  }

  function EvalAwait(loops: nat, d: nat, duration: Expr, w: Workflow, args: seq<Argument>, st: State): Outcome<Value>
    decreases d, duration, 1, 0
  {
    var (timeout, st1) :- EvalExpr(loops, d, duration, st);
    if !timeout.DurationValue? then Fail(ExpectedDuration, st1.steps)
    else if d == 0 then Fail(DepthExceeded, st1.steps)
    else Invoke(loops, d - 1, w, args, st1)
  }

  function Invoke(loops: nat, d: nat, w: Workflow, args: seq<Argument>, st: State): Outcome<Value>
    decreases d, w, 2, 0
  {
    var returnType := ReturnType(w);
    if returnType.None? then Fail(UnknownType, st.steps) else RunActivation(loops, d, w, args, returnType.value, st)
  }

  /** Runs a workflow: only the store outlives the call; the caller's bindings and signal are kept. */
  function RunActivation(
      loops: nat, d: nat, w: Workflow, args: seq<Argument>, returnType: TypeId, st: State): Outcome<Value>
    decreases d, w, 1, 0
  {
    var (_, done) :- RunBody(loops, d, w, args, st.(base := |st.env|, policy := Stay, result := None));
    match CheckResult(returnType, done.result)
    case Failure(error) => Fail(error, done.steps)
    case Success(v) => Ok(v, st.(store := done.store, steps := done.steps))
  }

  function RunBody(loops: nat, d: nat, w: Workflow, args: seq<Argument>, st: State): Outcome<()>
    decreases d, w, 0, 0
  {
    var (_, bound) :- BindArguments(w, args, st);
    ExecBlock(loops, d, w.statements, bound)
  }

  /** A signal raised inside a block replaces the enclosing one. */
  function Forward(outer: FlowControlPolicy, inner: FlowControlPolicy): FlowControlPolicy {
    if inner == Stay then outer else inner
  }

  /** A block starts without a signal and without bindings of its own, and takes its bindings away again. */
  function ExecBlock(loops: nat, d: nat, ss: seq<Stmt>, st: State): Outcome<()>
    decreases d, ss, 1, 0
  {
    var (_, done) :- ExecStmts(loops, d, ss, st.(base := |st.env|, policy := Stay));
    Ok((), done.(env := st.env, base := st.base, policy := Forward(st.policy, done.policy)))
  }

  /** Statements run in order until one leaves a signal. */
  function ExecStmts(loops: nat, d: nat, ss: seq<Stmt>, st: State): Outcome<()>
    decreases d, ss, 0, 0
  {
    if ss == [] then Ok((), st) else
    var (_, st1) :- Exec(loops, d, ss[0], st);
    if st1.policy != Stay then Ok((), st1) else ExecStmts(loops, d, ss[1..], st1)
  }

  /** Evaluates a condition and, if it holds, its block; tells whether it held. */
  function ExecCondition(loops: nat, d: nat, c: ConditionBlock, st: State): Outcome<bool>
    decreases d, c, 0, 0
  {
    var (v, st1) :- EvalExpr(loops, d, c.condition, st);
    if !v.BoolValue? then Fail(NotABoolean, st1.steps)
    else if !v.b then Ok(false, st1)
    else var (_, st2) :- ExecBlock(loops, d, c.statements, st1); Ok(true, st2)
  }

  /** Tries the elif blocks in order; tells whether the whole if statement is finished with. */
  function ExecElifs(loops: nat, d: nat, elifs: seq<ConditionBlock>, st: State): Outcome<bool>
    decreases d, elifs, 0, 0
  {
    if elifs == [] then Ok(false, st) else
    var (held, st1) :- ExecCondition(loops, d, elifs[0], st);
    if held || st1.policy != Stay then Ok(true, st1) else ExecElifs(loops, d, elifs[1..], st1)
  }

  /** Runs the body up to `count` times, stopping at the first signal. */
  function ExecRepeat(loops: nat, d: nat, body: seq<Stmt>, count: nat, st: State): Outcome<()>
    decreases d, body, 2, count
  {
    if count == 0 then Ok((), st) else
    var (_, st1) :- ExecBlock(loops, d, body, st);
    if st1.policy != Stay then Ok((), st1) else ExecRepeat(loops, d, body, count - 1, st1)
  }

  function ExecIf(loops: nat, d: nat, s: Stmt, st: State): Outcome<()>
    requires s.IfBlock?
    decreases d, s, 0, 0
  {
    var (held, st1) :- ExecCondition(loops, d, s.ifBlock, st);
    if held || st1.policy != Stay then Ok((), st1) else
    var (finished, st2) :- ExecElifs(loops, d, s.elifBlocks, st1);
    if finished || s.elseBlock == [] then Ok((), st2) else ExecBlock(loops, d, s.elseBlock, st2)
  }

  function ExecDeclaration(
      loops: nat, d: nat, name: string, typeName: string, init: Option<Expr>, st: State): Outcome<()>
    decreases d, init, 0, 0
  {
    if Lookup(Locals(st), name).Some? then Fail(AlreadyDeclared, st.steps)
    else if FindType(typeName).None? then Fail(UnknownType, st.steps)
    else
      var (v, st1) :- if init.Some? then EvalExpr(loops, d, init.value, st) else Ok(VoidValue, st);
      var (constructed, st2) :- Construct(FindType(typeName).value, v, st1);
      Ok((), Bind(st2, name, constructed))
  }

  /** A failing assignment is dropped: the statement completes and leaves the store as it is. */
  function ExecAssignment(loops: nat, d: nat, target: string, rhs: Expr, st: State): Outcome<()>
    decreases d, rhs, 1, 0
  {
    match Lookup(st.env, target)
    case None => Fail(UndeclaredIdentifier, st.steps)
    case Some(lhs) =>
      var (v, st1) :- EvalExpr(loops, d, rhs, st);
      Ok((), Assigned(lhs, v, st1))
  }

  function ExecReturn(loops: nat, d: nat, returned: Expr, st: State): Outcome<()>
    decreases d, returned, 1, 0
  {
    var (v, st1) :- EvalExpr(loops, d, returned, st);
    Ok((), SetResult(st1, v))
  }

  /** Raising returns an error: the one given, or a new one from a message. */
  function ExecRaise(loops: nat, d: nat, raised: Expr, st: State): Outcome<()>
    decreases d, raised, 1, 0
  {
    var (v, st1) :- EvalExpr(loops, d, raised, st);
    if v.StringValue? then Ok((), SetResult(st1, ErrorValue(v.s)))
    else if v.ErrorValue? then Ok((), SetResult(st1, v))
    else Fail(NotRaisable, st1.steps)
  }

  function Exec(loops: nat, d: nat, s: Stmt, before: State): Outcome<()>
    decreases d, s, 1, 0
  {
    var st := before.(steps := before.steps + 1);
    match s
    case VariableDeclaration(name, typeName, init) => ExecDeclaration(loops, d, name, typeName, init, st)
    case DefinitionStatement(workflow) =>
      if Lookup(Locals(st), workflow.name).Some? then Fail(AlreadyDeclared, st.steps)
      else Ok((), Bind(st, workflow.name, WorkflowValue(workflow)))
    case AssignmentStatement(target, rhs) => ExecAssignment(loops, d, target, rhs, st)
    case ReturnStatement(returned) => ExecReturn(loops, d, returned, st)
    case RaiseStatement(raised) => ExecRaise(loops, d, raised, st)
    case BreakStatement => Ok((), st.(policy := Break))
    case ExpressionStatement(expression) =>
      var (_, st1) :- EvalExpr(loops, d, expression, st);
      Ok((), st1)
    case IfBlock(_, _, _) => ExecIf(loops, d, s, st)
    case RepeatBlock(scope) => ExecRepeat(loops, d, scope, loops, st)
  }
}
