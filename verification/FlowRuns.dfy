/** What every run of the flow semantics keeps: allocated cells, known workflows and a bound on its length. */
module FlowRuns {
  import opened Wrappers
  import opened FlowSyntax
  import opened FlowSemantics

  // ---------- the workflows of a program ----------

  function Definitions(ss: seq<Stmt>): seq<Workflow> {
    if ss == [] then [] else DefinitionsIn(ss[0]) + Definitions(ss[1..])
  }

  function BlockDefinitions(blocks: seq<ConditionBlock>): seq<Workflow> {
    if blocks == [] then []
    else
      assert blocks[0] decreases to blocks[0].statements;
      Definitions(blocks[0].statements) + BlockDefinitions(blocks[1..])
  }

  function DefinitionsIn(s: Stmt): seq<Workflow> {
    match s
    case DefinitionStatement(w) => [w] + Definitions(w.statements)
    case IfBlock(first, elifs, otherwise) =>
      Definitions(first.statements) + BlockDefinitions(elifs) + Definitions(otherwise)
    case RepeatBlock(body) => Definitions(body)
    case _ => []
  }

  ghost predicate Within(inner: seq<Workflow>, defs: seq<Workflow>) {
    forall w | w in inner :: w in defs
  }

  /** The workflows defined inside a known workflow are known. */
  ghost predicate Closed(defs: seq<Workflow>) {
    forall w | w in defs :: Within(Definitions(w.statements), defs)
  }

  lemma {:induction false} ProgramDefinitionsAreClosed(ss: seq<Stmt>)
    ensures Closed(Definitions(ss))
  {
    if ss != [] {
      ProgramDefinitionsAreClosed(ss[1..]);
      StatementDefinitionsAreClosed(ss[0]);
    }
  }

  lemma {:induction false} StatementDefinitionsAreClosed(s: Stmt)
    ensures Closed(DefinitionsIn(s))
  {
    match s
    case DefinitionStatement(w) => ProgramDefinitionsAreClosed(w.statements);
    case IfBlock(first, elifs, otherwise) =>
      ProgramDefinitionsAreClosed(first.statements);
      BlockDefinitionsAreClosed(elifs);
      ProgramDefinitionsAreClosed(otherwise);
    case RepeatBlock(body) => ProgramDefinitionsAreClosed(body);
    case _ =>
  }

  lemma {:induction false} BlockDefinitionsAreClosed(blocks: seq<ConditionBlock>)
    ensures Closed(BlockDefinitions(blocks))
  {
    if blocks != [] {
      assert blocks[0] decreases to blocks[0].statements;
      ProgramDefinitionsAreClosed(blocks[0].statements);
      BlockDefinitionsAreClosed(blocks[1..]);
    }
  }

  // ---------- what a run may cost ----------

  /** Statements an expression evaluates, if every awaited workflow evaluates at most `call` of them. */
  function ExprCost(call: nat, e: Expr): nat {
    match e
    case Chain(first, terms) => ExprCost(call, first) + TermsCost(call, terms)
    case FunctionCall(_, arguments) => ArgumentsCost(call, arguments)
    case AwaitExpression(awaited, duration) => ExprCost(call, awaited) + ExprCost(call, duration) + call
    case TryExpression(attempt) => ExprCost(call, attempt)
    case _ => 0
  }

  function TermsCost(call: nat, terms: seq<Operation>): nat {
    if terms == [] then 0
    else
      assert terms[0] decreases to terms[0].term;
      ExprCost(call, terms[0].term) + TermsCost(call, terms[1..])
  }

  function ArgumentsCost(call: nat, arguments: seq<CallArgument>): nat {
    if arguments == [] then 0
    else
      assert arguments[0] decreases to arguments[0].value;
      ExprCost(call, arguments[0].value) + ArgumentsCost(call, arguments[1..])
  }

  function StmtsCost(loops: nat, call: nat, ss: seq<Stmt>): nat {
    if ss == [] then 0 else StmtCost(loops, call, ss[0]) + StmtsCost(loops, call, ss[1..])
  }

  function BlockCost(loops: nat, call: nat, c: ConditionBlock): nat {
    ExprCost(call, c.condition) + StmtsCost(loops, call, c.statements)
  }

  function BlocksCost(loops: nat, call: nat, blocks: seq<ConditionBlock>): nat {
    if blocks == [] then 0 else BlockCost(loops, call, blocks[0]) + BlocksCost(loops, call, blocks[1..])
  }

  /** One step for the statement itself; a repeat multiplies the cost of its body by the loop limit. */
  function StmtCost(loops: nat, call: nat, s: Stmt): nat {
    1 + match s
        case VariableDeclaration(_, _, init) => if init.Some? then ExprCost(call, init.value) else 0
        case AssignmentStatement(_, rhs) => ExprCost(call, rhs)
        case ReturnStatement(e) => ExprCost(call, e)
        case RaiseStatement(e) => ExprCost(call, e)
        case BreakStatement => 0
        case ExpressionStatement(e) => ExprCost(call, e)
        case IfBlock(first, elifs, otherwise) =>
          BlockCost(loops, call, first) + BlocksCost(loops, call, elifs) + StmtsCost(loops, call, otherwise)
        case RepeatBlock(body) => loops * StmtsCost(loops, call, body)
        case DefinitionStatement(_) => 0
  }

  /** The dearest of the given workflow bodies. */
  function DearestBody(loops: nat, call: nat, defs: seq<Workflow>): nat {
    if defs == [] then 0
    else
      var here, rest := StmtsCost(loops, call, defs[0].statements), DearestBody(loops, call, defs[1..]);
      if here < rest then rest else here
  }

  /** What one await may cost when calls nest at most `d` deep. */
  function CallCost(loops: nat, d: nat, defs: seq<Workflow>): nat {
    if d == 0 then 0 else DearestBody(loops, CallCost(loops, d - 1, defs), defs)
  }

  lemma {:induction false} DearestBodyBounds(loops: nat, call: nat, defs: seq<Workflow>, w: Workflow)
    requires w in defs
    ensures StmtsCost(loops, call, w.statements) <= DearestBody(loops, call, defs)
  {
    if w != defs[0] {
      DearestBodyBounds(loops, call, defs[1..], w);
    }
  }

  // ---------- well-formed states ----------

  /** The value refers to allocated cells and known workflows only. */
  ghost predicate Sound(v: Value, cells: nat, defs: seq<Workflow>) {
    match v
    case IntValue(cell) => cell < cells
    case WorkflowValue(w) => w in defs
    case InvocationValue(w, args) => w in defs && forall a | a in args :: Sound(a.value, cells, defs)
    case _ => true
  }

  ghost predicate SoundArguments(args: seq<Argument>, cells: nat, defs: seq<Workflow>) {
    forall a | a in args :: Sound(a.value, cells, defs)
  }

  ghost predicate SoundEntries(env: seq<Entry>, cells: nat, defs: seq<Workflow>) {
    forall e | e in env :: Sound(e.value, cells, defs)
  }

  ghost predicate WellFormed(st: State, defs: seq<Workflow>) {
    && DEFAULT_INTEGER < |st.store| && st.base <= |st.env|
    && SoundEntries(st.env, |st.store|, defs)
    && (st.result.Some? ==> Sound(st.result.value, |st.store|, defs))
  }

  lemma {:induction false} SoundGrows(v: Value, cells: nat, more: nat, defs: seq<Workflow>)
    requires Sound(v, cells, defs) && cells <= more
    ensures Sound(v, more, defs)
  {
    if v.InvocationValue? {
      forall a | a in v.arguments ensures Sound(a.value, more, defs) {
        SoundGrows(a.value, cells, more, defs);
      }
    }
  }

  lemma {:induction false} SoundEntriesGrow(env: seq<Entry>, cells: nat, more: nat, defs: seq<Workflow>)
    requires SoundEntries(env, cells, defs) && cells <= more
    ensures SoundEntries(env, more, defs)
  {
    forall e | e in env ensures Sound(e.value, more, defs) {
      SoundGrows(e.value, cells, more, defs);
    }
  }

  lemma {:induction false} SoundArgumentsGrow(args: seq<Argument>, cells: nat, more: nat, defs: seq<Workflow>)
    requires SoundArguments(args, cells, defs) && cells <= more
    ensures SoundArguments(args, more, defs)
  {
    forall a | a in args ensures Sound(a.value, more, defs) {
      SoundGrows(a.value, cells, more, defs);
    }
  }

  lemma {:induction false} LookupSound(env: seq<Entry>, name: string, cells: nat, defs: seq<Workflow>)
    requires SoundEntries(env, cells, defs)
    ensures Lookup(env, name).Some? ==> Sound(Lookup(env, name).value, cells, defs)
  {
    if env != [] && env[|env| - 1].name != name {
      LookupSound(env[..|env| - 1], name, cells, defs);
    }
  }

  // ---------- the invariant of every run ----------

  /** From a well-formed state: still well formed, no cell freed, at most `cost` statements evaluated. */
  ghost predicate Runs(before: State, after: State, cost: nat, defs: seq<Workflow>) {
    && WellFormed(after, defs)
    && |before.store| <= |after.store|
    && before.steps <= after.steps <= before.steps + cost
    && before.base == after.base && before.env <= after.env
  }

  /** However the run ends, it evaluates at most `cost` statements; if it completes, `Runs` holds. */
  ghost predicate EndsWithin<T>(before: State, r: Outcome<T>, cost: nat, defs: seq<Workflow>) {
    match r
    case Ok(_, after) => Runs(before, after, cost, defs)
    case Fail(_, steps) => before.steps <= steps <= before.steps + cost
  }

  ghost predicate ValueRuns(before: State, r: Outcome<Value>, cost: nat, defs: seq<Workflow>) {
    && EndsWithin(before, r, cost, defs)
    && (r.Ok? ==> r.st.env == before.env && Sound(r.value, |r.st.store|, defs))
  }

  lemma {:induction false} ExprRuns(loops: nat, d: nat, e: Expr, st: State, defs: seq<Workflow>)
    requires WellFormed(st, defs) && Closed(defs)
    ensures ValueRuns(st, EvalExpr(loops, d, e, st), ExprCost(CallCost(loops, d, defs), e), defs)
    decreases d, e, 0, 0
  {
    match e
    case IntLiteral(i) => AllocRuns(st, i, defs);
    case Identifier(name) => LookupSound(st.env, name, |st.store|, defs);
    case Chain(first, terms) =>
      ExprRuns(loops, d, first, st, defs);
      var r := EvalExpr(loops, d, first, st);
      if r.Ok? {
        TermsRun(loops, d, r.value, terms, r.st, defs);
      }
    case FunctionCall(callee, arguments) => CallRuns(loops, d, callee, arguments, st, defs);
    case AwaitExpression(awaited, duration) =>
      ExprRuns(loops, d, awaited, st, defs);
      var r := EvalExpr(loops, d, awaited, st);
      if r.Ok? {
        AwaitableRuns(loops, d, r.value, duration, r.st, defs);
      }
    case TryExpression(attempt) => ExprRuns(loops, d, attempt, st, defs);
    case _ =>
  }

  lemma {:induction false} CallRuns(
      loops: nat, d: nat, callee: string, arguments: seq<CallArgument>, st: State, defs: seq<Workflow>)
    requires WellFormed(st, defs) && Closed(defs)
    ensures ValueRuns(
              st, EvalCall(loops, d, callee, arguments, st), ArgumentsCost(CallCost(loops, d, defs), arguments), defs)
    decreases d, arguments, 1, 0
  {
    LookupSound(st.env, callee, |st.store|, defs);
    ArgumentsRun(loops, d, arguments, st, defs);
  }

  lemma {:induction false} AllocRuns(st: State, i: int, defs: seq<Workflow>)
    requires WellFormed(st, defs)
    ensures ValueRuns(st, Alloc(st, i), 0, defs)
  {
    SoundEntriesGrow(st.env, |st.store|, |st.store| + 1, defs);
    if st.result.Some? {
      SoundGrows(st.result.value, |st.store|, |st.store| + 1, defs);
    }
  }

  lemma {:induction false} TermsRun(
      loops: nat, d: nat, lhs: Value, terms: seq<Operation>, st: State, defs: seq<Workflow>)
    requires WellFormed(st, defs) && Closed(defs) && Sound(lhs, |st.store|, defs)
    ensures ValueRuns(st, EvalTerms(loops, d, lhs, terms, st), TermsCost(CallCost(loops, d, defs), terms), defs)
    decreases d, terms, 0, 0
  {
    if terms != [] {
      assert terms[0] decreases to terms[0].term;
      ExprRuns(loops, d, terms[0].term, st, defs);
      var r := EvalExpr(loops, d, terms[0].term, st);
      if r.Ok? {
        var applied := ApplyBinary(terms[0].op, lhs, r.value, r.st);
        if applied.Ok? {
          if applied.value.IntValue? {
            AllocRuns(r.st, applied.st.store[|r.st.store|], defs);
          }
          TermsRun(loops, d, applied.value, terms[1..], applied.st, defs);
        }
      }
    }
  }

  lemma {:induction false} ArgumentsRun(
      loops: nat, d: nat, arguments: seq<CallArgument>, st: State, defs: seq<Workflow>)
    requires WellFormed(st, defs) && Closed(defs)
    ensures var r := EvalArguments(loops, d, arguments, st);
            && EndsWithin(st, r, ArgumentsCost(CallCost(loops, d, defs), arguments), defs)
            && (r.Ok? ==> r.st.env == st.env && SoundArguments(r.value, |r.st.store|, defs))
    decreases d, arguments, 0, 0
  {
    if arguments != [] {
      assert arguments[0] decreases to arguments[0].value;
      ExprRuns(loops, d, arguments[0].value, st, defs);
      var r := EvalExpr(loops, d, arguments[0].value, st);
      if r.Ok? {
        ArgumentsRun(loops, d, arguments[1..], r.st, defs);
        var rest := EvalArguments(loops, d, arguments[1..], r.st);
        if rest.Ok? {
          SoundGrows(r.value, |r.st.store|, |rest.st.store|, defs);
        }
      }
    }
  }

  lemma {:induction false} AwaitableRuns(loops: nat, d: nat, v: Value, duration: Expr, st: State, defs: seq<Workflow>)
    requires WellFormed(st, defs) && Closed(defs) && Sound(v, |st.store|, defs)
    ensures var call := CallCost(loops, d, defs);
            ValueRuns(st, EvalAwaitable(loops, d, v, duration, st), ExprCost(call, duration) + call, defs)
    decreases d, duration, 2, 0
  {
    match v
    case InvocationValue(w, args) => AwaitRuns(loops, d, duration, w, args, st, defs);
    case WorkflowValue(w) => AwaitRuns(loops, d, duration, w, [], st, defs);
    case _ =>
  }

  lemma {:induction false} AwaitRuns(
      loops: nat, d: nat, duration: Expr, w: Workflow, args: seq<Argument>, st: State, defs: seq<Workflow>)
    requires WellFormed(st, defs) && Closed(defs) && w in defs && SoundArguments(args, |st.store|, defs)
    ensures var call := CallCost(loops, d, defs);
            ValueRuns(st, EvalAwait(loops, d, duration, w, args, st), ExprCost(call, duration) + call, defs)
    decreases d, duration, 1, 0
  {
    ExprRuns(loops, d, duration, st, defs);
    var timeout := EvalExpr(loops, d, duration, st);
    if timeout.Ok? && 0 < d {
      SoundArgumentsGrow(args, |st.store|, |timeout.st.store|, defs);
      InvokeRuns(loops, d - 1, w, args, timeout.st, defs);
      DearestBodyBounds(loops, CallCost(loops, d - 1, defs), defs, w);
    }
  }

  lemma {:induction false} InvokeRuns(
      loops: nat, d: nat, w: Workflow, args: seq<Argument>, st: State, defs: seq<Workflow>)
    requires WellFormed(st, defs) && Closed(defs) && w in defs && SoundArguments(args, |st.store|, defs)
    ensures ValueRuns(st, Invoke(loops, d, w, args, st), StmtsCost(loops, CallCost(loops, d, defs), w.statements), defs)
    decreases d, w, 1, 0
  {
    var inner := st.(base := |st.env|, policy := Stay, result := None);
    BodyRuns(loops, d, w, args, inner, defs);
    var done := RunBody(loops, d, w, args, inner);
    if done.Ok? {
      SoundEntriesGrow(st.env, |st.store|, |done.st.store|, defs);
      if st.result.Some? {
        SoundGrows(st.result.value, |st.store|, |done.st.store|, defs);
      }
    }
  }

  lemma {:induction false} BodyRuns(
      loops: nat, d: nat, w: Workflow, args: seq<Argument>, st: State, defs: seq<Workflow>)
    requires WellFormed(st, defs) && Closed(defs) && w in defs && SoundArguments(args, |st.store|, defs)
    ensures var r := RunBody(loops, d, w, args, st);
            EndsWithin(st, r, StmtsCost(loops, CallCost(loops, d, defs), w.statements), defs)
    decreases d, w, 0, 0
  {
    BindArgumentsRuns(w, args, st, defs);
    var bound := BindArguments(w, args, st);
    if bound.Ok? {
      BlockRuns(loops, d, w.statements, bound.st, defs);
    }
  }

  lemma {:induction false} BindArgumentsRuns(w: Workflow, args: seq<Argument>, st: State, defs: seq<Workflow>)
    requires WellFormed(st, defs) && SoundArguments(args, |st.store|, defs)
    ensures var r := BindArguments(w, args, st); EndsWithin(st, r, 0, defs) && (r.Ok? ==> r.st.store == st.store)
  {
    if w.signature.Some? && |args| == |w.signature.value.inputs| {
      BindInputsRuns(w.signature.value.inputs, args, 0, st, defs);
    }
  }

  lemma {:induction false} BindInputsRuns(
      inputs: seq<Declaration>, args: seq<Argument>, index: nat, st: State, defs: seq<Workflow>)
    requires index <= |inputs| == |args|
    requires WellFormed(st, defs) && SoundArguments(args, |st.store|, defs)
    ensures var r := BindInputs(inputs, args, index, st);
            EndsWithin(st, r, 0, defs) && (r.Ok? ==> r.st.store == st.store)
    decreases |inputs| - index
  {
    if index < |inputs| {
      FindArgumentSound(args, inputs[index].name, |st.store|, defs);
      var named := FindArgument(args, inputs[index].name);
      var argument := if named.Some? then named.value else args[index].value;
      BindInputsRuns(inputs, args, index + 1, Bind(st, inputs[index].name, argument), defs);
    }
  }

  lemma {:induction false} FindArgumentSound(args: seq<Argument>, name: string, cells: nat, defs: seq<Workflow>)
    requires SoundArguments(args, cells, defs)
    ensures FindArgument(args, name).Some? ==> Sound(FindArgument(args, name).value, cells, defs)
  {
    if args != [] && args[0].name != Some(name) {
      FindArgumentSound(args[1..], name, cells, defs);
    }
  }

  lemma {:induction false} BlockRuns(loops: nat, d: nat, ss: seq<Stmt>, st: State, defs: seq<Workflow>)
    requires WellFormed(st, defs) && Closed(defs) && Within(Definitions(ss), defs)
    ensures var r := ExecBlock(loops, d, ss, st);
            EndsWithin(st, r, StmtsCost(loops, CallCost(loops, d, defs), ss), defs) && (r.Ok? ==> r.st.env == st.env)
    decreases d, ss, 1, 0
  {
    var inner := st.(base := |st.env|, policy := Stay);
    StmtsRun(loops, d, ss, inner, defs);
    var r := ExecStmts(loops, d, ss, inner);
    if r.Ok? {
      SoundEntriesGrow(st.env, |st.store|, |r.st.store|, defs);
    }
  }

  lemma {:induction false} StmtsRun(loops: nat, d: nat, ss: seq<Stmt>, st: State, defs: seq<Workflow>)
    requires WellFormed(st, defs) && Closed(defs) && Within(Definitions(ss), defs)
    ensures var r := ExecStmts(loops, d, ss, st);
            EndsWithin(st, r, StmtsCost(loops, CallCost(loops, d, defs), ss), defs)
    decreases d, ss, 0, 0
  {
    if ss != [] {
      StmtRuns(loops, d, ss[0], st, defs);
      var r := Exec(loops, d, ss[0], st);
      if r.Ok? && r.st.policy == Stay {
        StmtsRun(loops, d, ss[1..], r.st, defs);
      }
    }
  }

  lemma {:induction false} ConditionRuns(loops: nat, d: nat, c: ConditionBlock, st: State, defs: seq<Workflow>)
    requires WellFormed(st, defs) && Closed(defs) && Within(Definitions(c.statements), defs)
    ensures var r := ExecCondition(loops, d, c, st);
            EndsWithin(st, r, BlockCost(loops, CallCost(loops, d, defs), c), defs) && (r.Ok? ==> r.st.env == st.env)
    decreases d, c, 0, 0
  {
    ExprRuns(loops, d, c.condition, st, defs);
    var r := EvalExpr(loops, d, c.condition, st);
    if r.Ok? {
      BlockRuns(loops, d, c.statements, r.st, defs);
    }
  }

  lemma {:induction false} ElifsRun(loops: nat, d: nat, elifs: seq<ConditionBlock>, st: State, defs: seq<Workflow>)
    requires WellFormed(st, defs) && Closed(defs) && Within(BlockDefinitions(elifs), defs)
    ensures var r := ExecElifs(loops, d, elifs, st);
            EndsWithin(st, r, BlocksCost(loops, CallCost(loops, d, defs), elifs), defs) &&
              (r.Ok? ==> r.st.env == st.env)
    decreases d, elifs, 0, 0
  {
    if elifs != [] {
      ConditionRuns(loops, d, elifs[0], st, defs);
      var r := ExecCondition(loops, d, elifs[0], st);
      if r.Ok? {
        ElifsRun(loops, d, elifs[1..], r.st, defs);
      }
    }
  }

  lemma {:induction false} RepeatRuns(loops: nat, d: nat, body: seq<Stmt>, count: nat, st: State, defs: seq<Workflow>)
    requires WellFormed(st, defs) && Closed(defs) && Within(Definitions(body), defs)
    ensures var r := ExecRepeat(loops, d, body, count, st);
            EndsWithin(st, r, count * StmtsCost(loops, CallCost(loops, d, defs), body), defs) &&
              (r.Ok? ==> r.st.env == st.env)
    decreases d, body, 2, count
  {
    if count > 0 {
      var cost := StmtsCost(loops, CallCost(loops, d, defs), body);
      assert count * cost == cost + (count - 1) * cost;
      BlockRuns(loops, d, body, st, defs);
      var r := ExecBlock(loops, d, body, st);
      if r.Ok? {
        RepeatRuns(loops, d, body, count - 1, r.st, defs);
      }
    }
  }

  lemma {:induction false} IfRuns(loops: nat, d: nat, s: Stmt, st: State, defs: seq<Workflow>)
    requires s.IfBlock? && WellFormed(st, defs) && Closed(defs) && Within(DefinitionsIn(s), defs)
    ensures var r := ExecIf(loops, d, s, st);
            EndsWithin(st, r, StmtCost(loops, CallCost(loops, d, defs), s) - 1, defs)
    decreases d, s, 0, 0
  {
    ConditionRuns(loops, d, s.ifBlock, st, defs);
    var r := ExecCondition(loops, d, s.ifBlock, st);
    if r.Ok? {
      ElifsRun(loops, d, s.elifBlocks, r.st, defs);
      var r2 := ExecElifs(loops, d, s.elifBlocks, r.st);
      if r2.Ok? {
        BlockRuns(loops, d, s.elseBlock, r2.st, defs);
      }
    }
  }

  lemma {:induction false} DeclarationRuns(
      loops: nat, d: nat, name: string, typeName: string, init: Option<Expr>, st: State, defs: seq<Workflow>)
    requires WellFormed(st, defs) && Closed(defs)
    ensures var r := ExecDeclaration(loops, d, name, typeName, init, st);
            EndsWithin(st, r, if init.Some? then ExprCost(CallCost(loops, d, defs), init.value) else 0, defs)
    decreases d, init, 0, 0
  {
    if init.Some? {
      ExprRuns(loops, d, init.value, st, defs);
    }
    var r := if init.Some? then EvalExpr(loops, d, init.value, st) else Ok(VoidValue, st);
    if r.Ok? && FindType(typeName).Some? {
      ConstructRuns(FindType(typeName).value, r.value, r.st, defs);
    }
  }

  lemma {:induction false} ConstructRuns(t: TypeId, v: Value, st: State, defs: seq<Workflow>)
    requires WellFormed(st, defs) && Sound(v, |st.store|, defs)
    ensures ValueRuns(st, Construct(t, v, st), 0, defs)
  {
    if v.IntValue? {
      AllocRuns(st, Load(st.store, v.cell), defs);
    }
  }

  lemma {:induction false} AssignRuns(lhs: Value, rhs: Value, st: State, defs: seq<Workflow>)
    requires WellFormed(st, defs)
    ensures Runs(st, Assigned(lhs, rhs, st), 0, defs)
  {
  }

  lemma {:induction false} AssignmentRuns(
      loops: nat, d: nat, target: string, rhs: Expr, st: State, defs: seq<Workflow>)
    requires WellFormed(st, defs) && Closed(defs)
    ensures EndsWithin(st, ExecAssignment(loops, d, target, rhs, st), ExprCost(CallCost(loops, d, defs), rhs), defs)
    decreases d, rhs, 1, 0
  {
    ExprRuns(loops, d, rhs, st, defs);
    var r := EvalExpr(loops, d, rhs, st);
    if r.Ok? && Lookup(st.env, target).Some? {
      AssignRuns(Lookup(st.env, target).value, r.value, r.st, defs);
    }
  }

  lemma {:induction false} ReturnRuns(loops: nat, d: nat, e: Expr, st: State, defs: seq<Workflow>)
    requires WellFormed(st, defs) && Closed(defs)
    ensures EndsWithin(st, ExecReturn(loops, d, e, st), ExprCost(CallCost(loops, d, defs), e), defs)
    decreases d, e, 1, 0
  {
    ExprRuns(loops, d, e, st, defs);
  }

  lemma {:induction false} RaiseRuns(loops: nat, d: nat, e: Expr, st: State, defs: seq<Workflow>)
    requires WellFormed(st, defs) && Closed(defs)
    ensures EndsWithin(st, ExecRaise(loops, d, e, st), ExprCost(CallCost(loops, d, defs), e), defs)
    decreases d, e, 1, 0
  {
    ExprRuns(loops, d, e, st, defs);
  }

  lemma {:induction false} StmtRuns(loops: nat, d: nat, s: Stmt, before: State, defs: seq<Workflow>)
    requires WellFormed(before, defs) && Closed(defs) && Within(DefinitionsIn(s), defs)
    ensures var r := Exec(loops, d, s, before);
            EndsWithin(before, r, StmtCost(loops, CallCost(loops, d, defs), s), defs)
    decreases d, s, 1, 0
  {
    var st := before.(steps := before.steps + 1);
    match s
    case VariableDeclaration(name, typeName, init) => DeclarationRuns(loops, d, name, typeName, init, st, defs);
    case AssignmentStatement(target, rhs) => AssignmentRuns(loops, d, target, rhs, st, defs);
    case ReturnStatement(e) => ReturnRuns(loops, d, e, st, defs);
    case RaiseStatement(e) => RaiseRuns(loops, d, e, st, defs);
    case BreakStatement =>
    case ExpressionStatement(e) => ExprRuns(loops, d, e, st, defs);
    case IfBlock(_, _, _) => IfRuns(loops, d, s, st, defs);
    case RepeatBlock(body) => RepeatRuns(loops, d, body, loops, st, defs);
    case DefinitionStatement(_) =>
  }

  lemma {:induction false} InitialIsWellFormed(instanceId: int, defs: seq<Workflow>)
    ensures WellFormed(Initial(instanceId), defs)
  {
  }

  /** Every program run, from a state that holds no workflows of its own, is bounded by a cost read off the program. */
  lemma {:induction false} ProgramRuns(loops: nat, d: nat, program: seq<Stmt>, st: State)
    requires WellFormed(st, Definitions(program))
    ensures var r := ExecStmts(loops, d, program, st);
            var defs := Definitions(program);
            && (if r.Ok? then r.st.steps else r.steps) - st.steps <= StmtsCost(loops, CallCost(loops, d, defs), program)
            && (r.Ok? ==> WellFormed(r.st, defs) && |st.store| <= |r.st.store|)
  {
    ProgramDefinitionsAreClosed(program);
    StmtsRun(loops, d, program, st, Definitions(program));
  }
}
