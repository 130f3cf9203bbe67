/** Laws of the flow language: which statements a signal skips, and which names share an integer. */
module FlowLaws {
  import opened Wrappers
  import opened FlowSyntax
  import opened FlowSemantics
  import opened FlowRuns

  // ---------- control flow ----------

  /** A later part of a block runs only if the earlier part ended without an error and without a signal. */
  lemma {:induction false} Sequencing(loops: nat, d: nat, first: seq<Stmt>, second: seq<Stmt>, st: State)
    requires st.policy == Stay
    ensures var r := ExecStmts(loops, d, first, st);
            ExecStmts(loops, d, first + second, st) ==
            if r.Fail? || r.st.policy != Stay then r else ExecStmts(loops, d, second, r.st)
  {
    if first == [] {
      assert first + second == second;
    } else {
      assert (first + second)[1..] == first[1..] + second;
      var r := Exec(loops, d, first[0], st);
      if r.Ok? && r.st.policy == Stay {
        Sequencing(loops, d, first[1..], second, r.st);
      }
    }
  }

  /** The loop body run `k` times, whatever it signals. */
  function Iterations(loops: nat, d: nat, body: seq<Stmt>, k: nat, st: State): Outcome<()> {
    if k == 0 then Ok((), st) else
    var (_, st1) :- Iterations(loops, d, body, k - 1, st);
    ExecBlock(loops, d, body, st1)
  }

  predicate Quiet(r: Outcome<()>) {
    r.Ok? && r.st.policy == Stay
  }

  lemma {:induction false} IterationsFromTheFront(loops: nat, d: nat, body: seq<Stmt>, k: nat, st: State)
    requires ExecBlock(loops, d, body, st).Ok?
    ensures Iterations(loops, d, body, k + 1, st) == Iterations(loops, d, body, k, ExecBlock(loops, d, body, st).st)
  {
    if k == 0 {
      assert Iterations(loops, d, body, 0, st) == Ok((), st);
    } else {
      IterationsFromTheFront(loops, d, body, k - 1, st);
    }
  }

  /**
    A repeat block ends with its first iteration that fails or signals, or runs out its count; the
    signal itself, Break as much as Return, is left standing for the enclosing blocks.
   */
  lemma {:induction false} RepeatStopsAtFirstSignal(loops: nat, d: nat, body: seq<Stmt>, count: nat, k: nat, st: State)
    requires k <= count
    requires forall j | 0 <= j < k :: Quiet(Iterations(loops, d, body, j, st))
    requires k == count || (0 < k && !Quiet(Iterations(loops, d, body, k, st)))
    ensures ExecRepeat(loops, d, body, count, st) == Iterations(loops, d, body, k, st)
    decreases count
  {
    if k > 0 {
      var r := ExecBlock(loops, d, body, st);
      assert Iterations(loops, d, body, 0, st) == Ok((), st);
      assert Iterations(loops, d, body, 1, st) == r;
      if Quiet(r) {
        forall j | 0 <= j < k ensures Iterations(loops, d, body, j, r.st) == Iterations(loops, d, body, j + 1, st) {
          IterationsFromTheFront(loops, d, body, j, st);
        }
        RepeatStopsAtFirstSignal(loops, d, body, count - 1, k - 1, r.st);
      } else {
        assert k == 1;
      }
    }
  }

  // ---------- unwinding ----------

  /**
    One step of the way from a block down to a statement inside it: past the statements around it,
    into an iteration of a repeat block, or into a branch of an if statement.
   */
  datatype Frame =
    | Among(before: seq<Stmt>, after: seq<Stmt>)
    | RepeatBody(iteration: nat)
    | ThenBranch(condition: Expr, elifs: seq<ConditionBlock>, otherwise: seq<Stmt>)
    | ElifBranch(
        first: ConditionBlock, skipped: seq<ConditionBlock>, condition: Expr,
        more: seq<ConditionBlock>, otherwise: seq<Stmt>)
    | ElseBranch(first: ConditionBlock, elifs: seq<ConditionBlock>)

  /** The block with the statement at the end of the way. */
  function Plug(way: seq<Frame>, s: Stmt): (ss: seq<Stmt>)
    ensures ss != []
  {
    if way == [] then [s] else
    var inner := Plug(way[1..], s);
    match way[0]
    case Among(before, after) => before + (inner + after)
    case RepeatBody(_) => [RepeatBlock(inner)]
    case ThenBranch(condition, elifs, otherwise) => [IfBlock(ConditionBlock(condition, inner), elifs, otherwise)]
    case ElifBranch(first, skipped, condition, more, otherwise) =>
      [IfBlock(first, skipped + ([ConditionBlock(condition, inner)] + more), otherwise)]
    case ElseBranch(first, elifs) => [IfBlock(first, elifs, inner)]
  }

  /** How a block starts. */
  function Entered(st: State): State {
    st.(base := |st.env|, policy := Stay)
  }

  /** The state after a condition that holds. */
  function Holding(loops: nat, d: nat, condition: Expr, st: State): Option<State> {
    match EvalExpr(loops, d, condition, st)
    case Ok(BoolValue(true), st1) => Some(st1)
    case _ => None
  }

  /** The state after an if condition and some elif conditions none of which holds. */
  function Refused(loops: nat, d: nat, first: ConditionBlock, elifs: seq<ConditionBlock>, st: State): Option<State> {
    match ExecCondition(loops, d, first, st)
    case Ok(false, st1) =>
      if st1.policy != Stay then None else
      (match ExecElifs(loops, d, elifs, st1) case Ok(false, st2) => Some(st2) case _ => None)
    case _ => None
  }

  /** The state in which execution reaches the statement along the way, if it does. */
  ghost function Reached(loops: nat, d: nat, way: seq<Frame>, s: Stmt, st: State): Option<State> {
    if way == [] then Some(st) else
    var started := st.(steps := st.steps + 1);
    match way[0]
    case Among(before, _) =>
      var r := ExecStmts(loops, d, before, st);
      if Quiet(r) then Reached(loops, d, way[1..], s, r.st) else None
    case RepeatBody(k) =>
      var body := Plug(way[1..], s);
      if k < loops && forall j | 0 <= j <= k :: Quiet(Iterations(loops, d, body, j, started)) then
        Reached(loops, d, way[1..], s, Entered(Iterations(loops, d, body, k, started).st))
      else None
    case ThenBranch(condition, _, _) =>
      var held := Holding(loops, d, condition, started);
      if held.Some? then Reached(loops, d, way[1..], s, Entered(held.value)) else None
    case ElifBranch(first, skipped, condition, _, _) =>
      var refused := Refused(loops, d, first, skipped, started);
      if refused.None? then None else
      var held := Holding(loops, d, condition, refused.value);
      if held.Some? then Reached(loops, d, way[1..], s, Entered(held.value)) else None
    case ElseBranch(first, elifs) =>
      var refused := Refused(loops, d, first, elifs, started);
      if refused.Some? then Reached(loops, d, way[1..], s, Entered(refused.value)) else None
  }

  /** The statement raises a signal where execution reaches it. */
  ghost predicate SignalsThere(loops: nat, d: nat, way: seq<Frame>, s: Stmt, st: State) {
    var there := Reached(loops, d, way, s, st);
    there.Some? && var r := Exec(loops, d, s, there.value); r.Ok? && r.st.policy != Stay
  }

  /** Up to the bindings of the blocks left, the run ended right where the signal was raised. */
  predicate EndsThere(r: Outcome<()>, there: State) {
    r.Ok? && r.st.(env := there.env, base := there.base) == there
  }

  /**
    A signal, Break as much as Return, ends every block it is raised in, up to the activation, at
    whatever depth of repeat blocks and if branches, in whatever iteration, and between whatever
    statements: nothing runs after it, and the store, the result, the signal and the number of
    statements evaluated are those it left.
   */
  lemma {:induction false} SignalEndsEveryEnclosingBlock(loops: nat, d: nat, way: seq<Frame>, s: Stmt, st: State)
    requires st.policy == Stay && SignalsThere(loops, d, way, s, st)
    ensures EndsThere(
              ExecStmts(loops, d, Plug(way, s), st), Exec(loops, d, s, Reached(loops, d, way, s, st).value).st)
  {
    if way != [] {
      var inner, rest := Plug(way[1..], s), way[1..];
      var started := st.(steps := st.steps + 1);
      var there := Exec(loops, d, s, Reached(loops, d, way, s, st).value).st;
      match way[0]
      case Among(before, after) =>
        var r := ExecStmts(loops, d, before, st);
        SignalEndsEveryEnclosingBlock(loops, d, rest, s, r.st);
        SignalEndsStatements(loops, d, before, inner, after, st);
      case RepeatBody(k) =>
        var from := Iterations(loops, d, inner, k, started).st;
        SignalEndsEveryEnclosingBlock(loops, d, rest, s, Entered(from));
        SignalLeavesBlock(loops, d, inner, from, there);
        IterationEndsRepeat(loops, d, inner, k, st);
      case ThenBranch(condition, elifs, otherwise) =>
        var from := Holding(loops, d, condition, started).value;
        SignalEndsEveryEnclosingBlock(loops, d, rest, s, Entered(from));
        SignalLeavesBlock(loops, d, inner, from, there);
        HoldingRuns(loops, d, ConditionBlock(condition, inner), started, from);
        SingleIf(loops, d, Plug(way, s)[0], st);
      case ElifBranch(first, skipped, condition, more, otherwise) =>
        var from := Holding(loops, d, condition, Refused(loops, d, first, skipped, started).value).value;
        SignalEndsEveryEnclosingBlock(loops, d, rest, s, Entered(from));
        SignalLeavesBlock(loops, d, inner, from, there);
        ElifHolds(loops, d, first, skipped, ConditionBlock(condition, inner), more, otherwise, started);
        SingleIf(loops, d, Plug(way, s)[0], st);
      case ElseBranch(first, elifs) =>
        var from := Refused(loops, d, first, elifs, started).value;
        SignalEndsEveryEnclosingBlock(loops, d, rest, s, Entered(from));
        SignalLeavesBlock(loops, d, inner, from, there);
        SingleIf(loops, d, Plug(way, s)[0], st);
    }
  }

  lemma {:induction false} SignalEndsStatements(
      loops: nat, d: nat, before: seq<Stmt>, inner: seq<Stmt>, after: seq<Stmt>, st: State)
    requires st.policy == Stay && Quiet(ExecStmts(loops, d, before, st))
    requires var r := ExecStmts(loops, d, inner, ExecStmts(loops, d, before, st).st); r.Ok? && r.st.policy != Stay
    ensures ExecStmts(loops, d, before + (inner + after), st) ==
            ExecStmts(loops, d, inner, ExecStmts(loops, d, before, st).st)
  {
    Sequencing(loops, d, before, inner + after, st);
    Sequencing(loops, d, inner, after, ExecStmts(loops, d, before, st).st);
  }

  lemma {:induction false} SignalLeavesBlock(loops: nat, d: nat, ss: seq<Stmt>, from: State, there: State)
    requires EndsThere(ExecStmts(loops, d, ss, Entered(from)), there) && there.policy != Stay
    ensures EndsThere(ExecBlock(loops, d, ss, from), there)
  {
  }

  /** The first iteration that signals ends the repeat block. */
  lemma {:induction false} IterationEndsRepeat(loops: nat, d: nat, body: seq<Stmt>, k: nat, st: State)
    requires var started := st.(steps := st.steps + 1);
             && k < loops && (forall j | 0 <= j <= k :: Quiet(Iterations(loops, d, body, j, started)))
             && !Quiet(ExecBlock(loops, d, body, Iterations(loops, d, body, k, started).st))
    ensures var started := st.(steps := st.steps + 1);
            ExecStmts(loops, d, [RepeatBlock(body)], st) ==
            ExecBlock(loops, d, body, Iterations(loops, d, body, k, started).st)
  {
    var started := st.(steps := st.steps + 1);
    assert Iterations(loops, d, body, k + 1, started) ==
           ExecBlock(loops, d, body, Iterations(loops, d, body, k, started).st);
    RepeatStopsAtFirstSignal(loops, d, body, loops, k + 1, started);
    assert Exec(loops, d, RepeatBlock(body), st) == ExecRepeat(loops, d, body, loops, started);
  }

  /** The first elif condition that holds decides the if statement. */
  lemma {:induction false} ElifHolds(
      loops: nat, d: nat, first: ConditionBlock, skipped: seq<ConditionBlock>, c: ConditionBlock,
      more: seq<ConditionBlock>, otherwise: seq<Stmt>, st: State)
    requires Refused(loops, d, first, skipped, st).Some?
    requires Holding(loops, d, c.condition, Refused(loops, d, first, skipped, st).value).Some?
    ensures var held := Holding(loops, d, c.condition, Refused(loops, d, first, skipped, st).value).value;
            ExecIf(loops, d, IfBlock(first, skipped + ([c] + more), otherwise), st) ==
            ExecBlock(loops, d, c.statements, held)
  {
    var refused := Refused(loops, d, first, skipped, st).value;
    HoldingRuns(loops, d, c, refused, Holding(loops, d, c.condition, refused).value);
    ElifsSkipped(loops, d, skipped, [c] + more, ExecCondition(loops, d, first, st).st);
    assert ([c] + more)[0] == c;
  }

  lemma {:induction false} SingleIf(loops: nat, d: nat, s: Stmt, st: State)
    requires s.IfBlock?
    ensures ExecStmts(loops, d, [s], st) == ExecIf(loops, d, s, st.(steps := st.steps + 1))
  {
    var r := Exec(loops, d, s, st);
    assert r == ExecIf(loops, d, s, st.(steps := st.steps + 1));
    assert [s][1..] == [];
  }

  lemma {:induction false} HoldingRuns(loops: nat, d: nat, c: ConditionBlock, st: State, held: State)
    requires Holding(loops, d, c.condition, st) == Some(held)
    ensures var r := ExecBlock(loops, d, c.statements, held);
            ExecCondition(loops, d, c, st) == (match r case Ok(_, st2) => Ok(true, st2) case Fail(e, n) => Fail(e, n))
  {
  }

  lemma {:induction false} ElifsSkipped(
      loops: nat, d: nat, skipped: seq<ConditionBlock>, more: seq<ConditionBlock>, st: State)
    requires var r := ExecElifs(loops, d, skipped, st); r.Ok? && !r.value
    ensures ExecElifs(loops, d, skipped + more, st) == ExecElifs(loops, d, more, ExecElifs(loops, d, skipped, st).st)
  {
    if skipped == [] {
      assert skipped + more == more;
    } else {
      assert (skipped + more)[1..] == skipped[1..] + more;
      ElifsSkipped(loops, d, skipped[1..], more, ExecCondition(loops, d, skipped[0], st).st);
    }
  }

  // ---------- sharing ----------

  /** An expression that awaits nothing only adds cells to the store. */
  predicate AwaitFree(e: Expr) {
    match e
    case Chain(first, terms) =>
      AwaitFree(first) && forall t | t in terms :: (assert t decreases to t.term; AwaitFree(t.term))
    case FunctionCall(_, arguments) =>
      forall a | a in arguments :: (assert a decreases to a.value; AwaitFree(a.value))
    case AwaitExpression(_, _) => false
    case TryExpression(attempt) => AwaitFree(attempt)
    case _ => true
  }

  lemma {:induction false} AwaitFreeKeepsStore(loops: nat, d: nat, e: Expr, st: State)
    requires AwaitFree(e)
    ensures var r := EvalExpr(loops, d, e, st); r.Ok? ==> st.store <= r.st.store
    decreases e
  {
    match e
    case Chain(first, terms) =>
      AwaitFreeKeepsStore(loops, d, first, st);
      var r := EvalExpr(loops, d, first, st);
      if r.Ok? {
        AwaitFreeTermsKeepStore(loops, d, r.value, terms, r.st);
      }
    case FunctionCall(_, arguments) => AwaitFreeArgumentsKeepStore(loops, d, arguments, st);
    case TryExpression(attempt) => AwaitFreeKeepsStore(loops, d, attempt, st);
    case _ =>
  }

  lemma {:induction false} AwaitFreeTermsKeepStore(loops: nat, d: nat, lhs: Value, terms: seq<Operation>, st: State)
    requires forall t | t in terms :: AwaitFree(t.term)
    ensures var r := EvalTerms(loops, d, lhs, terms, st); r.Ok? ==> st.store <= r.st.store
    decreases terms
  {
    if terms != [] {
      assert terms[0] decreases to terms[0].term;
      AwaitFreeKeepsStore(loops, d, terms[0].term, st);
      var r := EvalExpr(loops, d, terms[0].term, st);
      if r.Ok? {
        var applied := ApplyBinary(terms[0].op, lhs, r.value, r.st);
        if applied.Ok? {
          AwaitFreeTermsKeepStore(loops, d, applied.value, terms[1..], applied.st);
        }
      }
    }
  }

  lemma {:induction false} AwaitFreeArgumentsKeepStore(loops: nat, d: nat, arguments: seq<CallArgument>, st: State)
    requires forall a | a in arguments :: AwaitFree(a.value)
    ensures var r := EvalArguments(loops, d, arguments, st); r.Ok? ==> st.store <= r.st.store
    decreases arguments
  {
    if arguments != [] {
      assert arguments[0] decreases to arguments[0].value;
      AwaitFreeKeepsStore(loops, d, arguments[0].value, st);
      var r := EvalExpr(loops, d, arguments[0].value, st);
      if r.Ok? {
        AwaitFreeArgumentsKeepStore(loops, d, arguments[1..], r.st);
      }
    }
  }

  /** What a name reads: the content of the cell its latest binding refers to. */
  function ReadInteger(st: State, v: Value): Option<int> {
    if v.IntValue? then Some(Load(st.store, v.cell)) else None
  }

  /**
    An assignment completes exactly when its target is bound and its right-hand side evaluates. If
    both are integers, it then changes what is read through exactly the bindings sharing the target's
    cell, those of the callers and the shadowed ones included; otherwise it changes nothing.
   */
  lemma {:induction false} AssignmentReachesExactlyTheSharers(
      loops: nat, d: nat, target: string, rhs: Expr, st: State, defs: seq<Workflow>, entry: Entry)
    requires WellFormed(st, defs) && Closed(defs) && entry in st.env
    ensures var source := EvalExpr(loops, d, rhs, st.(steps := st.steps + 1));
            var lhs := Lookup(st.env, target);
            var r := Exec(loops, d, AssignmentStatement(target, rhs), st);
            && (r.Ok? <==> lhs.Some? && source.Ok?)
            && (r.Ok? ==>
                  && r.st == source.st.(store := r.st.store) && r.st.env == st.env
                  && ReadInteger(r.st, entry.value) ==
                     if lhs.value.IntValue? && source.value.IntValue? && entry.value == lhs.value
                     then ReadInteger(source.st, source.value)
                     else ReadInteger(source.st, entry.value))
  {
    var started := st.(steps := st.steps + 1);
    ExprRuns(loops, d, rhs, started, defs);
    assert Sound(entry.value, |st.store|, defs);
    LookupSound(st.env, target, |st.store|, defs);
  }

  /** Without an await on its right-hand side, an assignment changes nothing else at all. */
  lemma {:induction false} AwaitFreeAssignmentChangesNothingElse(
      loops: nat, d: nat, target: string, rhs: Expr, st: State, defs: seq<Workflow>, entry: Entry)
    requires WellFormed(st, defs) && Closed(defs) && entry in st.env
    requires AwaitFree(rhs) && Exec(loops, d, AssignmentStatement(target, rhs), st).Ok?
    ensures var source := EvalExpr(loops, d, rhs, st.(steps := st.steps + 1));
            var after := Exec(loops, d, AssignmentStatement(target, rhs), st).st;
            ReadInteger(after, entry.value) == ReadInteger(st, entry.value)
            || (source.Ok? && source.value.IntValue? && Lookup(st.env, target) == Some(entry.value))
  {
    AssignmentReachesExactlyTheSharers(loops, d, target, rhs, st, defs, entry);
    AwaitFreeKeepsStore(loops, d, rhs, st.(steps := st.steps + 1));
    assert Sound(entry.value, |st.store|, defs);
  }

  /**
    A declared integer gets a cell that no binding made before can reach, exactly when it has an
    initialiser whose value is not void; otherwise it aliases the type's default value.
   */
  lemma {:induction false} DeclaredIntegerIsFreshIffInitialised(
      loops: nat, d: nat, name: string, init: Option<Expr>, st: State, defs: seq<Workflow>)
    requires WellFormed(st, defs) && Closed(defs)
    requires Exec(loops, d, VariableDeclaration(name, "integer", init), st).Ok?
    ensures var after := Exec(loops, d, VariableDeclaration(name, "integer", init), st).st;
            var started := st.(steps := st.steps + 1);
            var initialised :=
              && init.Some? && EvalExpr(loops, d, init.value, started).Ok?
              && !EvalExpr(loops, d, init.value, started).value.VoidValue?;
            && |after.env| == |st.env| + 1 && after.env[..|st.env|] == st.env
            && after.env[|st.env|].name == name && after.env[|st.env|].value.IntValue?
            && after.env[|st.env|].value.cell < |after.store|
            && (initialised <==> |st.store| <= after.env[|st.env|].value.cell)
            && (!initialised <==> after.env[|st.env|].value.cell == DEFAULT_INTEGER)
            && (initialised ==> forall e | e in st.env :: e.value != after.env[|st.env|].value)
  {
    var started := st.(steps := st.steps + 1);
    if init.Some? {
      ExprRuns(loops, d, init.value, started, defs);
    }
    StmtRuns(loops, d, VariableDeclaration(name, "integer", init), st, defs);
    forall e | e in st.env && e.value.IntValue? ensures e.value.cell < |st.store| {
      assert Sound(e.value, |st.store|, defs);
    }
  }

  // ---------- arguments ----------

  /** The argument an input takes: the first one of its name, else the one at its position. */
  function Chosen(args: seq<Argument>, name: string, k: nat): (j: nat)
    requires k < |args|
    ensures j < |args|
    ensures FindArgument(args, name) == if args[j].name == Some(name) then Some(args[j].value) else None
    ensures args[j].name == Some(name) ==> forall i | 0 <= i < j :: args[i].name != Some(name)
  {
    if FindArgument(args, name).None? then UnnamedStaysUnnamed(args, name, k); k else FirstNamed(args, name)
  }

  function FirstNamed(args: seq<Argument>, name: string): (j: nat)
    requires FindArgument(args, name).Some?
    ensures j < |args| && args[j].name == Some(name) && FindArgument(args, name) == Some(args[j].value)
    ensures forall i | 0 <= i < j :: args[i].name != Some(name)
  {
    if args[0].name == Some(name) then 0 else 1 + FirstNamed(args[1..], name)
  }

  lemma {:induction false} UnnamedStaysUnnamed(args: seq<Argument>, name: string, k: nat)
    requires FindArgument(args, name).None? && k < |args|
    ensures args[k].name != Some(name)
  {
    if k > 0 {
      UnnamedStaysUnnamed(args[1..], name, k - 1);
    }
  }

  /** The value an input is bound to. */
  function InputValue(inputs: seq<Declaration>, args: seq<Argument>, k: nat): Value
    requires k < |inputs| == |args|
  {
    args[Chosen(args, inputs[k].name, k)].value
  }

  /** The input has a known type, which is that of its value. */
  predicate InputFits(inputs: seq<Declaration>, args: seq<Argument>, k: nat)
    requires k < |inputs| == |args|
  {
    FindType(inputs[k].typeName) == Some(TypeOf(InputValue(inputs, args, k)))
  }

  /**
    The inputs are bound exactly when each has the type of its argument; then every input is bound,
    in order and at its place, to the argument of its name or else of its position, and nothing else
    changes.
   */
  lemma {:induction false} InputsAreBoundInOrder(inputs: seq<Declaration>, args: seq<Argument>, index: nat, st: State)
    requires index <= |inputs| == |args|
    ensures var r := BindInputs(inputs, args, index, st);
            && (r.Ok? <==> forall k | index <= k < |inputs| :: InputFits(inputs, args, k))
            && (r.Ok? ==>
                  && r.st == st.(env := r.st.env) && st.env <= r.st.env
                  && |r.st.env| == |st.env| + |inputs| - index
                  && forall k | index <= k < |inputs| ::
                       r.st.env[|st.env| - index + k] == Entry(inputs[k].name, InputValue(inputs, args, k)))
    decreases |inputs| - index
  {
    if index < |inputs| {
      var value := InputValue(inputs, args, index);
      var bound := Bind(st, inputs[index].name, value);
      InputsAreBoundInOrder(inputs, args, index + 1, bound);
      var r := BindInputs(inputs, args, index, st);
      assert r ==
        if FindType(inputs[index].typeName).None? then Fail(UnknownType, st.steps)
        else if FindType(inputs[index].typeName).value != TypeOf(value) then Fail(ArgumentTypeMismatch, st.steps)
        else BindInputs(inputs, args, index + 1, bound);
      if InputFits(inputs, args, index) && r.Ok? {
        forall k | index <= k < |inputs|
          ensures r.st.env[|st.env| - index + k] == Entry(inputs[k].name, InputValue(inputs, args, k))
        {
          if k > index {
            assert r.st.env[|bound.env| - (index + 1) + k] == Entry(inputs[k].name, InputValue(inputs, args, k));
          } else {
            assert bound.env[|st.env|] == r.st.env[|st.env|];
          }
        }
      }
    }
  }

  /** Evaluating arguments keeps their names, and passes a variable's own value, cell and all. */
  lemma {:induction false} VariablesArePassedAsTheyAre(
      loops: nat, d: nat, arguments: seq<CallArgument>, st: State, defs: seq<Workflow>, k: nat)
    requires WellFormed(st, defs) && Closed(defs) && k < |arguments| && EvalArguments(loops, d, arguments, st).Ok?
    ensures var args := EvalArguments(loops, d, arguments, st).value;
            && |args| == |arguments| && args[k].name == arguments[k].name
            && (arguments[k].value.Identifier? ==> Lookup(st.env, arguments[k].value.name) == Some(args[k].value))
    decreases arguments
  {
    ExprRuns(loops, d, arguments[0].value, st, defs);
    var r := EvalExpr(loops, d, arguments[0].value, st);
    var rest := EvalArguments(loops, d, arguments[1..], r.st);
    ArgumentCount(loops, d, arguments[1..], r.st);
    assert EvalArguments(loops, d, arguments, st).value == [Argument(arguments[0].name, r.value)] + rest.value;
    if k > 0 {
      VariablesArePassedAsTheyAre(loops, d, arguments[1..], r.st, defs, k - 1);
    }
  }

  lemma {:induction false} ArgumentCount(loops: nat, d: nat, arguments: seq<CallArgument>, st: State)
    ensures var r := EvalArguments(loops, d, arguments, st); r.Ok? ==> |r.value| == |arguments|
  {
    if arguments != [] {
      var r := EvalExpr(loops, d, arguments[0].value, st);
      if r.Ok? {
        ArgumentCount(loops, d, arguments[1..], r.st);
      }
    }
  }

  /**
    A workflow's input shares the cell of the variable passed for it, by name or by position, among
    any number of inputs and arguments: for every input there is the call argument it takes, and if
    that names a variable, the input is bound to the variable's own value.
   */
  lemma {:induction false} ArgumentsShareTheirCell(
      loops: nat, d: nat, arguments: seq<CallArgument>, st: State, defs: seq<Workflow>,
      w: Workflow, inner: State, k: nat) returns (j: nat)
    requires WellFormed(st, defs) && Closed(defs) && EvalArguments(loops, d, arguments, st).Ok?
    requires BindArguments(w, EvalArguments(loops, d, arguments, st).value, inner).Ok?
    requires w.signature.Some? && k < |w.signature.value.inputs|
    ensures var args := EvalArguments(loops, d, arguments, st).value;
            var input := w.signature.value.inputs[k];
            var bound := BindArguments(w, args, inner).st;
            && j < |arguments| == |w.signature.value.inputs| && |bound.env| == |inner.env| + |arguments|
            && (if arguments[j].name == Some(input.name)
                then forall i | 0 <= i < j :: arguments[i].name != Some(input.name)
                else j == k && forall a | a in arguments :: a.name != Some(input.name))
            && bound.env[|inner.env| + k].name == input.name
            && (arguments[j].value.Identifier? ==>
                  Lookup(st.env, arguments[j].value.name) == Some(bound.env[|inner.env| + k].value))
  {
    var args := EvalArguments(loops, d, arguments, st).value;
    var inputs := w.signature.value.inputs;
    ArgumentCount(loops, d, arguments, st);
    InputsAreBoundInOrder(inputs, args, 0, inner);
    j := Chosen(args, inputs[k].name, k);
    VariablesArePassedAsTheyAre(loops, d, arguments, st, defs, j);
    forall i | 0 <= i < |arguments| ensures args[i].name == arguments[i].name {
      VariablesArePassedAsTheyAre(loops, d, arguments, st, defs, i);
    }
    if args[j].name != Some(inputs[k].name) {
      forall i | 0 <= i < |arguments| ensures arguments[i].name != Some(inputs[k].name) {
        UnnamedStaysUnnamed(args, inputs[k].name, i);
      }
    }
  }

  // ---------- scoping ----------

  /** Scoping is dynamic: a workflow resolves a name it does not bind to the latest binding of its callers. */
  lemma {:induction false} CalleeSeesCallersBindings(w: Workflow, args: seq<Argument>, st: State, name: string)
    requires BindArguments(w, args, st).Ok?
    requires w.signature.Some? ==> forall input | input in w.signature.value.inputs :: input.name != name
    ensures Lookup(BindArguments(w, args, st).st.env, name) == Lookup(st.env, name)
  {
    if w.signature.Some? {
      BoundInputsLeaveOtherNames(w.signature.value.inputs, args, 0, st, name);
    }
  }

  lemma {:induction false} BoundInputsLeaveOtherNames(
      inputs: seq<Declaration>, args: seq<Argument>, index: nat, st: State, name: string)
    requires index <= |inputs| == |args| && BindInputs(inputs, args, index, st).Ok?
    requires forall input | input in inputs :: input.name != name
    ensures Lookup(BindInputs(inputs, args, index, st).st.env, name) == Lookup(st.env, name)
    decreases |inputs| - index
  {
    if index < |inputs| {
      var named := FindArgument(args, inputs[index].name);
      var bound := Bind(st, inputs[index].name, if named.Some? then named.value else args[index].value);
      assert bound.env[..|bound.env| - 1] == st.env;
      BoundInputsLeaveOtherNames(inputs, args, index + 1, bound, name);
    }
  }
}
