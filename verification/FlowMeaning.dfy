/** What the constructs of the flow language mean, said without the functions that evaluate them piece by piece. */
module FlowMeaning {
  import opened Wrappers
  import opened FlowSyntax
  import opened FlowSemantics
  import opened FlowLaws
  import opened Sequences

  // ---------- literals and names ----------

  /** Literals give the value they spell, an integer in a cell of its own. */
  lemma {:induction false} LiteralsGiveTheirValue(loops: nat, d: nat, e: Expr, st: State)
    ensures var r := EvalExpr(loops, d, e, st);
            match e
            case BoolLiteral(b) => r == Ok(BoolValue(b), st)
            case IntLiteral(i) => r == Ok(IntValue(|st.store|), st.(store := st.store + [i]))
            case StringLiteral(s) => r == Ok(StringValue(s), st)
            case DurationLiteral(count) => r == Ok(DurationValue(count), st)
            case _ => true
  {
  }

  /** The binding at `k` is the last one of its name. */
  predicate LatestAt(env: seq<Entry>, name: string, k: nat) {
    k < |env| && env[k].name == name && forall j | k < j < |env| :: env[j].name != name
  }

  /** A name gives its latest binding, whichever block or workflow made it. */
  lemma {:induction false} NamesGiveTheirLatestBinding(loops: nat, d: nat, name: string, st: State) returns (k: nat)
    ensures var r := EvalExpr(loops, d, Identifier(name), st);
            if LatestAt(st.env, name, k) then r == Ok(st.env[k].value, st)
            else r == Fail(UndeclaredIdentifier, st.steps) && forall j | 0 <= j < |st.env| :: st.env[j].name != name
  {
    k := Latest(st.env, name);
  }

  lemma {:induction false} Latest(env: seq<Entry>, name: string) returns (k: nat)
    ensures if Lookup(env, name).Some? then LatestAt(env, name, k) && env[k].value == Lookup(env, name).value
            else forall j | 0 <= j < |env| :: env[j].name != name
  {
    k := 0;
    if env != [] {
      var rest := env[..|env| - 1];
      if env[|env| - 1].name == name {
        k := |env| - 1;
      } else {
        k := Latest(rest, name);
        assert forall j | 0 <= j < |rest| :: rest[j] == env[j];
      }
    }
  }

  // ---------- operators ----------

  /** The operand and its sign in a sum. */
  function Signed(o: Operation): int
    requires o.term.IntLiteral?
  {
    if o.op == Minus then -o.term.i else o.term.i
  }

  /** The operations add and subtract integer literals. */
  predicate Additive(ops: seq<Operation>) {
    forall k | 0 <= k < |ops| :: (ops[k].op == Plus || ops[k].op == Minus) && ops[k].term.IntLiteral?
  }

  /** The sum of the first `k` signed operands. */
  function Sum(ops: seq<Operation>, k: nat): int
    requires Additive(ops) && k <= |ops|
  {
    if k == 0 then 0 else Sum(ops, k - 1) + Signed(ops[k - 1])
  }

  /** Evaluating has added cells and changed nothing else. */
  predicate OnlyAddsCells(st: State, after: State) {
    st.store <= after.store && after == st.(store := after.store)
  }

  /**
    An operator takes its operands from left to right and reads both only then. Sums and differences
    that fit 64 bits get a cell of their own, comparisons compare; nothing but integers has operators.
   */
  lemma {:induction false} OperatorsAreArithmetic(
      loops: nat, d: nat, left: Expr, op: BinaryOp, right: Expr, st: State)
    requires var l := EvalExpr(loops, d, left, st); l.Ok? && EvalExpr(loops, d, right, l.st).Ok?
    ensures var l := EvalExpr(loops, d, left, st);
            var r := EvalExpr(loops, d, right, l.st);
            var result := EvalExpr(loops, d, Chain(left, [Operation(op, right)]), st);
            match (ReadInteger(r.st, l.value), ReadInteger(r.st, r.value))
            case (Some(a), Some(b)) =>
              && (op == Plus || op == Minus ==>
                    var i := if op == Plus then a + b else a - b;
                    if -0x8000_0000_0000_0000 <= i < 0x8000_0000_0000_0000 then
                      && result.Ok? && OnlyAddsCells(r.st, result.st) && result.st.store == r.st.store + [i]
                      && result.value == IntValue(|r.st.store|)
                    else result == Fail(IntegerOverflow, r.st.steps))
              && (op != Plus && op != Minus ==> result.Ok? && result.st == r.st && result.value.BoolValue?)
              && (op == Less ==> (result.value.b <==> a < b))
              && (op == LessEq ==> (result.value.b <==> a <= b))
              && (op == Greater ==> (result.value.b <==> a > b))
              && (op == GreaterEq ==> (result.value.b <==> a >= b))
              && (op == Eq ==> (result.value.b <==> a == b))
              && (op == NotEq ==> (result.value.b <==> a != b))
            case _ => result == Fail(OperatorNotFound, r.st.steps)
  {
    var l := EvalExpr(loops, d, left, st);
    var r := EvalExpr(loops, d, right, l.st);
    assert EvalExpr(loops, d, Chain(left, [Operation(op, right)]), st)
        == EvalTerms(loops, d, l.value, [Operation(op, right)], l.st);
    TermFirst(loops, d, l.value, Operation(op, right), [], l.st);
    assert [Operation(op, right)] + [] == [Operation(op, right)];
  }

  lemma {:induction false} TermFirst(
      loops: nat, d: nat, lhs: Value, o: Operation, rest: seq<Operation>, st: State)
    requires EvalExpr(loops, d, o.term, st).Ok?
    ensures var r := EvalExpr(loops, d, o.term, st);
            var v := ApplyBinary(o.op, lhs, r.value, r.st);
            EvalTerms(loops, d, lhs, [o] + rest, st) ==
            if v.Ok? then EvalTerms(loops, d, v.value, rest, v.st) else v
  {
    assert ([o] + rest)[0] == o && ([o] + rest)[1..] == rest;
  }

  /** Operators of one level associate to the left. */
  lemma {:induction false} ChainsAssociateLeft(
      loops: nat, d: nat, first: Expr, ops: seq<Operation>, last: Operation, st: State)
    ensures EvalExpr(loops, d, Chain(first, ops + [last]), st) ==
            EvalExpr(loops, d, Chain(Chain(first, ops), [last]), st)
  {
    var l := EvalExpr(loops, d, first, st);
    if l.Ok? {
      LastTerm(loops, d, l.value, ops, last, l.st);
    }
  }

  lemma {:induction false} LastTerm(
      loops: nat, d: nat, lhs: Value, ops: seq<Operation>, last: Operation, st: State)
    ensures var r := EvalTerms(loops, d, lhs, ops, st);
            EvalTerms(loops, d, lhs, ops + [last], st) ==
            if r.Ok? then EvalTerms(loops, d, r.value, [last], r.st) else r
    decreases |ops|
  {
    if ops == [] {
      assert ops + [last] == [last];
    } else {
      assert (ops + [last])[0] == ops[0] && (ops + [last])[1..] == ops[1..] + [last];
      var r := EvalExpr(loops, d, ops[0].term, st);
      if r.Ok? {
        var v := ApplyBinary(ops[0].op, lhs, r.value, r.st);
        if v.Ok? {
          LastTerm(loops, d, v.value, ops[1..], last, v.st);
        }
      }
    }
  }

  /** Every sum along the way fits 64 bits. */
  predicate SumsFit(a: int, ops: seq<Operation>)
    requires Additive(ops)
  {
    forall k | 0 < k <= |ops| :: InInt64(a + Sum(ops, k))
  }

  /** A chain of additions and subtractions of literals reads their signed sum, unless a partial sum overflows. */
  lemma {:induction false} ChainsAreSignedSums(loops: nat, d: nat, a: int, ops: seq<Operation>, st: State)
    requires Additive(ops)
    ensures var r := EvalExpr(loops, d, Chain(IntLiteral(a), ops), st);
            if SumsFit(a, ops) then
              r.Ok? && OnlyAddsCells(st, r.st) && ReadInteger(r.st, r.value) == Some(a + Sum(ops, |ops|))
              && r.value.IntValue? && |st.store| <= r.value.cell < |r.st.store|
            else r == Fail(IntegerOverflow, st.steps)
    decreases |ops|
  {
    if ops == [] {
      assert EvalExpr(loops, d, IntLiteral(a), st) == Ok(IntValue(|st.store|), st.(store := st.store + [a]));
    } else {
      var rest, last := ops[..|ops| - 1], ops[|ops| - 1];
      assert ops == rest + [last];
      SumOfPrefix(ops, |rest|);
      ChainsAssociateLeft(loops, d, IntLiteral(a), rest, last, st);
      ChainsAreSignedSums(loops, d, a, rest, st);
      var l := EvalExpr(loops, d, Chain(IntLiteral(a), rest), st);
      OneMoreSum(a, ops);
      if l.Ok? {
        OneMoreLiteral(loops, d, Chain(IntLiteral(a), rest), last.op, last.term.i, st);
      }
    }
  }

  lemma {:induction false} OneMoreLiteral(loops: nat, d: nat, left: Expr, op: BinaryOp, i: int, st: State)
    requires (op == Plus || op == Minus) && EvalExpr(loops, d, left, st).Ok?
    requires var l := EvalExpr(loops, d, left, st); l.value.IntValue? && l.value.cell < |l.st.store|
    ensures var l := EvalExpr(loops, d, left, st);
            var a := l.st.store[l.value.cell];
            var sum := if op == Minus then a - i else a + i;
            var r := EvalExpr(loops, d, Chain(left, [Operation(op, IntLiteral(i))]), st);
            if InInt64(sum) then
              r == Ok(IntValue(|l.st.store| + 1), l.st.(store := l.st.store + [i] + [sum]))
            else r == Fail(IntegerOverflow, l.st.steps)
  {
    var l := EvalExpr(loops, d, left, st);
    var more := l.st.(store := l.st.store + [i]);
    assert EvalExpr(loops, d, IntLiteral(i), l.st) == Ok(IntValue(|l.st.store|), more);
    OperatorsAreArithmetic(loops, d, left, op, IntLiteral(i), st);
  }

  lemma {:induction false} OneMoreSum(a: int, ops: seq<Operation>)
    requires Additive(ops) && ops != []
    ensures SumsFit(a, ops) <==> SumsFit(a, ops[..|ops| - 1]) && InInt64(a + Sum(ops, |ops|))
  {
    var rest := ops[..|ops| - 1];
    forall k | 0 <= k < |ops| ensures Sum(rest, k) == Sum(ops, k) {
      SumOfPrefix(ops, k);
    }
    if SumsFit(a, rest) && InInt64(a + Sum(ops, |ops|)) {
      forall k | 0 < k <= |ops| ensures InInt64(a + Sum(ops, k)) {
        assert k < |ops| ==> InInt64(a + Sum(rest, k));
      }
    }
    if SumsFit(a, ops) {
      forall k | 0 < k <= |rest| ensures InInt64(a + Sum(rest, k)) {
        assert InInt64(a + Sum(ops, k));
      }
    }
  }

  lemma {:induction false} SumOfPrefix(ops: seq<Operation>, k: nat)
    requires Additive(ops) && ops != [] && k < |ops|
    ensures Sum(ops[..|ops| - 1], k) == Sum(ops, k)
  {
    if k > 0 {
      SumOfPrefix(ops, k - 1);
    }
  }

  // ---------- if ----------

  /** The state after evaluating conditions that are all false and raise no signal. */
  function AllFalse(loops: nat, d: nat, blocks: seq<ConditionBlock>, st: State): Option<State> {
    if blocks == [] then Some(st) else
    match EvalExpr(loops, d, blocks[0].condition, st)
    case Ok(BoolValue(false), st1) => if st1.policy == Stay then AllFalse(loops, d, blocks[1..], st1) else None
    case _ => None
  }

  /**
    An if statement is decided by the first of its conditions that is not simply false, at `k`: with the
    conditions before it evaluated and nothing else, it is the block of that condition if it is true.
    If all are false it is the else block, or nothing; a false condition that has raised a signal ends it.
   */
  lemma {:induction false} IfRunsOneBranch(
      loops: nat, d: nat, first: ConditionBlock, elifs: seq<ConditionBlock>, otherwise: seq<Stmt>, st: State)
      returns (k: nat)
    ensures k <= 1 + |elifs| && AllFalse(loops, d, ([first] + elifs)[..k], st.(steps := st.steps + 1)).Some?
    ensures var reached := AllFalse(loops, d, ([first] + elifs)[..k], st.(steps := st.steps + 1)).value;
            var r := Exec(loops, d, IfBlock(first, elifs, otherwise), st);
            if k == 1 + |elifs| then
              r == if otherwise == [] then Ok((), reached) else ExecBlock(loops, d, otherwise, reached)
            else
              match EvalExpr(loops, d, ([first] + elifs)[k].condition, reached)
              case Ok(BoolValue(true), st1) => r == ExecBlock(loops, d, ([first] + elifs)[k].statements, st1)
              case Ok(BoolValue(false), st1) => st1.policy != Stay && r == Ok((), st1)
              case Ok(_, st1) => r == Fail(NotABoolean, st1.steps)
              case Fail(error, steps) => r == Fail(error, steps)
  {
    var started := st.(steps := st.steps + 1);
    var s := IfBlock(first, elifs, otherwise);
    assert Exec(loops, d, s, st) == ExecIf(loops, d, s, started);
    FirstCondition(loops, d, s, started);
    assert ([first] + elifs)[0] == first;
    var c := EvalExpr(loops, d, first.condition, started);
    if c.Ok? && c.value == BoolValue(false) && c.st.policy == Stay {
      var j := ElifsRunOneBlock(loops, d, elifs, c.st);
      k := j + 1;
      var blocks := ([first] + elifs)[..k];
      assert blocks[0] == first && blocks[1..] == elifs[..j];
      assert AllFalse(loops, d, blocks, started) == AllFalse(loops, d, elifs[..j], c.st);
      assert j < |elifs| ==> ([first] + elifs)[k] == elifs[j];
    } else {
      k := 0;
      assert ([first] + elifs)[..0] == [];
    }
  }

  lemma {:induction false} FirstCondition(loops: nat, d: nat, s: Stmt, st: State)
    requires s.IfBlock?
    ensures var r := ExecIf(loops, d, s, st);
            match EvalExpr(loops, d, s.ifBlock.condition, st)
            case Ok(BoolValue(true), st1) => r == ExecBlock(loops, d, s.ifBlock.statements, st1)
            case Ok(BoolValue(false), st1) =>
              if st1.policy != Stay then r == Ok((), st1) else
              (match ExecElifs(loops, d, s.elifBlocks, st1)
               case Ok(finished, st2) =>
                 r == if finished || s.elseBlock == [] then Ok((), st2) else ExecBlock(loops, d, s.elseBlock, st2)
               case Fail(error, steps) => r == Fail(error, steps))
            case Ok(_, st1) => r == Fail(NotABoolean, st1.steps)
            case Fail(error, steps) => r == Fail(error, steps)
  {
    var c := ExecCondition(loops, d, s.ifBlock, st);
    assert c.Ok? || c.Fail?;
  }

  lemma {:induction false} ElifsRunOneBlock(loops: nat, d: nat, elifs: seq<ConditionBlock>, st: State) returns (k: nat)
    ensures k <= |elifs| && AllFalse(loops, d, elifs[..k], st).Some?
    ensures var reached := AllFalse(loops, d, elifs[..k], st).value;
            var r := ExecElifs(loops, d, elifs, st);
            if k == |elifs| then r == Ok(false, reached)
            else
              match EvalExpr(loops, d, elifs[k].condition, reached)
              case Ok(BoolValue(true), st1) =>
                r == (match ExecBlock(loops, d, elifs[k].statements, st1)
                      case Ok(_, st2) => Ok(true, st2)
                      case Fail(error, steps) => Fail(error, steps))
              case Ok(BoolValue(false), st1) => st1.policy != Stay && r == Ok(true, st1)
              case Ok(_, st1) => r == Fail(NotABoolean, st1.steps)
              case Fail(error, steps) => r == Fail(error, steps)
  {
    k := 0;
    if elifs != [] {
      var c := EvalExpr(loops, d, elifs[0].condition, st);
      if c.Ok? && c.value == BoolValue(false) && c.st.policy == Stay {
        var j := ElifsRunOneBlock(loops, d, elifs[1..], c.st);
        k := j + 1;
        assert elifs[..k][0] == elifs[0] && elifs[..k][1..] == elifs[1..][..j];
      }
    }
  }

  // ---------- repeat ----------

  /** A repeat block whose iterations raise no signal runs its body as often as the loop limit says. */
  lemma {:induction false} QuietRepeatsRunToTheLimit(loops: nat, d: nat, body: seq<Stmt>, st: State)
    requires var started := st.(steps := st.steps + 1);
             forall k | 0 <= k < loops :: Quiet(Iterations(loops, d, body, k, started))
    ensures Exec(loops, d, RepeatBlock(body), st) == Iterations(loops, d, body, loops, st.(steps := st.steps + 1))
  {
    var started := st.(steps := st.steps + 1);
    assert Exec(loops, d, RepeatBlock(body), st) == ExecRepeat(loops, d, body, loops, started);
    RepeatStopsAtFirstSignal(loops, d, body, loops, loops, started);
  }

  // ---------- blocks ----------

  /** A block takes its bindings with it and leaves the signal of its statements, or else the one pending before. */
  lemma {:induction false} BlocksKeepPendingSignals(loops: nat, d: nat, ss: seq<Stmt>, st: State)
    ensures match ExecStmts(loops, d, ss, Entered(st))
            case Ok(_, done) =>
              var r := ExecBlock(loops, d, ss, st);
              && r.Ok? && r.st.env == st.env && r.st.base == st.base && r.st.result == done.result
              && r.st.store == done.store && r.st.steps == done.steps
              && (done.policy != Stay ==> r.st.policy == done.policy)
              && (done.policy == Stay ==> r.st.policy == st.policy)
            case Fail(error, steps) => ExecBlock(loops, d, ss, st) == Fail(error, steps)
  {
  }

  // ---------- types ----------

  /** The name of a value's type; workflows, invocations and functions cannot be told apart. */
  predicate HasType(v: Value, name: string) {
    match v
    case VoidValue => name == "void"
    case BoolValue(_) => name == "boolean"
    case IntValue(_) => name == "integer"
    case StringValue(_) => name == "string"
    case DurationValue(_) => name == "duration"
    case ErrorValue(_) => name == "error"
    case _ => name == "workflow"
  }

  predicate IsType(name: string) {
    name in ["void", "boolean", "integer", "string", "duration", "error", "workflow"]
  }

  lemma {:induction false} TypesAreNamed(v: Value, name: string)
    ensures FindType(name).Some? <==> IsType(name)
    ensures FindType(name) == Some(TypeOf(v)) <==> HasType(v, name)
    ensures FindType(name) == Some(VoidType) <==> name == "void"
  {
  }

  /** Values of one type can be assigned to each other, and errors to anything but integers. */
  lemma {:induction false} AssignmentsGoByType(lhs: Value, rhs: Value)
    ensures Assignable(lhs, rhs) <==>
            (exists name | IsType(name) :: HasType(lhs, name) && HasType(rhs, name))
            || (rhs.ErrorValue? && !lhs.IntValue?)
  {
    if Assignable(lhs, rhs) && !rhs.ErrorValue? {
      var name := NameOf(lhs);
      assert IsType(name) && HasType(lhs, name) && HasType(rhs, name);
    } else if Assignable(lhs, rhs) && !lhs.IntValue? {
      assert rhs.ErrorValue?;
    }
  }

  function NameOf(v: Value): (name: string)
    ensures IsType(name) && HasType(v, name)
  {
    match v
    case VoidValue => "void"
    case BoolValue(_) => "boolean"
    case IntValue(_) => "integer"
    case StringValue(_) => "string"
    case DurationValue(_) => "duration"
    case ErrorValue(_) => "error"
    case _ => "workflow"
  }

  // ---------- awaiting ----------

  function InputsOf(w: Workflow): seq<Declaration> {
    if w.signature.Some? then w.signature.value.inputs else []
  }

  /** The type a workflow has declared to return. */
  function DeclaredReturn(w: Workflow): string {
    if w.signature.Some? && w.signature.value.returnType.Some? then w.signature.value.returnType.value else "void"
  }

  /** There is an argument for every input; without a signature, arguments are ignored. */
  predicate Counted(w: Workflow, args: seq<Argument>) {
    w.signature.Some? ==> |args| == |w.signature.value.inputs|
  }

  /** The value of an input is of the type declared. */
  predicate Fits(w: Workflow, args: seq<Argument>, k: nat)
    requires Counted(w, args) && k < |InputsOf(w)|
  {
    HasType(InputValue(InputsOf(w), args, k), InputsOf(w)[k].typeName)
  }

  predicate Callable(w: Workflow, args: seq<Argument>) {
    IsType(DeclaredReturn(w)) && Counted(w, args) && forall k | 0 <= k < |InputsOf(w)| :: Fits(w, args, k)
  }

  /** How the body of a workflow starts: the inputs bound behind the caller's bindings, no signal, no result. */
  function BodyStart(w: Workflow, args: seq<Argument>, caller: State): State
    requires Counted(w, args)
  {
    var inputs := InputsOf(w);
    var bound := seq(|inputs|, k requires 0 <= k < |inputs| => Entry(inputs[k].name, InputValue(inputs, args, k)));
    State(caller.store, caller.env + bound, |caller.env| + |inputs|, Stay, None, caller.steps)
  }

  /** What an await makes of the result a body ended with; all the caller sees of the body is store and steps. */
  function HandedBack(w: Workflow, result: Option<Value>, caller: State, done: State): Outcome<Value> {
    var kept := caller.(store := done.store, steps := done.steps);
    match result
    case Some(v) =>
      if v.ErrorValue? || HasType(v, DeclaredReturn(w)) then Ok(v, kept) else Fail(InvalidReturnType, done.steps)
    case None => if DeclaredReturn(w) == "void" then Ok(VoidValue, kept) else Fail(NoReturnValue, done.steps)
  }

  /** The expression gives the workflow, called with these arguments or, if there are none, uncalled. */
  predicate GivesWorkflow(loops: nat, d: nat, e: Expr, w: Workflow, args: seq<Argument>, st: State) {
    var r := EvalExpr(loops, d, e, st);
    r.Ok? && (r.value == InvocationValue(w, args) || (r.value == WorkflowValue(w) && args == []))
  }

  /** The state in which an await starts the workflow: what is awaited and the timeout have been evaluated. */
  function Caller(loops: nat, d: nat, awaited: Expr, duration: Expr, st: State): Option<State> {
    match EvalExpr(loops, d, awaited, st)
    case Ok(_, st1) =>
      (match EvalExpr(loops, d, duration, st1) case Ok(DurationValue(_), st2) => Some(st2) case _ => None)
    case Fail(_, _) => None
  }

  /** Awaiting a workflow runs its statements on the caller's store and hands back what they returned. */
  lemma {:induction false} AwaitRunsTheWorkflow(
      loops: nat, d: nat, awaited: Expr, duration: Expr, w: Workflow, args: seq<Argument>, st: State)
    requires 0 < d && GivesWorkflow(loops, d, awaited, w, args, st) && Caller(loops, d, awaited, duration, st).Some?
    requires Callable(w, args)
    ensures var caller := Caller(loops, d, awaited, duration, st).value;
            var r := EvalExpr(loops, d, AwaitExpression(awaited, duration), st);
            match ExecStmts(loops, d - 1, w.statements, BodyStart(w, args, caller))
            case Ok(_, done) => r == HandedBack(w, done.result, caller, done)
            case Fail(error, steps) => r == Fail(error, steps)
  {
    var caller := Caller(loops, d, awaited, duration, st).value;
    AwaitInvokes(loops, d, awaited, duration, w, args, st);
    TypesAreNamed(VoidValue, DeclaredReturn(w));
    InputsBind(w, args, caller.(base := |caller.env|, policy := Stay, result := None));
    var bound := BindArguments(w, args, caller.(base := |caller.env|, policy := Stay, result := None)).st;
    assert Entered(bound) == BodyStart(w, args, caller);
    BlocksKeepPendingSignals(loops, d - 1, w.statements, bound);
    BodyRuns(loops, d - 1, w, args, caller);
    var body := ExecStmts(loops, d - 1, w.statements, Entered(bound));
    if body.Ok? {
      ResultsAreChecked(w, body.st.result);
    }
  }

  lemma {:induction false} AwaitInvokes(
      loops: nat, d: nat, awaited: Expr, duration: Expr, w: Workflow, args: seq<Argument>, st: State)
    requires 0 < d && GivesWorkflow(loops, d, awaited, w, args, st) && Caller(loops, d, awaited, duration, st).Some?
    ensures EvalExpr(loops, d, AwaitExpression(awaited, duration), st) ==
            Invoke(loops, d - 1, w, args, Caller(loops, d, awaited, duration, st).value)
  {
    var r := EvalExpr(loops, d, awaited, st);
    assert EvalExpr(loops, d, AwaitExpression(awaited, duration), st) ==
           EvalAwaitable(loops, d, r.value, duration, r.st);
    assert EvalAwaitable(loops, d, r.value, duration, r.st) == EvalAwait(loops, d, duration, w, args, r.st);
  }

  lemma {:induction false} BodyRuns(loops: nat, d: nat, w: Workflow, args: seq<Argument>, caller: State)
    requires ReturnType(w).Some?
    requires BindArguments(w, args, caller.(base := |caller.env|, policy := Stay, result := None)).Ok?
    ensures var bound := BindArguments(w, args, caller.(base := |caller.env|, policy := Stay, result := None)).st;
            match ExecBlock(loops, d, w.statements, bound)
            case Ok(_, done) =>
              Invoke(loops, d, w, args, caller) ==
              (match CheckResult(ReturnType(w).value, done.result)
               case Success(v) => Ok(v, caller.(store := done.store, steps := done.steps))
               case Failure(error) => Fail(error, done.steps))
            case Fail(error, steps) => Invoke(loops, d, w, args, caller) == Fail(error, steps)
  {
    var inner := caller.(base := |caller.env|, policy := Stay, result := None);
    assert RunBody(loops, d, w, args, inner) == ExecBlock(loops, d, w.statements, BindArguments(w, args, inner).st);
    assert Invoke(loops, d, w, args, caller) == RunActivation(loops, d, w, args, ReturnType(w).value, caller);
  }

  lemma {:induction false} InputsBind(w: Workflow, args: seq<Argument>, st: State)
    requires Callable(w, args)
    ensures BindArguments(w, args, st) == Ok((), st.(env := BodyStart(w, args, st).env))
  {
    var inputs := InputsOf(w);
    if w.signature.Some? {
      InputsAreBoundInOrder(inputs, args, 0, st);
      forall k | 0 <= k < |inputs| ensures InputFits(inputs, args, k) {
        assert Fits(w, args, k);
        TypesAreNamed(InputValue(inputs, args, k), inputs[k].typeName);
      }
      var r := BindInputs(inputs, args, 0, st);
      assert r.st.env == BodyStart(w, args, st).env;
      assert r.value == ();
    } else {
      assert BodyStart(w, args, st).env == st.env;
    }
  }

  lemma {:induction false} ResultsAreChecked(w: Workflow, result: Option<Value>)
    requires ReturnType(w).Some?
    ensures CheckResult(ReturnType(w).value, result) ==
            match result
            case Some(v) =>
              if v.ErrorValue? || HasType(v, DeclaredReturn(w)) then Success(v) else Failure(InvalidReturnType)
            case None => if DeclaredReturn(w) == "void" then Success(VoidValue) else Failure(NoReturnValue)
  {
    TypesAreNamed(if result.Some? then result.value else VoidValue, DeclaredReturn(w));
  }

  /** What keeps an awaited value from running, checked in this order; evaluation errors of its parts aside. */
  lemma {:induction false} AwaitRejects(
      loops: nat, d: nat, awaited: Expr, duration: Expr, st: State, w: Workflow, args: seq<Argument>, k: nat)
    requires EvalExpr(loops, d, awaited, st).Ok?
    ensures var a := EvalExpr(loops, d, awaited, st);
            var t := EvalExpr(loops, d, duration, a.st);
            var r := EvalExpr(loops, d, AwaitExpression(awaited, duration), st);
            && (!a.value.InvocationValue? && !a.value.WorkflowValue? ==> r == Fail(NotAwaitable, a.st.steps))
            && (GivesWorkflow(loops, d, awaited, w, args, st) ==>
                  && (t.Fail? ==> r == Fail(t.error, t.steps))
                  && (t.Ok? && !t.value.DurationValue? ==> r == Fail(ExpectedDuration, t.st.steps))
                  && (t.Ok? && t.value.DurationValue? ==>
                        && (d == 0 ==> r == Fail(DepthExceeded, t.st.steps))
                        && (0 < d && !IsType(DeclaredReturn(w)) ==> r == Fail(UnknownType, t.st.steps))
                        && (0 < d && IsType(DeclaredReturn(w)) ==>
                              && (!Counted(w, args) ==> r == Fail(InvalidArgumentCount, t.st.steps))
                              && (FirstMisfit(w, args, k) ==>
                                    r == Fail(if IsType(InputsOf(w)[k].typeName) then ArgumentTypeMismatch
                                              else UnknownType, t.st.steps)))))
  {
    var a := EvalExpr(loops, d, awaited, st);
    var t := EvalExpr(loops, d, duration, a.st);
    assert EvalExpr(loops, d, AwaitExpression(awaited, duration), st) ==
           EvalAwaitable(loops, d, a.value, duration, a.st);
    if GivesWorkflow(loops, d, awaited, w, args, st) {
      assert EvalAwaitable(loops, d, a.value, duration, a.st) == EvalAwait(loops, d, duration, w, args, a.st);
      if 0 < d && t.Ok? && t.value.DurationValue? {
        InvokeRejects(loops, d - 1, w, args, t.st, k);
      }
    }
  }

  /** The first input whose argument is not of the type declared. */
  predicate FirstMisfit(w: Workflow, args: seq<Argument>, k: nat) {
    Counted(w, args) && k < |InputsOf(w)| && !Fits(w, args, k) && forall j | 0 <= j < k :: Fits(w, args, j)
  }

  lemma {:induction false} InvokeRejects(loops: nat, d: nat, w: Workflow, args: seq<Argument>, st: State, k: nat)
    ensures var r := Invoke(loops, d, w, args, st);
            && (!IsType(DeclaredReturn(w)) ==> r == Fail(UnknownType, st.steps))
            && (IsType(DeclaredReturn(w)) && !Counted(w, args) ==> r == Fail(InvalidArgumentCount, st.steps))
            && (IsType(DeclaredReturn(w)) && FirstMisfit(w, args, k) ==>
                  r == Fail(if IsType(InputsOf(w)[k].typeName) then ArgumentTypeMismatch else UnknownType, st.steps))
  {
    TypesAreNamed(VoidValue, DeclaredReturn(w));
    var inner := st.(base := |st.env|, policy := Stay, result := None);
    if ReturnType(w).Some? {
      assert Invoke(loops, d, w, args, st) == RunActivation(loops, d, w, args, ReturnType(w).value, st);
      if !Counted(w, args) {
        assert RunBody(loops, d, w, args, inner) == Fail(InvalidArgumentCount, st.steps);
      } else if FirstMisfit(w, args, k) {
        assert w.signature.Some?;
        forall j | 0 <= j < k ensures HasType(InputValue(InputsOf(w), args, j), InputsOf(w)[j].typeName) {
          assert Fits(w, args, j);
        }
        MisfitIsRejected(InputsOf(w), args, 0, k, inner);
        TypesAreNamed(InputValue(InputsOf(w), args, k), InputsOf(w)[k].typeName);
        assert BindArguments(w, args, inner).Fail?;
        assert RunBody(loops, d, w, args, inner) == BindArguments(w, args, inner);
      }
    }
  }

  lemma {:induction false} MisfitIsRejected(
      inputs: seq<Declaration>, args: seq<Argument>, index: nat, k: nat, st: State)
    requires index <= k < |inputs| == |args|
    requires forall j | index <= j < k :: HasType(InputValue(inputs, args, j), inputs[j].typeName)
    requires !HasType(InputValue(inputs, args, k), inputs[k].typeName)
    ensures BindInputs(inputs, args, index, st) ==
            Fail(if FindType(inputs[k].typeName).Some? then ArgumentTypeMismatch else UnknownType, st.steps)
    decreases k - index
  {
    var value := InputValue(inputs, args, index);
    TypesAreNamed(value, inputs[index].typeName);
    assert BindInputs(inputs, args, index, st) ==
      if FindType(inputs[index].typeName).None? then Fail(UnknownType, st.steps)
      else if FindType(inputs[index].typeName).value != TypeOf(value) then Fail(ArgumentTypeMismatch, st.steps)
      else BindInputs(inputs, args, index + 1, Bind(st, inputs[index].name, value));
    if index < k {
      MisfitIsRejected(inputs, args, index + 1, k, Bind(st, inputs[index].name, value));
    }
  }

  // ---------- calls ----------

  /** Arguments are evaluated one after the other, the last one last, and keep their names. */
  lemma {:induction false} LastArgumentLast(
      loops: nat, d: nat, arguments: seq<CallArgument>, last: CallArgument, st: State)
    ensures EvalArguments(loops, d, arguments + [last], st) ==
            match EvalArguments(loops, d, arguments, st)
            case Ok(args, st1) =>
              (match EvalExpr(loops, d, last.value, st1)
               case Ok(v, st2) => Ok(args + [Argument(last.name, v)], st2)
               case Fail(error, steps) => Fail(error, steps))
            case Fail(error, steps) => Fail(error, steps)
    decreases |arguments|
  {
    if arguments == [] {
      assert [] + [last] == [last] && [last][1..] == [];
      ArgumentFirst(loops, d, [last], st);
      var v := EvalExpr(loops, d, last.value, st);
      if v.Ok? {
        assert EvalArguments(loops, d, [last][1..], v.st) == Ok([], v.st);
        assert [Argument(last.name, v.value)] + [] == [] + [Argument(last.name, v.value)];
      }
    } else {
      assert (arguments + [last])[1..] == arguments[1..] + [last] && (arguments + [last])[0] == arguments[0];
      ArgumentFirst(loops, d, arguments + [last], st);
      ArgumentFirst(loops, d, arguments, st);
      var r := EvalExpr(loops, d, arguments[0].value, st);
      if r.Ok? {
        LastArgumentLast(loops, d, arguments[1..], last, r.st);
        var rest := EvalArguments(loops, d, arguments[1..], r.st);
        if rest.Ok? {
          var v := EvalExpr(loops, d, last.value, rest.st);
          if v.Ok? {
            Associates([Argument(arguments[0].name, r.value)], rest.value, [Argument(last.name, v.value)]);
          }
        }
      }
    }
  }

  lemma {:induction false} ArgumentFirst(loops: nat, d: nat, arguments: seq<CallArgument>, st: State)
    requires arguments != []
    ensures EvalArguments(loops, d, arguments, st) ==
            match EvalExpr(loops, d, arguments[0].value, st)
            case Ok(v, st1) =>
              (match EvalArguments(loops, d, arguments[1..], st1)
               case Ok(rest, st2) => Ok([Argument(arguments[0].name, v)] + rest, st2)
               case Fail(error, steps) => Fail(error, steps))
            case Fail(error, steps) => Fail(error, steps)
  {
    var r := EvalExpr(loops, d, arguments[0].value, st);
    if r.Ok? {
      var rest := EvalArguments(loops, d, arguments[1..], r.st);
      assert EvalArguments(loops, d, arguments, st) == Prepended([Argument(arguments[0].name, r.value)], rest);
      assert rest.Ok? ==> EvalArguments(loops, d, arguments, st).Ok?;
    } else {
      assert EvalArguments(loops, d, arguments, st) == Fail(r.error, r.steps);
    }
  }

  /**
    Calling what the name is bound to: a workflow is packed with its arguments and does not run; the
    built-in functions print, panic, or return their base string; nothing else can be called.
   */
  lemma {:induction false} CallsByCallee(
      loops: nat, d: nat, callee: string, arguments: seq<CallArgument>, st: State)
    ensures var r := EvalExpr(loops, d, FunctionCall(callee, arguments), st);
            match Lookup(st.env, callee)
            case None => r == Fail(UndeclaredIdentifier, st.steps)
            case Some(v) =>
              if !v.WorkflowValue? && !v.FreeFunctionValue? then r == Fail(NotCallable, st.steps) else
              match EvalArguments(loops, d, arguments, st)
              case Fail(error, steps) => r == Fail(error, steps)
              case Ok(args, st1) =>
                && (v.WorkflowValue? ==> r == Ok(InvocationValue(v.workflow, args), st1))
                && (v == FreeFunctionValue(Println) ==> r == Ok(VoidValue, st1))
                && (v == FreeFunctionValue(Panic) ==> r == Fail(Panicked, st1.steps))
                && (v == FreeFunctionValue(StrFormat) ==>
                      && (|args| == 0 || !args[0].value.StringValue? ==> r == Fail(InvalidFormat, st1.steps))
                      && (|args| == 1 && args[0].value.StringValue? ==> r == Ok(args[0].value, st1)))
  {
    assert EvalExpr(loops, d, FunctionCall(callee, arguments), st) == EvalCall(loops, d, callee, arguments, st);
  }

  // ---------- leaving an activation ----------

  /**
    Whatever signal the statements of an awaited workflow reach, at any depth of blocks, the caller gets
    the result that stood when it was raised, and keeps its own bindings, signal and result.
   */
  lemma {:induction false} ActivationAbsorbsTheSignal(
      loops: nat, d: nat, awaited: Expr, duration: Expr, w: Workflow, args: seq<Argument>,
      way: seq<Frame>, s: Stmt, st: State)
    requires 0 < d && GivesWorkflow(loops, d, awaited, w, args, st) && Caller(loops, d, awaited, duration, st).Some?
    requires Callable(w, args) && w.statements == Plug(way, s)
    requires SignalsThere(loops, d - 1, way, s, BodyStart(w, args, Caller(loops, d, awaited, duration, st).value))
    ensures var caller := Caller(loops, d, awaited, duration, st).value;
            var there := Reached(loops, d - 1, way, s, BodyStart(w, args, caller)).value;
            var done := Exec(loops, d - 1, s, there).st;
            EvalExpr(loops, d, AwaitExpression(awaited, duration), st) == HandedBack(w, done.result, caller, done)
  {
    AwaitRunsTheWorkflow(loops, d, awaited, duration, w, args, st);
    var caller := Caller(loops, d, awaited, duration, st).value;
    SignalEndsEveryEnclosingBlock(loops, d - 1, way, s, BodyStart(w, args, caller));
  }

  /** The result with which a statement ends its activation, and the state it leaves. */
  ghost predicate Ends(loops: nat, d: nat, s: Stmt, st: State, result: Option<Value>, done: State) {
    var started := st.(steps := st.steps + 1);
    match s
    case ReturnStatement(e) =>
      result.Some? && EvalExpr(loops, d, e, started) == Ok(result.value, done)
    case RaiseStatement(e) =>
      && result.Some? && result.value.ErrorValue?
      && (|| EvalExpr(loops, d, e, started) == Ok(StringValue(result.value.what), done)
          || EvalExpr(loops, d, e, started) == Ok(result.value, done))
    case ExpressionStatement(TryExpression(e)) =>
      result.Some? && result.value.ErrorValue? && EvalExpr(loops, d, e, started) == Ok(result.value, done)
    case BreakStatement => done == started && result == started.result
    case _ => false
  }

  /**
    A workflow hands back the value of the return, or the error of the raise or try, that its run
    reaches; a break hands back nothing new.
   */
  lemma {:induction false} WorkflowsHandBackWhatTheyReturn(
      loops: nat, d: nat, awaited: Expr, duration: Expr, w: Workflow, args: seq<Argument>,
      way: seq<Frame>, s: Stmt, st: State, result: Option<Value>, done: State)
    requires 0 < d && GivesWorkflow(loops, d, awaited, w, args, st) && Caller(loops, d, awaited, duration, st).Some?
    requires Callable(w, args) && w.statements == Plug(way, s)
    requires var start := BodyStart(w, args, Caller(loops, d, awaited, duration, st).value);
             var there := Reached(loops, d - 1, way, s, start);
             there.Some? && Ends(loops, d - 1, s, there.value, result, done)
    ensures EvalExpr(loops, d, AwaitExpression(awaited, duration), st) ==
            HandedBack(w, result, Caller(loops, d, awaited, duration, st).value, done)
  {
    var start := BodyStart(w, args, Caller(loops, d, awaited, duration, st).value);
    EndingStatementSignals(loops, d - 1, s, Reached(loops, d - 1, way, s, start).value, result, done);
    ActivationAbsorbsTheSignal(loops, d, awaited, duration, w, args, way, s, st);
  }

  lemma {:induction false} EndingStatementSignals(
      loops: nat, d: nat, s: Stmt, st: State, result: Option<Value>, done: State)
    requires Ends(loops, d, s, st, result, done)
    ensures var r := Exec(loops, d, s, st);
            && r.Ok? && r.st == done.(policy := if s.BreakStatement? then Break else Return, result := result)
  {
    if s.ExpressionStatement? {
      assert EvalExpr(loops, d, s.expression, st.(steps := st.steps + 1)) ==
             EvalTry(loops, d, s.expression.attempt, st.(steps := st.steps + 1));
    }
  }

  /** `try` lets every value but an error through; it makes an error the result and goes on with an empty one. */
  lemma {:induction false} TryReturnsErrors(loops: nat, d: nat, e: Expr, st: State)
    ensures var tried := EvalExpr(loops, d, TryExpression(e), st);
            match EvalExpr(loops, d, e, st)
            case Ok(ErrorValue(what), st1) =>
              tried == Ok(ErrorValue(""), st1.(policy := Return, result := Some(ErrorValue(what))))
            case other => tried == other
  {
    assert EvalExpr(loops, d, TryExpression(e), st) == EvalTry(loops, d, e, st);
  }

  /**
    What a statement of one expression is when that fails, or is not for it: an error, and the same for
    every such statement, but only strings and errors can be raised.
   */
  lemma {:induction false} StatementsPassErrorsOn(loops: nat, d: nat, e: Expr, st: State)
    ensures match EvalExpr(loops, d, e, st.(steps := st.steps + 1))
            case Fail(error, steps) =>
              && Exec(loops, d, ExpressionStatement(e), st) == Fail(error, steps)
              && Exec(loops, d, ReturnStatement(e), st) == Fail(error, steps)
              && Exec(loops, d, RaiseStatement(e), st) == Fail(error, steps)
            case Ok(v, st1) =>
              && Exec(loops, d, ExpressionStatement(e), st) == Ok((), st1)
              && (!v.StringValue? && !v.ErrorValue? ==>
                    Exec(loops, d, RaiseStatement(e), st) == Fail(NotRaisable, st1.steps))
  {
  }

  // ---------- declarations ----------

  /** The default value of a type that can be declared. */
  function DefaultOf(name: string): Option<Value> {
    if name == "void" then Some(VoidValue)
    else if name == "boolean" then Some(BoolValue(false))
    else if name == "integer" then Some(IntValue(0))
    else if name == "string" then Some(StringValue(""))
    else if name == "duration" then Some(DurationValue(0))
    else None
  }

  /**
    A declaration binds its name in the current block, where it must be new, to its initial value if that
    is of the type, an integer being copied, or to the type's default value if there is none.
   */
  lemma {:induction false} DeclarationsBindTheirValue(
      loops: nat, d: nat, name: string, typeName: string, init: Option<Expr>, st: State)
    requires st.base <= |st.env|
    ensures var r := Exec(loops, d, VariableDeclaration(name, typeName, init), st);
            var started := st.(steps := st.steps + 1);
            if Lookup(st.env[st.base..], name).Some? then r == Fail(AlreadyDeclared, started.steps)
            else if !IsType(typeName) then r == Fail(UnknownType, started.steps)
            else
              match (if init.Some? then EvalExpr(loops, d, init.value, started) else Ok(VoidValue, started))
              case Fail(error, steps) => r == Fail(error, steps)
              case Ok(v, st1) =>
                var value :=
                  if DefaultOf(typeName).None? then None
                  else if v == VoidValue then DefaultOf(typeName)
                  else if !HasType(v, typeName) then None
                  else if v.IntValue? then Some(IntValue(|st1.store|))
                  else Some(v);
                match value
                case None => r == Fail(InvalidConstructor, st1.steps)
                case Some(bound) =>
                  && r.Ok? && r.st.env == st1.env + [Entry(name, bound)]
                  && r.st == st1.(env := r.st.env, store := r.st.store)
                  && r.st.store == if v.IntValue? then st1.store + [Load(st1.store, v.cell)] else st1.store
  {
    var started := st.(steps := st.steps + 1);
    TypesAreNamed(VoidValue, typeName);
    assert Locals(started) == st.env[st.base..];
    assert Exec(loops, d, VariableDeclaration(name, typeName, init), st) ==
           ExecDeclaration(loops, d, name, typeName, init, started);
  }

  /** A workflow definition binds its name in the current block, where it must be new, to the workflow itself. */
  lemma {:induction false} DefinitionsBindTheWorkflow(loops: nat, d: nat, w: Workflow, st: State)
    requires st.base <= |st.env|
    ensures var r := Exec(loops, d, DefinitionStatement(w), st);
            if Lookup(st.env[st.base..], w.name).Some? then r == Fail(AlreadyDeclared, st.steps + 1)
            else
              && r.Ok? && Lookup(r.st.env, w.name) == Some(WorkflowValue(w))
              && r.st == st.(env := r.st.env, steps := st.steps + 1)
              && forall name :: name != w.name ==> Lookup(r.st.env, name) == Lookup(st.env, name)
  {
    var r := Exec(loops, d, DefinitionStatement(w), st);
    if r.Ok? {
      assert r.st.env[..|r.st.env| - 1] == st.env;
    }
  }
}
