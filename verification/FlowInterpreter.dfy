/**
  The tree-walking interpreter as the source has it: it pushes and pops scopes, raises signals on
  the top scope and shares return cells. Every method is proved to compute what the stack-free
  semantics says, and to leave all scopes below the top, and all other return cells, alone.
 */
module FlowInterpreter {
  import opened Wrappers
  import opened FlowSyntax
  import opened FlowSemantics
  import opened FlowScopes
  import Sem = FlowSemantics

  class Interpreter {
    const scope: EvaluationScope
    const maxLoopCount: nat
    /** The integer storage cells; values refer to them by position. */
    var store: seq<int>
    ghost var steps: nat

    constructor (maxLoopCount: nat, instanceId: int)
      ensures Valid() && fresh(scope) && this.maxLoopCount == maxLoopCount
      ensures Abs() == Initial(instanceId)
    {
      scope := new EvaluationScope();
      this.maxLoopCount := maxLoopCount;
      store := [0, instanceId];
      steps := 0;
      new;
      scope.Add("println", FreeFunctionValue(Println));
      scope.Add("panic", FreeFunctionValue(Panic));
      scope.Add("str_format", FreeFunctionValue(StrFormat));
      scope.Add("instance_id", IntValue(1));
    }

    ghost predicate Valid()
      reads this, scope
    {
      scope.Valid()
    }

    /** The stack-free state this stack of scopes stands for. */
    ghost function Abs(): State
      requires Valid()
      reads this, scope
    {
      var v := scope.Visible();
      State(store, v.env, v.base, v.policy, v.result, steps)
    }

    /** Nothing but the top scope's bindings and policy, its return cell and the store changed. */
    twostate predicate Framed()
      requires old(Valid())
      reads this, scope
    {
      && OnlyTopChanged(old(scope.scopes), scope.scopes)
      && OnlyCellChanged(old(scope.returnCells), scope.returnCells, old(scope.Current().returnCell))
    }

    /** The outcome an evaluation shows to the semantics: its value with the state it left, or its error. */
    ghost function Observed<T>(r: Result<T, EvalError>): Outcome<T>
      requires r.Success? ==> Valid()
      reads this, scope
    {
      match r case Success(v) => Ok(v, Abs()) case Failure(error) => Fail(error, steps)
    }

    // ---------- expressions ----------

    method EvalExpression(d: nat, e: Expr) returns (r: Result<Value, EvalError>)
      requires Valid()
      modifies this, scope
      ensures r.Success? ==> Valid() && Framed()
      ensures Observed(r) == Sem.EvalExpr(maxLoopCount, d, e, old(Abs()))
      decreases d, e, 0, 1
    {
      match e
      case BoolLiteral(b) => return Success(BoolValue(b));
      case IntLiteral(i) =>
        store := store + [i];
        return Success(IntValue(|store| - 1));
      case StringLiteral(s) => return Success(StringValue(s));
      case DurationLiteral(count) => return Success(DurationValue(count));
      case Identifier(name) =>
        var entry := scope.FindEntity(name);
        if entry.None? {
          return Failure(UndeclaredIdentifier);
        }
        return Success(entry.value);
      case Chain(_, _) => r := EvalChain(d, e);
      case FunctionCall(callee, arguments) => r := EvalFunctionCall(d, callee, arguments);
      case AwaitExpression(_, _) => r := EvalAwaitExpression(d, e);
      case TryExpression(attempt) => r := EvalTry(d, attempt);
    }

    method EvalChain(d: nat, e: Expr) returns (r: Result<Value, EvalError>)
      requires Valid() && e.Chain?
      modifies this, scope
      ensures r.Success? ==> Valid() && Framed()
      ensures Observed(r) == Sem.EvalExpr(maxLoopCount, d, e, old(Abs()))
      decreases d, e, 0, 0
    {
      var lhs :- EvalExpression(d, e.first);
      r := EvalTerms(d, lhs, e.terms);
    }

    method EvalAwaitExpression(d: nat, e: Expr) returns (r: Result<Value, EvalError>)
      requires Valid() && e.AwaitExpression?
      modifies this, scope
      ensures r.Success? ==> Valid() && Framed()
      ensures Observed(r) == Sem.EvalExpr(maxLoopCount, d, e, old(Abs()))
      decreases d, e, 0, 0
    {
      var awaitable :- EvalExpression(d, e.awaited);
      r := EvalAwaitable(d, awaitable, e.duration);
    }

    method EvalTry(d: nat, attempt: Expr) returns (r: Result<Value, EvalError>)
      requires Valid()
      modifies this, scope
      ensures r.Success? ==> Valid() && Framed()
      ensures Observed(r) == Sem.EvalTry(maxLoopCount, d, attempt, old(Abs()))
      decreases d, attempt, 1, 0
    {
      var v :- EvalExpression(d, attempt);
      if v.ErrorValue? {
        scope.ReturnValue(v);
        return Success(ErrorValue(""));
      }
      return Success(v);
    }

    method EvalFunctionCall(d: nat, callee: string, arguments: seq<CallArgument>) returns (r: Result<Value, EvalError>)
      requires Valid()
      modifies this, scope
      ensures r.Success? ==> Valid() && Framed()
      ensures Observed(r) == Sem.EvalCall(maxLoopCount, d, callee, arguments, old(Abs()))
      decreases d, arguments, 1, 0
    {
      var callable := scope.FindEntity(callee);
      if callable.None? {
        return Failure(UndeclaredIdentifier);
      }
      if callable.value.FreeFunctionValue? {
        var inputs :- EvalCallArguments(d, arguments);
        r := CallFreeFunction(callable.value.builtin, inputs);
        return;
      }
      if !callable.value.WorkflowValue? {
        return Failure(NotCallable);
      }
      var args :- EvalCallArguments(d, arguments);
      return Success(InvocationValue(callable.value.workflow, args));
    }

    method CallFreeFunction(f: FreeFunction, args: seq<Argument>) returns (r: Result<Value, EvalError>)
      requires Valid()
      ensures Observed(r) == CallFree(f, args, Abs())
    {
      match f
      case Println => return Success(VoidValue);
      case Panic => return Failure(Panicked);
      case StrFormat =>
        if |args| < 1 || !args[0].value.StringValue? {
          return Failure(InvalidFormat);
        }
        if |args| == 1 {
          return Success(args[0].value);
        }
        return Failure(NotModelled);
    }

    method EvalAwaitable(d: nat, awaitable: Value, duration: Expr) returns (r: Result<Value, EvalError>)
      requires Valid()
      modifies this, scope
      ensures r.Success? ==> Valid() && Framed()
      ensures Observed(r) == Sem.EvalAwaitable(maxLoopCount, d, awaitable, duration, old(Abs()))
      decreases d, duration, 2, 0
    {
      if awaitable.InvocationValue? {
        r := EvalAwait(d, duration, awaitable.definition, awaitable.arguments);
      } else if awaitable.WorkflowValue? {
        r := EvalAwait(d, duration, awaitable.workflow, []);
      } else {
        return Failure(NotAwaitable);
      }
    }

    method EvalTerms(d: nat, first: Value, terms: seq<Operation>) returns (r: Result<Value, EvalError>)
      requires Valid()
      modifies this, scope
      ensures r.Success? ==> Valid() && Framed()
      ensures Observed(r) == Sem.EvalTerms(maxLoopCount, d, first, terms, old(Abs()))
      decreases d, terms, 0, 0
    {
      var lhs, i := first, 0;
      while i < |terms|
        invariant 0 <= i <= |terms|
        invariant Valid() && Framed()
        invariant Sem.EvalTerms(maxLoopCount, d, lhs, terms[i..], Abs())
               == Sem.EvalTerms(maxLoopCount, d, first, terms, old(Abs()))
      {
        assert terms[i] decreases to terms[i].term;
        var rhs :- EvalExpression(d, terms[i].term);
        lhs :- ApplyOperator(terms[i].op, lhs, rhs);
        assert terms[i..][1..] == terms[i + 1..];
        i := i + 1;
      }
      return Success(lhs);
    }

    method ApplyOperator(op: BinaryOp, lhs: Value, rhs: Value) returns (r: Result<Value, EvalError>)
      requires Valid()
      modifies this`store
      ensures Valid()
      ensures Observed(r) == ApplyBinary(op, lhs, rhs, old(Abs()))
    {
      if !lhs.IntValue? || !rhs.IntValue? {
        return Failure(OperatorNotFound);
      }
      var a, b := Load(store, lhs.cell), Load(store, rhs.cell);
      match op
      case Plus => r := MakeInteger(a + b);
      case Minus => r := MakeInteger(a - b);
      case Less => return Success(BoolValue(a < b));
      case LessEq => return Success(BoolValue(a <= b));
      case Greater => return Success(BoolValue(a > b));
      case GreaterEq => return Success(BoolValue(a >= b));
      case Eq => return Success(BoolValue(a == b));
      case NotEq => return Success(BoolValue(a != b));
    }

    method MakeInteger(i: int) returns (r: Result<Value, EvalError>)
      requires Valid()
      modifies this`store
      ensures Valid()
      ensures Observed(r) == IntegerResult(i, old(Abs()))
    {
      if !InInt64(i) {
        return Failure(IntegerOverflow);
      }
      store := store + [i];
      return Success(IntValue(|store| - 1));
    }

    method EvalCallArguments(d: nat, arguments: seq<CallArgument>) returns (r: Result<seq<Argument>, EvalError>)
      requires Valid()
      modifies this, scope
      ensures r.Success? ==> Valid() && Framed()
      ensures Observed(r) == EvalArguments(maxLoopCount, d, arguments, old(Abs()))
      decreases d, arguments, 0, 0
    {
      var args: seq<Argument>, i := [], 0;
      ghost var all := EvalArguments(maxLoopCount, d, arguments, Abs());
      assert arguments[0..] == arguments && (all.Ok? ==> [] + all.value == all.value);
      while i < |arguments|
        invariant 0 <= i <= |arguments|
        invariant Valid() && Framed()
        invariant EvalArguments(maxLoopCount, d, arguments, old(Abs()))
               == Prepended(args, EvalArguments(maxLoopCount, d, arguments[i..], Abs()))
      {
        assert arguments[i] decreases to arguments[i].value;
        var v :- EvalExpression(d, arguments[i].value);
        assert arguments[i..][1..] == arguments[i + 1..];
        ghost var rest := EvalArguments(maxLoopCount, d, arguments[i + 1..], Abs());
        var argument := Argument(arguments[i].name, v);
        assert rest.Ok? ==> args + ([argument] + rest.value) == (args + [argument]) + rest.value;
        args := args + [argument];
        i := i + 1;
      }
      assert args + [] == args;
      return Success(args);
    }

    /** Awaiting a workflow: the timeout is evaluated first, then the workflow runs to completion. */
    method EvalAwait(d: nat, duration: Expr, w: Workflow, args: seq<Argument>) returns (r: Result<Value, EvalError>)
      requires Valid()
      modifies this, scope
      ensures r.Success? ==> Valid() && Framed()
      ensures Observed(r) == Sem.EvalAwait(maxLoopCount, d, duration, w, args, old(Abs()))
      decreases d, duration, 1, 0
    {
      var timeout :- EvalExpression(d, duration);
      if !timeout.DurationValue? {
        return Failure(ExpectedDuration);
      }
      if d == 0 {
        return Failure(DepthExceeded);
      }
      r := EvalInvocation(d - 1, w, args);
    }

    method EvalInvocation(d: nat, w: Workflow, args: seq<Argument>) returns (r: Result<Value, EvalError>)
      requires Valid()
      modifies this, scope
      ensures r.Success? ==> Valid() && Framed()
      ensures r.Success? ==> scope.scopes == old(scope.scopes)
      ensures r.Success? ==> OnlyCellChanged(old(scope.returnCells), scope.returnCells, |old(scope.returnCells)|)
      ensures Observed(r) == Invoke(maxLoopCount, d, w, args, old(Abs()))
      decreases d, w, 2, 0
    {
      var returnType := ReturnType(w);
      if returnType.None? {
        return Failure(UnknownType);
      }
      r := RunActivation(d, w, args, returnType.value);
    }

    /** Runs a workflow in a function scope of its own, which absorbs whatever signal the run ends with. */
    method RunActivation(d: nat, w: Workflow, args: seq<Argument>, returnType: TypeId)
      returns (r: Result<Value, EvalError>)
      requires Valid()
      modifies this, scope
      ensures r.Success? ==> Valid() && scope.scopes == old(scope.scopes)
      ensures r.Success? ==> OnlyCellChanged(old(scope.returnCells), scope.returnCells, |old(scope.returnCells)|)
      ensures Observed(r) == Sem.RunActivation(maxLoopCount, d, w, args, returnType, old(Abs()))
      decreases d, w, 1, 0
    {
      scope.Push(Function);
      var cell := scope.Current().returnCell;
      var _ :- RunBody(d, w, args);
      var result :- CheckResult(returnType, scope.returnCells[cell]);
      LeaveActivation(old(scope.scopes), cell, scope.scopes, |scope.returnCells|);
      scope.Pop();
      return Success(result);
    }

    /** What happens inside the new function scope: the inputs are bound and the body runs in a block. */
    method RunBody(d: nat, w: Workflow, args: seq<Argument>) returns (r: Result<(), EvalError>)
      requires Valid()
      modifies this, scope
      ensures r.Success? ==> Valid() && Framed()
      ensures Observed(r) == Sem.RunBody(maxLoopCount, d, w, args, old(Abs()))
      decreases d, w, 0, 0
    {
      var _ :- BindArguments(w, args);
      r := EvalScope(d, w.statements, Local);
    }

    method BindArguments(w: Workflow, args: seq<Argument>) returns (r: Result<(), EvalError>)
      requires Valid()
      modifies scope
      ensures r.Success? ==> Valid() && Framed()
      ensures Observed(r) == Sem.BindArguments(w, args, old(Abs()))
    {
      if w.signature.None? {
        return Success(());
      }
      var inputs := w.signature.value.inputs;
      if |args| != |inputs| {
        return Failure(InvalidArgumentCount);
      }
      var index := 0;
      while index < |inputs|
        invariant 0 <= index <= |inputs|
        invariant Valid() && Framed()
        invariant BindInputs(inputs, args, index, Abs()) == BindInputs(inputs, args, 0, old(Abs()))
      {
        var named := FindArgument(args, inputs[index].name);
        var argument := if named.Some? then named.value else args[index].value;
        var expected := FindType(inputs[index].typeName);
        if expected.None? {
          return Failure(UnknownType);
        }
        if expected.value != TypeOf(argument) {
          return Failure(ArgumentTypeMismatch);
        }
        ghost var before := Abs();
        scope.Add(inputs[index].name, argument);
        assert Abs() == Bind(before, inputs[index].name, argument);
        index := index + 1;
      }
      return Success(());
    }

    // ---------- statements ----------

    method EvalScope(d: nat, statements: seq<Stmt>, kind: ScopeType) returns (r: Result<(), EvalError>)
      requires Valid() && kind != Function
      modifies this, scope
      ensures r.Success? ==> Valid() && Framed()
      ensures r.Success? ==> scope.Current().entries == old(scope.Current().entries)
      ensures Observed(r) == ExecBlock(maxLoopCount, d, statements, old(Abs()))
      decreases d, statements, 1, 0
    {
      scope.Push(kind);
      var _ :- EvalStatements(d, statements);
      ghost var inner := Abs();
      LeaveBlock(old(scope.scopes), old(scope.returnCells), kind, scope.scopes, scope.returnCells);
      scope.Pop();
      ghost var outer := old(Abs());
      assert Abs() == inner.(env := outer.env, base := outer.base, policy := Forward(outer.policy, inner.policy));
      return Success(());
    }

    method EvalStatements(d: nat, statements: seq<Stmt>) returns (r: Result<(), EvalError>)
      requires Valid()
      modifies this, scope
      ensures r.Success? ==> Valid() && Framed()
      ensures Observed(r) == ExecStmts(maxLoopCount, d, statements, old(Abs()))
      decreases d, statements, 0, 0
    {
      var i := 0;
      while i < |statements|
        invariant 0 <= i <= |statements|
        invariant Valid() && Framed()
        invariant ExecStmts(maxLoopCount, d, statements[i..], Abs()) ==
                  ExecStmts(maxLoopCount, d, statements, old(Abs()))
      {
        var _ :- EvalStatement(d, statements[i]);
        assert statements[i..][1..] == statements[i + 1..];
        if scope.Current().policy != Stay {
          return Success(());
        }
        i := i + 1;
      }
      return Success(());
    }

    method EvalStatement(d: nat, s: Stmt) returns (r: Result<(), EvalError>)
      requires Valid()
      modifies this, scope
      ensures r.Success? ==> Valid() && Framed()
      ensures Observed(r) == Exec(maxLoopCount, d, s, old(Abs()))
      decreases d, s, 1, 0
    {
      steps := steps + 1;
      match s
      case VariableDeclaration(name, typeName, init) =>
        r := EvalVariableDeclaration(d, name, typeName, init);
      case DefinitionStatement(workflow) =>
        r := EvalWorkflowDefinition(workflow);
      case AssignmentStatement(target, rhs) =>
        r := EvalAssignment(d, target, rhs);
      case ReturnStatement(returned) =>
        r := EvalReturn(d, returned);
      case RaiseStatement(raised) =>
        r := EvalRaise(d, raised);
      case BreakStatement =>
        scope.BreakLoop();
        return Success(());
      case ExpressionStatement(expression) =>
        var _ :- EvalExpression(d, expression);
        return Success(());
      case IfBlock(_, _, _) =>
        r := EvalIfBlock(d, s);
      case RepeatBlock(body) =>
        r := EvalRepeatBlock(d, body);
    }

    method EvalAssignment(d: nat, target: string, rhs: Expr) returns (r: Result<(), EvalError>)
      requires Valid()
      modifies this, scope
      ensures r.Success? ==> Valid() && Framed()
      ensures Observed(r) == ExecAssignment(maxLoopCount, d, target, rhs, old(Abs()))
      decreases d, rhs, 1, 0
    {
      var lhs := scope.FindEntity(target);
      if lhs.None? {
        return Failure(UndeclaredIdentifier);
      }
      var v :- EvalExpression(d, rhs);
      var _ := Assign(lhs.value, v);
      return Success(());
    }

    method EvalReturn(d: nat, returned: Expr) returns (r: Result<(), EvalError>)
      requires Valid()
      modifies this, scope
      ensures r.Success? ==> Valid() && Framed()
      ensures Observed(r) == ExecReturn(maxLoopCount, d, returned, old(Abs()))
      decreases d, returned, 1, 0
    {
      var v :- EvalExpression(d, returned);
      scope.ReturnValue(v);
      return Success(());
    }

    method EvalRaise(d: nat, raised: Expr) returns (r: Result<(), EvalError>)
      requires Valid()
      modifies this, scope
      ensures r.Success? ==> Valid() && Framed()
      ensures Observed(r) == ExecRaise(maxLoopCount, d, raised, old(Abs()))
      decreases d, raised, 1, 0
    {
      var v :- EvalExpression(d, raised);
      var error := v;
      if v.StringValue? {
        error := ErrorValue(v.s);
      } else if !v.ErrorValue? {
        return Failure(NotRaisable);
      }
      scope.ReturnValue(error);
      return Success(());
    }

    method EvalVariableDeclaration(d: nat, name: string, typeName: string, init: Option<Expr>)
      returns (r: Result<(), EvalError>)
      requires Valid()
      modifies this, scope
      ensures r.Success? ==> Valid() && Framed()
      ensures Observed(r) == ExecDeclaration(maxLoopCount, d, name, typeName, init, old(Abs()))
      decreases d, init, 0, 0
    {
      var declared := scope.FindInCurrent(name);
      if declared.Some? {
        return Failure(AlreadyDeclared);
      }
      var t := FindType(typeName);
      if t.None? {
        return Failure(UnknownType);
      }
      var arguments := VoidValue;
      if init.Some? {
        arguments :- EvalExpression(d, init.value);
      }
      var value :- ConstructValue(t.value, arguments);
      scope.Add(name, value);
      return Success(());
    }

    method EvalWorkflowDefinition(workflow: Workflow) returns (r: Result<(), EvalError>)
      requires Valid()
      modifies scope
      ensures r.Success? ==> Valid() && Framed()
      ensures Observed(r) ==
              if Lookup(Locals(old(Abs())), workflow.name).Some? then Fail(AlreadyDeclared, old(steps))
              else Ok((), Bind(old(Abs()), workflow.name, WorkflowValue(workflow)))
    {
      var declared := scope.FindInCurrent(workflow.name);
      if declared.Some? {
        return Failure(AlreadyDeclared);
      }
      scope.Add(workflow.name, WorkflowValue(workflow));
      return Success(());
    }

    /** The type's constructor, after the copy that takes an integer out of the cell it shares. */
    method ConstructValue(t: TypeId, v: Value) returns (r: Result<Value, EvalError>)
      requires Valid()
      modifies this`store
      ensures Valid()
      ensures Observed(r) == Construct(t, v, old(Abs()))
    {
      match t
      case IntegerType =>
        if v.VoidValue? {
          return Success(IntValue(DEFAULT_INTEGER));
        }
        if !v.IntValue? {
          return Failure(InvalidConstructor);
        }
        store := store + [Load(store, v.cell)];
        return Success(IntValue(|store| - 1));
      case VoidType => r := if v.VoidValue? then Success(VoidValue) else Failure(InvalidConstructor);
      case BooleanType =>
        r := if v.VoidValue? then Success(BoolValue(false))
        else if v.BoolValue? then Success(v) else Failure(InvalidConstructor);
      case StringType =>
        r := if v.VoidValue? then Success(StringValue(""))
        else if v.StringValue? then Success(v) else Failure(InvalidConstructor);
      case DurationType =>
        r := if v.VoidValue? then Success(DurationValue(0))
        else if v.DurationValue? then Success(v) else Failure(InvalidConstructor);
      case ErrorType => return Failure(InvalidConstructor);
      case UndefinedType => return Failure(InvalidConstructor);
    }

    /** Assigns to the value of a path; a failure changes nothing. */
    method Assign(lhs: Value, rhs: Value) returns (r: Result<(), EvalError>)
      requires Valid()
      modifies this`store
      ensures Valid()
      ensures r.Success? <==> Assignable(lhs, rhs)
      ensures r.Failure? ==> store == old(store)
      ensures Abs() == Assigned(lhs, rhs, old(Abs()))
    {
      if lhs.IntValue? {
        if !rhs.IntValue? {
          return Failure(InvalidAssignment);
        }
        if lhs.cell < |store| {
          store := store[lhs.cell := Load(store, rhs.cell)];
        }
        return Success(());
      }
      if TypeOf(lhs) != TypeOf(rhs) && TypeOf(rhs) != ErrorType {
        return Failure(InvalidAssignment);
      }
      return Success(());
    }

    method EvalCondition(d: nat, c: ConditionBlock) returns (r: Result<bool, EvalError>)
      requires Valid()
      modifies this, scope
      ensures r.Success? ==> Valid() && Framed()
      ensures Observed(r) == ExecCondition(maxLoopCount, d, c, old(Abs()))
      decreases d, c, 0, 0
    {
      var condition :- EvalExpression(d, c.condition);
      if !condition.BoolValue? {
        return Failure(NotABoolean);
      }
      if !condition.b {
        return Success(false);
      }
      var _ :- EvalScope(d, c.statements, Local);
      return Success(true);
    }

    method EvalIfBlock(d: nat, s: Stmt) returns (r: Result<(), EvalError>)
      requires Valid() && s.IfBlock?
      modifies this, scope
      ensures r.Success? ==> Valid() && Framed()
      ensures Observed(r) == ExecIf(maxLoopCount, d, s, old(Abs()))
      decreases d, s, 0, 0
    {
      var evaluated :- EvalCondition(d, s.ifBlock);
      if scope.Current().policy != Stay {
        return Success(());
      }
      if !evaluated {
        var finished :- EvalElifBlocks(d, s.elifBlocks);
        if finished {
          return Success(());
        }
      }
      if evaluated || s.elseBlock == [] {
        return Success(());
      }
      r := EvalScope(d, s.elseBlock, Local);
    }

    /** The loop over the elif blocks; tells whether the if statement ends here. */
    method EvalElifBlocks(d: nat, blocks: seq<ConditionBlock>) returns (r: Result<bool, EvalError>)
      requires Valid()
      modifies this, scope
      ensures r.Success? ==> Valid() && Framed()
      ensures Observed(r) == ExecElifs(maxLoopCount, d, blocks, old(Abs()))
      decreases d, blocks, 0, 0
    {
      var i := 0;
      while i < |blocks|
        invariant 0 <= i <= |blocks|
        invariant Valid() && Framed()
        invariant ExecElifs(maxLoopCount, d, blocks[i..], Abs()) == ExecElifs(maxLoopCount, d, blocks, old(Abs()))
      {
        var evaluated :- EvalCondition(d, blocks[i]);
        assert blocks[i..][1..] == blocks[i + 1..];
        if evaluated {
          return Success(true);
        }
        if scope.Current().policy != Stay {
          return Success(true);
        }
        i := i + 1;
      }
      return Success(false);
    }

    method EvalRepeatBlock(d: nat, body: seq<Stmt>) returns (r: Result<(), EvalError>)
      requires Valid()
      modifies this, scope
      ensures r.Success? ==> Valid() && Framed()
      ensures Observed(r) == ExecRepeat(maxLoopCount, d, body, maxLoopCount, old(Abs()))
      decreases d, body, 2, 0
    {
      var count := maxLoopCount;
      while count > 0
        invariant Valid() && Framed()
        invariant ExecRepeat(maxLoopCount, d, body, count, Abs()) ==
                  ExecRepeat(maxLoopCount, d, body, maxLoopCount, old(Abs()))
      {
        count := count - 1;
        var _ :- EvalScope(d, body, Loop);
        if scope.Current().policy != Stay {
          return Success(());
        }
      }
      return Success(());
    }

    // ---------- programs ----------

    /** A program's statements run in the function scope the interpreter starts with, without a block of their own. */
    method EvalProgram(d: nat, program: seq<Stmt>) returns (r: Result<(), EvalError>)
      requires Valid()
      modifies this, scope
      ensures r.Success? ==> Valid() && Framed()
      ensures Observed(r) == ExecStmts(maxLoopCount, d, program, old(Abs()))
    {
      r := EvalStatements(d, program);
    }
  }
}
