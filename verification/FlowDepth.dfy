/** The bound on call depth is no more than a way to stop: a run it does not cut short does not depend on it. */
module FlowDepth {
  import opened Wrappers
  import opened FlowSyntax
  import opened FlowSemantics

  predicate HitTheBound<T>(r: Outcome<T>) {
    r.Fail? && r.error == DepthExceeded
  }

  /** Unless the shallower run hit the bound, the deeper run has the same outcome. */
  ghost predicate Settled<T>(shallow: Outcome<T>, deep: Outcome<T>) {
    !HitTheBound(shallow) ==> deep == shallow
  }

  lemma {:induction false} ExprDepth(loops: nat, d: nat, e: Expr, st: State)
    ensures Settled(EvalExpr(loops, d, e, st), EvalExpr(loops, d + 1, e, st))
    decreases d, e, 0, 0
  {
    match e
    case Chain(first, terms) =>
      ExprDepth(loops, d, first, st);
      var r := EvalExpr(loops, d, first, st);
      if r.Ok? {
        TermsDepth(loops, d, r.value, terms, r.st);
      }
    case FunctionCall(_, arguments) => ArgumentsDepth(loops, d, arguments, st);
    case AwaitExpression(awaited, duration) =>
      ExprDepth(loops, d, awaited, st);
      var r := EvalExpr(loops, d, awaited, st);
      if r.Ok? {
        AwaitableDepth(loops, d, r.value, duration, r.st);
      }
    case TryExpression(attempt) => ExprDepth(loops, d, attempt, st);
    case _ =>
  }

  lemma {:induction false} TermsDepth(loops: nat, d: nat, lhs: Value, terms: seq<Operation>, st: State)
    ensures Settled(EvalTerms(loops, d, lhs, terms, st), EvalTerms(loops, d + 1, lhs, terms, st))
    decreases d, terms, 0, 0
  {
    if terms != [] {
      assert terms[0] decreases to terms[0].term;
      ExprDepth(loops, d, terms[0].term, st);
      var r := EvalExpr(loops, d, terms[0].term, st);
      if r.Ok? {
        var applied := ApplyBinary(terms[0].op, lhs, r.value, r.st);
        if applied.Ok? {
          TermsDepth(loops, d, applied.value, terms[1..], applied.st);
        }
      }
    }
  }

  lemma {:induction false} ArgumentsDepth(loops: nat, d: nat, arguments: seq<CallArgument>, st: State)
    ensures Settled(EvalArguments(loops, d, arguments, st), EvalArguments(loops, d + 1, arguments, st))
    decreases d, arguments, 0, 0
  {
    if arguments != [] {
      assert arguments[0] decreases to arguments[0].value;
      ExprDepth(loops, d, arguments[0].value, st);
      var r := EvalExpr(loops, d, arguments[0].value, st);
      if r.Ok? {
        ArgumentsDepth(loops, d, arguments[1..], r.st);
      }
    }
  }

  lemma {:induction false} AwaitableDepth(loops: nat, d: nat, v: Value, duration: Expr, st: State)
    ensures Settled(EvalAwaitable(loops, d, v, duration, st), EvalAwaitable(loops, d + 1, v, duration, st))
    decreases d, duration, 2, 0
  {
    match v
    case InvocationValue(w, args) => AwaitDepth(loops, d, duration, w, args, st);
    case WorkflowValue(w) => AwaitDepth(loops, d, duration, w, [], st);
    case _ =>
  }

  lemma {:induction false} AwaitDepth(loops: nat, d: nat, duration: Expr, w: Workflow, args: seq<Argument>, st: State)
    ensures Settled(EvalAwait(loops, d, duration, w, args, st), EvalAwait(loops, d + 1, duration, w, args, st))
    decreases d, duration, 1, 0
  {
    ExprDepth(loops, d, duration, st);
    var timeout := EvalExpr(loops, d, duration, st);
    if timeout.Ok? && 0 < d {
      BodyDepth(loops, d - 1, w, args, timeout.st.(base := |timeout.st.env|, policy := Stay, result := None));
      assert Settled(Invoke(loops, d - 1, w, args, timeout.st), Invoke(loops, d, w, args, timeout.st));
    }
  }

  lemma {:induction false} BodyDepth(loops: nat, d: nat, w: Workflow, args: seq<Argument>, st: State)
    ensures Settled(RunBody(loops, d, w, args, st), RunBody(loops, d + 1, w, args, st))
    decreases d, w, 0, 0
  {
    var bound := BindArguments(w, args, st);
    if bound.Ok? {
      BlockDepth(loops, d, w.statements, bound.st);
    }
  }

  lemma {:induction false} BlockDepth(loops: nat, d: nat, ss: seq<Stmt>, st: State)
    ensures Settled(ExecBlock(loops, d, ss, st), ExecBlock(loops, d + 1, ss, st))
    decreases d, ss, 1, 0
  {
    StmtsDepth(loops, d, ss, st.(base := |st.env|, policy := Stay));
  }

  lemma {:induction false} StmtsDepth(loops: nat, d: nat, ss: seq<Stmt>, st: State)
    ensures Settled(ExecStmts(loops, d, ss, st), ExecStmts(loops, d + 1, ss, st))
    decreases d, ss, 0, 0
  {
    if ss != [] {
      StmtDepth(loops, d, ss[0], st);
      var r := Exec(loops, d, ss[0], st);
      if r.Ok? {
        StmtsDepth(loops, d, ss[1..], r.st);
      }
    }
  }

  lemma {:induction false} ConditionDepth(loops: nat, d: nat, c: ConditionBlock, st: State)
    ensures Settled(ExecCondition(loops, d, c, st), ExecCondition(loops, d + 1, c, st))
    decreases d, c, 0, 0
  {
    ExprDepth(loops, d, c.condition, st);
    var r := EvalExpr(loops, d, c.condition, st);
    if r.Ok? {
      BlockDepth(loops, d, c.statements, r.st);
    }
  }

  lemma {:induction false} ElifsDepth(loops: nat, d: nat, elifs: seq<ConditionBlock>, st: State)
    ensures Settled(ExecElifs(loops, d, elifs, st), ExecElifs(loops, d + 1, elifs, st))
    decreases d, elifs, 0, 0
  {
    if elifs != [] {
      ConditionDepth(loops, d, elifs[0], st);
      var r := ExecCondition(loops, d, elifs[0], st);
      if r.Ok? {
        ElifsDepth(loops, d, elifs[1..], r.st);
      }
    }
  }

  lemma {:induction false} RepeatDepth(loops: nat, d: nat, body: seq<Stmt>, count: nat, st: State)
    ensures Settled(ExecRepeat(loops, d, body, count, st), ExecRepeat(loops, d + 1, body, count, st))
    decreases d, body, 2, count
  {
    if count > 0 {
      BlockDepth(loops, d, body, st);
      var r := ExecBlock(loops, d, body, st);
      if r.Ok? {
        RepeatDepth(loops, d, body, count - 1, r.st);
      }
    }
  }

  lemma {:induction false} IfDepth(loops: nat, d: nat, s: Stmt, st: State)
    requires s.IfBlock?
    ensures Settled(ExecIf(loops, d, s, st), ExecIf(loops, d + 1, s, st))
    decreases d, s, 0, 0
  {
    ConditionDepth(loops, d, s.ifBlock, st);
    var r := ExecCondition(loops, d, s.ifBlock, st);
    if r.Ok? {
      ElifsDepth(loops, d, s.elifBlocks, r.st);
      var r2 := ExecElifs(loops, d, s.elifBlocks, r.st);
      if r2.Ok? {
        BlockDepth(loops, d, s.elseBlock, r2.st);
      }
    }
  }

  lemma {:induction false} StmtDepth(loops: nat, d: nat, s: Stmt, before: State)
    ensures Settled(Exec(loops, d, s, before), Exec(loops, d + 1, s, before))
    decreases d, s, 1, 0
  {
    var st := before.(steps := before.steps + 1);
    match s
    case VariableDeclaration(_, _, init) =>
      if init.Some? {
        ExprDepth(loops, d, init.value, st);
      }
    case AssignmentStatement(_, rhs) => ExprDepth(loops, d, rhs, st);
    case ReturnStatement(e) => ExprDepth(loops, d, e, st);
    case RaiseStatement(e) => ExprDepth(loops, d, e, st);
    case BreakStatement =>
    case ExpressionStatement(e) => ExprDepth(loops, d, e, st);
    case IfBlock(_, _, _) => IfDepth(loops, d, s, st);
    case RepeatBlock(body) => RepeatDepth(loops, d, body, loops, st);
    case DefinitionStatement(_) =>
  }

  /** A program whose calls nest at most `d` deep runs the same under every larger bound. */
  lemma {:induction false} DepthBoundIsImmaterial(loops: nat, d: nat, more: nat, program: seq<Stmt>, st: State)
    requires d <= more && !HitTheBound(ExecStmts(loops, d, program, st))
    ensures ExecStmts(loops, more, program, st) == ExecStmts(loops, d, program, st)
    decreases more - d
  {
    if d < more {
      StmtsDepth(loops, d, program, st);
      DepthBoundIsImmaterial(loops, d + 1, more, program, st);
    }
  }
}
