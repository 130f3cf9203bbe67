/** Small programs that do not do what they look like. */
module FlowExamples {
  import opened Wrappers
  import opened FlowSyntax
  import opened FlowSemantics
  import opened FlowLaws

  /** What a name reads at the end of a program. */
  function ReadAfter(loops: nat, d: nat, program: seq<Stmt>, name: string): Option<int> {
    match ExecStmts(loops, d, program, Initial(0))
    case Ok(_, st) => (match Lookup(st.env, name) case Some(v) => ReadInteger(st, v) case None => None)
    case Fail(_, _) => None
  }

  function Declare(name: string, init: Option<Expr>): Stmt {
    VariableDeclaration(name, "integer", init)
  }

  lemma {:induction false} StatementFirst(loops: nat, d: nat, s: Stmt, rest: seq<Stmt>, st: State)
    requires Quiet(Exec(loops, d, s, st))
    ensures ExecStmts(loops, d, [s] + rest, st) == ExecStmts(loops, d, rest, Exec(loops, d, s, st).st)
  {
    assert ([s] + rest)[0] == s && ([s] + rest)[1..] == rest;
  }

  lemma {:induction false} ThreeStatements(
      loops: nat, d: nat, a: Stmt, b: Stmt, c: Stmt, st: State, st1: State, st2: State, st3: State)
    requires Exec(loops, d, a, st) == Ok((), st1) && st1.policy == Stay
    requires Exec(loops, d, b, st1) == Ok((), st2) && st2.policy == Stay
    requires Exec(loops, d, c, st2) == Ok((), st3) && st3.policy == Stay
    ensures ExecStmts(loops, d, [a, b, c], st) == Ok((), st3)
  {
    assert [a, b, c] == [a] + ([b] + ([c] + []));
    StatementFirst(loops, d, a, [b] + ([c] + []), st);
    StatementFirst(loops, d, b, [c] + [], st1);
    StatementFirst(loops, d, c, [], st2);
  }

  /** A binding hides older ones of its name and no others. */
  lemma {:induction false} LatestBinding(env: seq<Entry>, last: Entry, name: string)
    ensures Lookup(env + [last], name) == if last.name == name then Some(last.value) else Lookup(env, name)
  {
    assert (env + [last])[..|env|] == env;
  }

  /** A run starts with four names bound. */
  lemma {:induction false} InitiallyBound(instanceId: int, name: string)
    requires name != "println" && name != "panic" && name != "str_format" && name != "instance_id"
    ensures Lookup(Initial(instanceId).env, name) == None
  {
    var println, panic := Entry("println", FreeFunctionValue(Println)), Entry("panic", FreeFunctionValue(Panic));
    var format := Entry("str_format", FreeFunctionValue(StrFormat));
    var id := Entry("instance_id", IntValue(1));
    assert Initial(instanceId).env == ((([] + [println]) + [panic]) + [format]) + [id];
    LatestBinding((([] + [println]) + [panic]) + [format], id, name);
    LatestBinding(([] + [println]) + [panic], format, name);
    LatestBinding([] + [println], panic, name);
    LatestBinding([], println, name);
  }

  /** `integer a; integer b; a = 5` sets b to 5. */
  lemma {:induction false} UninitialisedIntegersAreOne(loops: nat, d: nat)
    ensures ReadAfter(loops, d,
              [Declare("a", None), Declare("b", None), AssignmentStatement("a", IntLiteral(5))], "b") == Some(5)
  {
    var a, b, c := Declare("a", None), Declare("b", None), AssignmentStatement("a", IntLiteral(5));
    var st := Initial(0);
    var st1 := Bind(st, "a", IntValue(0)).(steps := 1);
    var st2 := Bind(st1, "b", IntValue(0)).(steps := 2);
    var st3 := st2.(steps := 3, store := [5, 0, 5]);
    assert Exec(loops, d, a, st) == Ok((), st1) by {
      InitiallyBound(0, "a");
      DeclaresDefault(loops, d, "a", st);
    }
    LatestBinding(st.env, Entry("a", IntValue(0)), "b");
    assert Exec(loops, d, b, st1) == Ok((), st2) by {
      InitiallyBound(0, "b");
      DeclaresDefault(loops, d, "b", st1);
    }
    LatestBinding(st1.env, Entry("b", IntValue(0)), "a");
    LatestBinding(st.env, Entry("a", IntValue(0)), "a");
    AssignsLiteral(loops, d, "a", 5, st2, 0);
    assert [0, 0] + [5] == [0, 0, 5] && [0, 0, 5][0 := 5] == [5, 0, 5];
    ThreeStatements(loops, d, a, b, c, st, st1, st2, st3);
    LatestBinding(st1.env, Entry("b", IntValue(0)), "b");
  }

  lemma {:induction false} DeclaresDefault(loops: nat, d: nat, name: string, st: State)
    requires st.base == 0 && Lookup(st.env, name).None?
    ensures Exec(loops, d, Declare(name, None), st) == Ok((), Bind(st, name, IntValue(0)).(steps := st.steps + 1))
  {
    assert Locals(st.(steps := st.steps + 1)) == st.env;
  }

  lemma {:induction false} AssignsLiteral(loops: nat, d: nat, name: string, i: int, st: State, cell: nat)
    requires Lookup(st.env, name) == Some(IntValue(cell)) && cell < |st.store|
    ensures Exec(loops, d, AssignmentStatement(name, IntLiteral(i)), st) ==
            Ok((), st.(steps := st.steps + 1, store := (st.store + [i])[cell := i]))
  {
    var given := st.(steps := st.steps + 1, store := st.store + [i]);
    assert EvalExpr(loops, d, IntLiteral(i), st.(steps := st.steps + 1)) == Ok(IntValue(|st.store|), given);
    assert Assigned(IntValue(cell), IntValue(|st.store|), given)
        == given.(store := given.store[cell := i]);
  }

  /** `integer x = 1; x = "a"; boolean done` completes with x at 1. */
  lemma {:induction false} MistypedAssignmentIsDropped(loops: nat, d: nat)
    ensures ReadAfter(loops, d,
              [Declare("x", Some(IntLiteral(1))), AssignmentStatement("x", StringLiteral("a")),
               VariableDeclaration("done", "boolean", None)], "x") == Some(1)
  {
    var a, b := Declare("x", Some(IntLiteral(1))), AssignmentStatement("x", StringLiteral("a"));
    var c := VariableDeclaration("done", "boolean", None);
    var st := Initial(0);
    var st1 := Bind(st, "x", IntValue(3)).(steps := 1, store := [0, 0, 1, 1]);
    var st2 := st1.(steps := 2);
    var st3 := Bind(st2, "done", BoolValue(false)).(steps := 3);
    assert Exec(loops, d, a, st) == Ok((), st1) by {
      InitiallyBound(0, "x");
      DeclaresLiteral(loops, d, "x", 1, st);
      assert [0, 0] + [1] + [1] == [0, 0, 1, 1];
    }
    LatestBinding(st.env, Entry("x", IntValue(3)), "x");
    assert Exec(loops, d, b, st1) == Ok((), st2) by {
      assert EvalExpr(loops, d, StringLiteral("a"), st2) == Ok(StringValue("a"), st2);
    }
    LatestBinding(st.env, Entry("x", IntValue(3)), "done");
    assert Exec(loops, d, c, st2) == Ok((), st3) by {
      InitiallyBound(0, "done");
      assert Locals(st2.(steps := 3)) == st2.env;
    }
    ThreeStatements(loops, d, a, b, c, st, st1, st2, st3);
    LatestBinding(st2.env, Entry("done", BoolValue(false)), "x");
  }

  lemma {:induction false} DeclaresLiteral(loops: nat, d: nat, name: string, i: int, st: State)
    requires st.base == 0 && Lookup(st.env, name).None?
    ensures Exec(loops, d, Declare(name, Some(IntLiteral(i))), st) ==
            Ok((), Bind(st, name, IntValue(|st.store| + 1)).(steps := st.steps + 1, store := st.store + [i] + [i]))
  {
    var counted := st.(steps := st.steps + 1);
    var evaluated := counted.(store := st.store + [i]);
    assert Locals(counted) == st.env;
    assert EvalExpr(loops, d, IntLiteral(i), counted) == Ok(IntValue(|st.store|), evaluated);
    assert Construct(IntegerType, IntValue(|st.store|), evaluated)
        == Ok(IntValue(|st.store| + 1), evaluated.(store := st.store + [i] + [i]));
  }
}
