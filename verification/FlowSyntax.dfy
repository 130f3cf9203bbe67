/** The abstract syntax of the flow language: the statements and expressions this model covers. */
module FlowSyntax {
  import opened Wrappers

  datatype BinaryOp = Plus | Minus | Less | LessEq | Greater | GreaterEq | Eq | NotEq

  /** A `Chain` is one level of the operator ladder: a first operand and operations folded from the left. */
  datatype Expr =
    | BoolLiteral(b: bool)
    | IntLiteral(i: int)
    | StringLiteral(s: string)
    | DurationLiteral(count: nat)
    | Identifier(name: string)
    | Chain(first: Expr, terms: seq<Operation>)
    | FunctionCall(callee: string, arguments: seq<CallArgument>)
    | AwaitExpression(awaited: Expr, duration: Expr)
    | TryExpression(attempt: Expr)

  datatype Operation = Operation(op: BinaryOp, term: Expr)

  datatype CallArgument = CallArgument(name: Option<string>, value: Expr)

  datatype Stmt =
    | VariableDeclaration(name: string, typeName: string, init: Option<Expr>)
    | AssignmentStatement(target: string, rhs: Expr)
    | ReturnStatement(returned: Expr)
    | RaiseStatement(raised: Expr)
    | BreakStatement
    | ExpressionStatement(expression: Expr)
    | IfBlock(ifBlock: ConditionBlock, elifBlocks: seq<ConditionBlock>, elseBlock: seq<Stmt>)
    | RepeatBlock(scope: seq<Stmt>)
    | DefinitionStatement(workflow: Workflow)

  datatype ConditionBlock = ConditionBlock(condition: Expr, statements: seq<Stmt>)

  datatype Workflow = Workflow(name: string, signature: Option<Signature>, statements: seq<Stmt>)

  datatype Signature = Signature(inputs: seq<Declaration>, returnType: Option<string>)

  datatype Declaration = Declaration(name: string, typeName: string)
}
