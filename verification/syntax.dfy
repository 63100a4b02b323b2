/**
 The parsed statement tree, as a closed datatype: one constructor per kind
 of expression node the dispatcher distinguishes, each with its operator tag
 and its child nodes.
 */
module Syntax {

  import opened Values

  /** Operator tags; any other token the grammar produces is carried by its text. */
  datatype Op = And | Or | Xor | Mul | Div | OtherOp(text: string)

  /** The text of an operator token, as an error message quotes it. */
  function OpText(op: Op): string {
    match op
    case And => "and"
    case Or => "or"
    case Xor => "xor"
    case Mul => "*"
    case Div => "/"
    case OtherOp(text) => text
  }

  datatype Literal =
    | IntLit(n: Long)       // an integer literal
    | DecLit(r: real)       // a decimal literal
    | BoolLit(b: bool)      // `true` or `false`
    | StrLit(s: string)     // a quoted string
    | NullLit               // `null`

  /** The families of function calls, each with its own builder. */
  datatype Family = StringFunctions | ComparisonFunctions | SetFunctions | NumericFunctions | DistanceFunctions

  /** A union operand: its node and its source text (how an error names it). */
  datatype Operand = Operand(expr: Node, text: string)

  /**
   The operator child of a function-call node. Only union is spelled out;
   the grammar gives it at least two operands.
   */
  datatype Call =
    | UnionCall(first: Operand, rest: seq<Operand>)
    | OtherCall(name: string, args: seq<Node>)

  /** The dataset clauses; rename and keep are spelled out. */
  datatype Clause =
    | RenameClause(fromTo: seq<(string, string)>)
    | KeepClause(names: seq<string>)
    | OtherClause(name: string)

  datatype Node =
    | Constant(lit: Literal)
    | VarId(name: string)
    | BooleanExpr(op: Op, left: Node, right: Node)
    | ArithmeticExpr(op: Op, left: Node, right: Node)
    | ArithmeticOrConcat(op: Op, left: Node, right: Node)
    | UnaryExpr(op: Op, operand: Node)
    | ParenthesisExpr(inner: Node)
    | ComparisonExpr(op: Op, left: Node, right: Node)
    | InNotInExpr(op: Op, operand: Node, list: seq<Node>)
    | IfExpr(condition: Node, thenExpr: Node, elseExpr: Node)
    | FunctionExpr(family: Family, call: Call)
    | JoinFunctions(aliases: seq<Operand>)
    | ClauseExpr(dataset: Node, clause: Clause)
}
