/**
 * The value types of the calculator: the tokens an expression is made of,
 * the commands, and the two kinds of input line.
 */
module Syntax {
  import opened Int32

  /** Rust's `Option`, which every parsing and evaluation step returns. */
  datatype Option<+T> = None | Some(value: T)

  datatype Operator = Add | Sub | Mul | Div

  datatype Token = Number(n: i32) | Operator(op: Operator)

  /** `:q` and `:quit` are the only commands. */
  datatype Command = Quit

  datatype Input = Expression(tokens: seq<Token>) | Command(cmd: Command)

  /** The field of an input line that denotes `op`. */
  function Symbol(op: Operator): string {
    match op
    case Add => "+"
    case Sub => "-"
    case Mul => "*"
    case Div => "/"
  }
}
