/** Tokens and the syntax tree as the parser builds it, before names are resolved. */
module Syntax {
  import opened Options

  datatype Kind =
    | IDENT | NUM | ADD | SUB | MULT | DIV | LBRACKET | RBRACKET | LPAREN | RPAREN | LBRACE | RBRACE
    | SEMICOLON | ASSIGN | TYPE | COMMA | RETURN | IF | ELSE | EQUAL | NOT_EQUAL | NOT | ENUM | WHILE | FOR
    | AND | OR | XOR | LOG_OR | LOG_AND | LSHIFT | RSHIFT | GT | LT | GT_EQ | LT_EQ

  datatype Token = Token(kind: Kind, text: string)

  datatype Expr =
    | Empty
    | Num(value: int)
    | Name(name: string)
    | Unary(op: Kind, e: Expr)
    | Bin(op: Kind, left: Expr, right: Expr)
    | Assign(name: string, e: Expr)
    | Call(name: string, args: seq<Expr>)

  datatype Stmt =
    | Return(e: Expr)
    | If(cond: Expr, thn: Stmt, els: Option<Stmt>)
    | Block(body: seq<Stmt>)
    | VarDef(typ: string, name: string, e: Expr)
    | VarDec(typ: string, name: string)
    | While(cond: Expr, loop: Stmt)
    | For(init: Stmt, cond: Expr, step: Expr, loop: Stmt)
    | ExprStmt(e: Expr)
    | Enum(name: string, consts: seq<string>)

  datatype Param = Param(typ: string, name: string)

  datatype Func = Func(typ: string, name: string, params: seq<Param>, body: seq<Stmt>)

  /** The level of a binary operator in the grammar: operators of lower levels bind tighter. Level 0
      is a primary and level 1 a unary expression; other tokens have no level. */
  function Level(k: Kind): nat {
    match k
    case MULT => 2
    case DIV => 2
    case ADD => 3
    case SUB => 3
    case LSHIFT => 4
    case RSHIFT => 4
    case GT => 5
    case LT => 5
    case GT_EQ => 5
    case LT_EQ => 5
    case NOT_EQUAL => 6
    case EQUAL => 6
    case AND => 7
    case XOR => 8
    case OR => 9
    case LOG_AND => 10
    case LOG_OR => 11
    case _ => 0
  }

  const TOP: nat := 11

  /** The text of an operator, a punctuation mark or a keyword; the other kinds have many texts, and
      brackets are never produced. */
  function Spelling(k: Kind): string {
    match k
    case ADD => "+"
    case SUB => "-"
    case MULT => "*"
    case DIV => "/"
    case LPAREN => "("
    case RPAREN => ")"
    case LBRACE => "{"
    case RBRACE => "}"
    case SEMICOLON => ";"
    case ASSIGN => "="
    case COMMA => ","
    case RETURN => "return"
    case IF => "if"
    case ELSE => "else"
    case EQUAL => "=="
    case NOT_EQUAL => "!="
    case NOT => "!"
    case ENUM => "enum"
    case WHILE => "while"
    case FOR => "for"
    case AND => "&"
    case OR => "|"
    case XOR => "^"
    case LOG_OR => "||"
    case LOG_AND => "&&"
    case LSHIFT => "<<"
    case RSHIFT => ">>"
    case GT => ">"
    case LT => "<"
    case GT_EQ => ">="
    case LT_EQ => "<="
    case _ => ""
  }

  /** The token of a kind with one spelling. */
  function Mark(k: Kind): Token {
    Token(k, Spelling(k))
  }
}
