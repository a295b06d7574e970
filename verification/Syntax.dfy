/** The core language: the part of the syntax tree (include/astnodes.h) that the
    compilation proofs cover. */
module Syntax {
  import opened Words

  datatype Option<+T> = None | Some(value: T)

  datatype UnaryOp = Negate | Not | Complement

  datatype BinaryOp =
    | Add | Sub | Mult | Mod
    | BAnd | BOr | BXor | Shl | Shr
    | Eq | Ne | Gt | Ge | Lt | Le | In | NotIn

  /** Operators with a compound assignment form (`+=` and so on). */
  predicate HasCompound(op: BinaryOp) {
    op.Add? || op.Sub? || op.Mult? || op.Mod? || op.BAnd? || op.BOr? || op.BXor? || op.Shl? || op.Shr?
  }

  type CompoundOp = op: BinaryOp | HasCompound(op) witness Add

  datatype Expr =
    | IntLit(i: i64)
    | BoolLit(b: bool)
    | NullLit
    | Var(name: string)
    | Unary(uop: UnaryOp, operand: Expr)
    | Binary(op: BinaryOp, left: Expr, right: Expr)
    | And(left: Expr, right: Expr)
    | Or(left: Expr, right: Expr)
    | IfExpr(cond: Expr, thn: Expr, els: Expr)
    | Assign(name: string, value: Expr)
    | CompoundAssign(cop: CompoundOp, name: string, value: Expr)
    | Crement(incr: bool, prev: bool, name: string)  // ++/--; `prev`: the old value is the result
    | ListLit(entries: seq<Expr>)
    | Index(obj: Expr, index: Expr)

  /** `Empty` stands for the null pointer the parser gives for `;` and for a
      missing else branch. */
  datatype Stmt =
    | Empty
    | ExprStmt(e: Expr)
    | VarDecl(fix: bool, names: seq<string>, values: seq<Expr>)
    | Block(stmts: seq<Stmt>)
    | If(cond: Expr, thn: Stmt, els: Stmt)
    | While(cond: Expr, tag: Option<string>, body: Stmt, els: Stmt)
    | Repeat(body: Stmt, cond: Expr, tag: Option<string>)
    | Break(target: Option<string>)
    | Continue(target: Option<string>)
}
