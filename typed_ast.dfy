/**
 * The typed syntax tree the code generator consumes.  The type checker
 * that builds it is not part of this model: a type is reduced to the
 * byte size the code generator asks of it (`expr_type.size()`).
 */
module TypedAst {
  import opened Wrappers
  import opened Bytes
  import M = Machine

  /** An expression, the byte size of its type and its source location. */
  datatype Expr = Expr(kind: ExprKind, size: nat, loc: M.CodeLoc)

  datatype ExprKind =
    | Uninit
    | IntLiteral(literal: int)
    | StringLiteral(text: seq<u8>)
    | LocalIdent(varOffset: int)
    | AddI32(l: Expr, r: Expr)
    | AddU64(l: Expr, r: Expr)
    | SubI32(l: Expr, r: Expr)
    | SConv8To32(inner: Expr)
    | SConv32To64(inner: Expr)
    | ZConv8To32(inner: Expr)
    | ZConv32To64(inner: Expr)
    | Assign(target: AssignTarget, value: Expr)
    | Member(base: Expr, offset: nat)
    | PtrMember(base: Expr, offset: nat)
    | Deref(ptr: Expr)
    | Ref(lvalue: AssignKind)
    | Call(func: nat, params: seq<Expr>, varargs: bool)

  /** An lvalue: a stack local (by its variable offset) or a pointer expression. */
  datatype AssignKind = LocalTarget(varOffset: int) | PtrTarget(ptr: Expr)

  datatype AssignTarget = AssignTarget(kind: AssignKind, size: nat, offset: nat, loc: M.CodeLoc)

  datatype StmtKind = RetVal(value: Expr) | Ret | ExprStmt(expr: Expr) | Decl(init: Expr)

  datatype Stmt = Stmt(kind: StmtKind, loc: M.CodeLoc)

  /** A function's type: return size, parameter sizes, varargs, and where it is declared. */
  datatype FuncType = FuncType(returnSize: nat, params: seq<nat>, varargs: bool, loc: M.CodeLoc)

  datatype FuncDefn = FuncDefn(stmts: seq<Stmt>, loc: M.CodeLoc)

  /** A function as the type checker hands it over: declared, and perhaps defined. */
  datatype TypedFunc = TypedFunc(funcType: FuncType, defn: Option<FuncDefn>)

  /** Two declarations agree when they differ at most in where they were written. */
  predicate SameSignature(a: FuncType, b: FuncType)
  {
    a.returnSize == b.returnSize && a.params == b.params && a.varargs == b.varargs
  }
}
