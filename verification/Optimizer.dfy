/** The source-to-source optimizer (src/optimizer.cpp): it folds constant
    expressions to literals and drops branches that cannot run. An error-free run
    keeps its meaning; where the optimizer misjudges a constant, the exact
    condition is proved as well. */
module Optimizer {
  import opened Words
  import opened Syntax
  import opened Values
  import opened Source
  import SC = StmtCorrect

  /* Constant expressions. */

  predicate IsConstant(e: Expr)
    decreases e
  {
    match e
    case IntLit(_) => true
    case BoolLit(_) => true
    case NullLit => true
    case Unary(_, e1) => IsConstant(e1)
    case Binary(_, l, r) => IsConstant(l) && IsConstant(r)
    case And(l, r) => IsConstant(l) && IsConstant(r)
    case Or(l, r) => IsConstant(l) && IsConstant(r)
    case IfExpr(c, t, f) => IsConstant(c) && IsConstant(t) && IsConstant(f)
    case ListLit(es) => forall x | x in es :: IsConstant(x)
    case Index(l, r) => IsConstant(l) && IsConstant(r)
    case _ => false
  }

  predicate IsTruthyConstant(e: Expr) {
    IsConstant(e) &&
    match e
    case IntLit(i) => i != 0
    case BoolLit(b) => b
    case ListLit(es) => es != []
    case _ => false
  }

  /** Every other constant, folded or not. */
  predicate IsFalsyConstant(e: Expr) {
    IsConstant(e) && !IsTruthyConstant(e)
  }

  /* Evaluating constants. */

  predicate Ordering(op: BinaryOp) {
    op.Gt? || op.Ge? || op.Lt? || op.Le?
  }

  predicate BitLike(op: BinaryOp) {
    op.BAnd? || op.BOr? || op.BXor? || op.Shl? || op.Shr?
  }

  /** None where the source gives an invalid object, and where it has no result at all
      (see HitsUnreachable). */
  function Evaluate(e: Expr): Option<Value>
    decreases e
  {
    match e
    case IntLit(i) => Some(Int(i))
    case BoolLit(b) => Some(Bool(b))
    case NullLit => Some(Null)
    case And(l, r) =>
      var a := Evaluate(l);
      if a.None? then None
      else if !Truthy(a.value) then Some(Bool(false))
      else EvaluateTruth(Evaluate(r))
    case Or(l, r) =>
      var a := Evaluate(l);
      if a.None? then None
      else if Truthy(a.value) then Some(Bool(true))
      else EvaluateTruth(Evaluate(r))
    case Binary(op, l, r) =>
      var a, b := Evaluate(l), Evaluate(r);
      if a.None? || b.None? then None else EvaluateBinary(op, a.value, b.value)
    case _ => None
  }

  function EvaluateTruth(v: Option<Value>): Option<Value> {
    if v.None? then None else Some(Bool(Truthy(v.value)))
  }

  function EvaluateBinary(op: BinaryOp, a: Value, b: Value): Option<Value> {
    if op.Eq? then Some(Bool(Equal(a, b)))
    else if Ordering(op) then
      if !a.Int? || !b.Int? then None
      else
        var gt, eq, lt := AsDouble(a.i) > AsDouble(b.i), Equal(a, b), AsDouble(a.i) < AsDouble(b.i);
        match op
        case Gt => Some(Bool(gt))
        case Ge => Some(Bool(gt || eq))
        case Lt => Some(Bool(lt))
        case _ => Some(Bool(lt || eq))
    else if BitLike(op) then
      if !a.Int? || !b.Int? then None
      else
        var x, y := ToUnsigned(a.i), ToUnsigned(b.i);
        match op
        case BAnd => Some(Int(Wrap64(BitAnd(x, y))))
        case BOr => Some(Int(Wrap64(BitOr(x, y))))
        case BXor => Some(Int(Wrap64(BitXor(x, y))))
        case Shl => if y >= 64 then None else Some(Int(FromUnsigned((x * Pow2(y)) % TWO64)))
        case _ => if y >= 64 then None else Some(Int(Wrap64(x / Pow2(y) + if a.i >= 0 then 0 else -TWO63)))
    else None
  }

  predicate IsLiteral(e: Expr) {
    e.IntLit? || e.BoolLit? || e.NullLit?
  }

  function LiteralValue(e: Expr): Value
    requires IsLiteral(e)
  {
    match e
    case IntLit(i) => Int(i)
    case BoolLit(b) => Bool(b)
    case _ => Null
  }

  function ObjectToNode(v: Value): Expr {
    match v
    case Int(i) => IntLit(i)
    case Bool(b) => BoolLit(b)
    case _ => NullLit
  }

  function Compute(e: Expr): Expr {
    if !IsConstant(e) || Evaluate(e).None? then e else ObjectToNode(Evaluate(e).value)
  }

  /* Rewriting. */

  function Optimize(e: Expr): Expr
    decreases e
  {
    match e
    case Unary(op, e1) => Compute(Unary(op, Optimize(e1)))
    case Binary(op, l, r) => Compute(Binary(op, Optimize(l), Optimize(r)))
    case And(l, r) => Compute(And(Optimize(l), Optimize(r)))
    case Or(l, r) => Compute(Or(Optimize(l), Optimize(r)))
    case IfExpr(c, t, f) =>
      var c' := Optimize(c);
      if IsTruthyConstant(c') then Optimize(t)
      else if IsFalsyConstant(c') then Optimize(f)
      else IfExpr(c', Optimize(t), Optimize(f))
    case Assign(name, e1) => Assign(name, Optimize(e1))
    case CompoundAssign(op, name, e1) => CompoundAssign(op, name, Optimize(e1))
    case ListLit(es) => ListLit(OptimizeList(es))
    case Index(l, r) => Compute(Index(Optimize(l), Optimize(r)))
    case _ => e
  }

  function OptimizeList(es: seq<Expr>): (r: seq<Expr>)
    ensures |r| == |es|
    decreases es
  {
    if es == [] then [] else [Optimize(es[0])] + OptimizeList(es[1..])
  }

  /** No `break` or `continue` of this loop directly in its block. */
  predicate DirectLoop(body: Stmt, tag: Option<string>) {
    body.Block? ==> forall x | x in body.stmts :: !((x.Break? || x.Continue?) && (x.target.None? || x.target == tag))
  }

  function OptimizeStmt(s: Stmt): Stmt
    decreases s
  {
    match s
    case ExprStmt(e) => ExprStmt(Optimize(e))
    case VarDecl(fix, names, values) => VarDecl(fix, names, OptimizeList(values))
    case Block(ss) => Block(OptimizeAll(ss))
    case If(c, t, f) =>
      var c' := Optimize(c);
      if IsTruthyConstant(c') then OptimizeStmt(t)
      else if IsFalsyConstant(c') then OptimizeStmt(f)
      else If(c', OptimizeStmt(t), OptimizeStmt(f))
    case While(c, tag, body, els) =>
      var c' := Optimize(c);
      if IsFalsyConstant(c') then OptimizeStmt(els)
      else if IsTruthyConstant(c') then While(c', tag, body, Empty)  // the body is left as it is
      else While(c', tag, OptimizeStmt(body), OptimizeStmt(els))
    case Repeat(body, c, tag) =>
      var c', body' := Optimize(c), OptimizeStmt(body);
      if IsTruthyConstant(c') && DirectLoop(body', tag) then body' else Repeat(body', c', tag)
    case _ => s
  }

  function OptimizeAll(ss: seq<Stmt>): (r: seq<Stmt>)
    ensures |r| == |ss|
    decreases ss
  {
    if ss == [] then [] else [OptimizeStmt(ss[0])] + OptimizeAll(ss[1..])
  }

  /* Where the optimizer is right. */

  datatype Ty = TInt | TBool | TNull

  /** Types of constants built from literals with comparisons, bit operators, and
      `and`/`or` of Booleans, and choices between them. */
  function TypeOf(e: Expr): Option<Ty>
    decreases e
  {
    match e
    case IntLit(_) => Some(TInt)
    case BoolLit(_) => Some(TBool)
    case NullLit => Some(TNull)
    case Binary(op, l, r) =>
      var a, b := TypeOf(l), TypeOf(r);
      if op.Eq? && a.Some? && b.Some? then Some(TBool)
      else if a != Some(TInt) || b != Some(TInt) then None
      else if Ordering(op) then Some(TBool)
      else if BitLike(op) then Some(TInt)
      else None
    case And(l, r) => if TypeOf(l) == Some(TBool) && TypeOf(r) == Some(TBool) then Some(TBool) else None
    case Or(l, r) => if TypeOf(l) == Some(TBool) && TypeOf(r) == Some(TBool) then Some(TBool) else None
    case IfExpr(c, t, f) => if TypeOf(c).Some? && TypeOf(t) == TypeOf(f) then TypeOf(t) else None
    case _ => None
  }

  predicate HasType(v: Value, t: Ty) {
    match t
    case TInt => v.Int?
    case TBool => v.Bool?
    case TNull => v.Null?
  }

  /** A condition whose truth the optimizer sees, or leaves to run time. */
  predicate Decided(c': Expr) {
    !IsConstant(c') || IsLiteral(c') || c'.ListLit?
  }

  predicate ConditionOk(c: Expr) {
    Decided(Optimize(c)) || TypeOf(c).Some?
  }

  /** `and`/`or` of constants fold to a Boolean, so the operand that decides must be one. */
  predicate LogicOk(l': Expr, r': Expr, isAnd: bool) {
    IsConstant(l') && IsConstant(r') && Evaluate(l').Some? ==>
      var a := Evaluate(l').value;
      if Truthy(a) == isAnd then Evaluate(r').Some? ==> Evaluate(r').value.Bool? else a.Bool?
  }

  /** Comparisons that the evaluation of constants has no case for. */
  predicate NoCase(op: BinaryOp) {
    op.Ne? || op.NotIn?
  }

  /** A comparison without a case, of operands that both fold. */
  predicate Uncovered(op: BinaryOp, l': Expr, r': Expr) {
    NoCase(op) && IsLiteral(l') && IsLiteral(r')
  }

  predicate Safe(e: Expr)
    decreases e
  {
    match e
    case Unary(_, e1) => Safe(e1)
    case Binary(op, l, r) => Safe(l) && Safe(r) && !Uncovered(op, Optimize(l), Optimize(r))
    case And(l, r) => Safe(l) && Safe(r) && LogicOk(Optimize(l), Optimize(r), true)
    case Or(l, r) => Safe(l) && Safe(r) && LogicOk(Optimize(l), Optimize(r), false)
    case IfExpr(c, t, f) => Safe(c) && ConditionOk(c) && Safe(t) && Safe(f)
    case Assign(_, e1) => Safe(e1)
    case CompoundAssign(_, _, e1) => Safe(e1)
    case ListLit(es) => forall x | x in es :: Safe(x)
    case Index(l, r) => Safe(l) && Safe(r)
    case _ => true
  }

  /* Folding is right. */

  lemma EvaluateBinaryRight(op: BinaryOp, a: Value, b: Value)
    requires EvaluateBinary(op, a, b).Some?
    ensures BinaryValue(op, a, b) == Ok(EvaluateBinary(op, a, b).value)
  {
  }

  lemma LiteralRuns(e: Expr, env: Env)
    requires IsLiteral(e)
    ensures IsConstant(e) && EvalExpr(e, env) == Val(LiteralValue(e), env) && Evaluate(e) == Some(LiteralValue(e))
    ensures IsTruthyConstant(e) == Truthy(LiteralValue(e))
  {
  }

  lemma NodeBack(v: Value)
    requires v.Int? || v.Bool? || v.Null?
    ensures IsLiteral(ObjectToNode(v)) && LiteralValue(ObjectToNode(v)) == v
  {
  }

  lemma {:induction false} EvaluatePlain(e: Expr)
    requires Evaluate(e).Some?
    ensures var v := Evaluate(e).value; v.Int? || v.Bool? || v.Null?
    decreases e
  {
  }

  /** What Optimize leaves of a constant is a literal, or the folder cannot evaluate it. */
  lemma {:induction false} OptimizedFolded(e: Expr)
    requires IsConstant(Optimize(e)) && Evaluate(Optimize(e)).Some?
    ensures IsLiteral(Optimize(e))
    decreases e
  {
    match e
    case IfExpr(c, t, f) =>
      var c' := Optimize(c);
      if IsTruthyConstant(c') { OptimizedFolded(t); } else if IsFalsyConstant(c') { OptimizedFolded(f); }
    case Unary(op, e1) => ComputeFolded(Unary(op, Optimize(e1)));
    case Binary(op, l, r) => ComputeFolded(Binary(op, Optimize(l), Optimize(r)));
    case And(l, r) => ComputeFolded(And(Optimize(l), Optimize(r)));
    case Or(l, r) => ComputeFolded(Or(Optimize(l), Optimize(r)));
    case Index(l, r) => ComputeFolded(Index(Optimize(l), Optimize(r)));
    case _ =>
  }

  lemma ComputeFolded(e: Expr)
    ensures IsConstant(Compute(e)) && Evaluate(Compute(e)).Some? ==> IsLiteral(Compute(e))
  {
    if IsConstant(e) && Evaluate(e).Some? {
      EvaluatePlain(e);
      NodeBack(Evaluate(e).value);
    }
  }

  /* Where the optimizer has no meaning: the switch over the comparison operators ends in
     CH_UNREACHABLE. */

  /** Does evaluating `e` get there? Operands of arithmetic are not evaluated. */
  predicate HitsUnreachable(e: Expr)
    decreases e
  {
    match e
    case And(l, r) => HitsUnreachable(l) || (Evaluate(l).Some? && Truthy(Evaluate(l).value) && HitsUnreachable(r))
    case Or(l, r) => HitsUnreachable(l) || (Evaluate(l).Some? && !Truthy(Evaluate(l).value) && HitsUnreachable(r))
    case Binary(op, l, r) =>
      && !op.Add? && !op.Sub? && !op.Mult? && !op.Mod?
      && (HitsUnreachable(l) || HitsUnreachable(r) || (NoCase(op) && Evaluate(l).Some? && Evaluate(r).Some?))
    case _ => false
  }

  predicate ComputeHits(e: Expr) {
    IsConstant(e) && HitsUnreachable(e)
  }

  /** Does optimizing `e`? */
  predicate Reaches(e: Expr)
    decreases e
  {
    match e
    case Unary(_, e1) => Reaches(e1)
    case Binary(op, l, r) => Reaches(l) || Reaches(r) || ComputeHits(Binary(op, Optimize(l), Optimize(r)))
    case And(l, r) => Reaches(l) || Reaches(r) || ComputeHits(And(Optimize(l), Optimize(r)))
    case Or(l, r) => Reaches(l) || Reaches(r) || ComputeHits(Or(Optimize(l), Optimize(r)))
    case IfExpr(c, t, f) =>
      || Reaches(c)
      || (if IsTruthyConstant(Optimize(c)) then Reaches(t)
          else if IsFalsyConstant(Optimize(c)) then Reaches(f)
          else Reaches(t) || Reaches(f))
    case Assign(_, e1) => Reaches(e1)
    case CompoundAssign(_, _, e1) => Reaches(e1)
    case ListLit(es) => exists x | x in es :: Reaches(x)
    case Index(l, r) => Reaches(l) || Reaches(r)
    case _ => false
  }

  /** Somewhere in the part of `e` that is kept, a comparison is left uncovered. */
  predicate LeavesUncovered(e: Expr)
    decreases e
  {
    match e
    case Unary(_, e1) => LeavesUncovered(e1)
    case Binary(op, l, r) => LeavesUncovered(l) || LeavesUncovered(r) || Uncovered(op, Optimize(l), Optimize(r))
    case And(l, r) => LeavesUncovered(l) || LeavesUncovered(r)
    case Or(l, r) => LeavesUncovered(l) || LeavesUncovered(r)
    case IfExpr(c, t, f) =>
      || LeavesUncovered(c)
      || (!IsFalsyConstant(Optimize(c)) && LeavesUncovered(t))
      || (!IsTruthyConstant(Optimize(c)) && LeavesUncovered(f))
    case Assign(_, e1) => LeavesUncovered(e1)
    case CompoundAssign(_, _, e1) => LeavesUncovered(e1)
    case ListLit(es) => exists x | x in es :: LeavesUncovered(x)
    case Index(l, r) => LeavesUncovered(l) || LeavesUncovered(r)
    case _ => false
  }

  lemma {:induction false} HitsInside(e: Expr)
    requires ComputeHits(Optimize(e))
    ensures LeavesUncovered(e)
    decreases e
  {
    match e
    case Binary(op, l, r) => BinaryHits(op, l, r);
    case And(l, r) =>
      ComputeSame(And(Optimize(l), Optimize(r)));
      if HitsUnreachable(Optimize(l)) { HitsInside(l); } else { HitsInside(r); }
    case Or(l, r) =>
      ComputeSame(Or(Optimize(l), Optimize(r)));
      if HitsUnreachable(Optimize(l)) { HitsInside(l); } else { HitsInside(r); }
    case IfExpr(c, t, f) =>
      if IsTruthyConstant(Optimize(c)) { HitsInside(t); } else if IsFalsyConstant(Optimize(c)) { HitsInside(f); }
    case _ =>
  }

  lemma {:induction false} BinaryHits(op: BinaryOp, l: Expr, r: Expr)
    requires ComputeHits(Optimize(Binary(op, l, r))) || ComputeHits(Binary(op, Optimize(l), Optimize(r)))
    ensures LeavesUncovered(Binary(op, l, r))
    decreases Binary(op, l, r), 0
  {
    ComputeSame(Binary(op, Optimize(l), Optimize(r)));
    if HitsUnreachable(Optimize(l)) {
      HitsInside(l);
    } else if HitsUnreachable(Optimize(r)) {
      HitsInside(r);
    } else {
      OptimizedFolded(l);
      OptimizedFolded(r);
    }
  }

  /** A literal is nothing to get stuck on. */
  lemma ComputeSame(e: Expr)
    ensures ComputeHits(Compute(e)) ==> Compute(e) == e
  {
    if IsConstant(e) && Evaluate(e).Some? {
      EvaluatePlain(e);
      NodeBack(Evaluate(e).value);
    }
  }

  /** The optimizer gets there exactly when a comparison with `!=` or `not in` in a part
      that is kept has operands that both fold to literals. */
  lemma {:induction false} ReachesExact(e: Expr)
    ensures Reaches(e) <==> LeavesUncovered(e)
    decreases e
  {
    hide Optimize, Compute, HitsUnreachable, IsConstant;
    match e
    case Unary(_, e1) => ReachesExact(e1);
    case Binary(op, l, r) =>
      ReachesExact(l);
      ReachesExact(r);
      if ComputeHits(Binary(op, Optimize(l), Optimize(r))) { BinaryHits(op, l, r); }
      if Uncovered(op, Optimize(l), Optimize(r)) { UncoveredHits(op, Optimize(l), Optimize(r)); }
    case And(l, r) =>
      ReachesExact(l);
      ReachesExact(r);
      if ComputeHits(And(Optimize(l), Optimize(r))) { LogicHits(l, r, true); }
    case Or(l, r) =>
      ReachesExact(l);
      ReachesExact(r);
      if ComputeHits(Or(Optimize(l), Optimize(r))) { LogicHits(l, r, false); }
    case IfExpr(c, t, f) =>
      ReachesExact(c);
      ReachesExact(t);
      ReachesExact(f);
    case Assign(_, e1) => ReachesExact(e1);
    case CompoundAssign(_, _, e1) => ReachesExact(e1);
    case ListLit(es) => forall x | x in es ensures Reaches(x) <==> LeavesUncovered(x) { ReachesExact(x); }
    case Index(l, r) =>
      ReachesExact(l);
      ReachesExact(r);
    case _ =>
  }

  lemma UncoveredHits(op: BinaryOp, l': Expr, r': Expr)
    requires Uncovered(op, l', r')
    ensures ComputeHits(Binary(op, l', r'))
  {
  }

  lemma LogicHits(l: Expr, r: Expr, isAnd: bool)
    requires ComputeHits(if isAnd then And(Optimize(l), Optimize(r)) else Or(Optimize(l), Optimize(r)))
    ensures LeavesUncovered(l) || LeavesUncovered(r)
  {
    if HitsUnreachable(Optimize(l)) { HitsInside(l); } else { HitsInside(r); }
  }

  /** Where the meaning is claimed to be kept, the optimizer has one. */
  lemma {:induction false} SafeDefined(e: Expr)
    requires Safe(e)
    ensures !LeavesUncovered(e) && !Reaches(e)
    decreases e
  {
    hide Optimize, Reaches, ConditionOk, LogicOk, Uncovered;
    ReachesExact(e);
    match e
    case Unary(_, e1) => SafeDefined(e1);
    case Binary(_, l, r) =>
      SafeDefined(l);
      SafeDefined(r);
    case And(l, r) =>
      SafeDefined(l);
      SafeDefined(r);
    case Or(l, r) =>
      SafeDefined(l);
      SafeDefined(r);
    case IfExpr(c, t, f) =>
      SafeDefined(c);
      SafeDefined(t);
      SafeDefined(f);
    case Assign(_, e1) => SafeDefined(e1);
    case CompoundAssign(_, _, e1) => SafeDefined(e1);
    case ListLit(es) => forall x | x in es ensures !LeavesUncovered(x) { SafeDefined(x); }
    case Index(l, r) =>
      SafeDefined(l);
      SafeDefined(r);
    case _ =>
  }

  /** `1 != 2` is such a comparison; `1 + 0 != 2` is none, as sums are not folded. */
  lemma InequalityOfLiterals()
    ensures Reaches(Binary(Ne, IntLit(1), IntLit(2)))
    ensures !Reaches(Binary(Ne, Binary(Add, IntLit(1), IntLit(0)), IntLit(2)))
  {
    var sum := Binary(Add, IntLit(1), IntLit(0));
    assert Optimize(IntLit(1)) == IntLit(1) && Optimize(IntLit(2)) == IntLit(2);
    assert Optimize(sum) == sum && !HitsUnreachable(sum) && Evaluate(sum).None?;
  }

  /** Operands that fold are literals. */
  lemma FoldedOperand(e: Expr, env: Env)
    requires IsConstant(Optimize(e)) && Evaluate(Optimize(e)).Some?
    ensures EvalExpr(Optimize(e), env) == Val(Evaluate(Optimize(e)).value, env)
  {
    OptimizedFolded(e);
    LiteralRuns(Optimize(e), env);
  }

  lemma ComputeBinary(op: BinaryOp, l: Expr, r: Expr, env: Env)
    ensures var e' := Binary(op, Optimize(l), Optimize(r)); EvalExpr(Compute(e'), env) == EvalExpr(e', env)
  {
    var e' := Binary(op, Optimize(l), Optimize(r));
    if IsConstant(e') && Evaluate(e').Some? {
      FoldedOperand(l, env);
      FoldedOperand(r, env);
      EvaluateBinaryRight(op, Evaluate(Optimize(l)).value, Evaluate(Optimize(r)).value);
      EvaluatePlain(e');
      NodeBack(Evaluate(e').value);
      LiteralRuns(Compute(e'), env);
    }
  }

  lemma ComputeLogic(l: Expr, r: Expr, isAnd: bool, env: Env)
    requires LogicOk(Optimize(l), Optimize(r), isAnd)
    ensures var e' := if isAnd then And(Optimize(l), Optimize(r)) else Or(Optimize(l), Optimize(r));
            EvalExpr(Compute(e'), env) == EvalExpr(e', env)
  {
    var e' := if isAnd then And(Optimize(l), Optimize(r)) else Or(Optimize(l), Optimize(r));
    if IsConstant(e') && Evaluate(e').Some? {
      FoldedOperand(l, env);
      if Evaluate(Optimize(r)).Some? { FoldedOperand(r, env); }
      EvaluatePlain(e');
      NodeBack(Evaluate(e').value);
      LiteralRuns(Compute(e'), env);
    }
  }

  lemma ComputeOther(e: Expr)
    requires e.Unary? || e.Index?
    ensures Compute(e) == e
  {
  }

  /** The key lemma: a typed constant that runs without an error folds to the
      literal of its value. */
  lemma {:induction false} TypedFolds(e: Expr, env: Env)
    requires TypeOf(e).Some?
    ensures IsConstant(Optimize(e))
    ensures var r := EvalExpr(e, env);
            r.Val? ==> r.env == env && HasType(r.value, TypeOf(e).value)
                       && IsLiteral(Optimize(e)) && LiteralValue(Optimize(e)) == r.value
    decreases e
  {
    match e
    case Binary(op, l, r) =>
      TypedFolds(l, env);
      TypedFolds(r, env);
      TypedBinary(op, l, r, env);
    case And(l, r) =>
      TypedFolds(l, env);
      TypedFolds(r, env);
      TypedAnd(l, r, env);
    case Or(l, r) =>
      TypedFolds(l, env);
      TypedFolds(r, env);
      TypedOr(l, r, env);
    case IfExpr(c, t, f) =>
      TypedFolds(c, env);
      TypedFolds(t, env);
      TypedFolds(f, env);
      if EvalExpr(c, env).Val? { LiteralRuns(Optimize(c), env); }
    case _ =>
  }

  lemma TypedBinary(op: BinaryOp, l: Expr, r: Expr, env: Env)
    requires TypeOf(Binary(op, l, r)).Some?
    requires IsConstant(Optimize(l)) && IsConstant(Optimize(r))
    requires forall x | x == l || x == r :: var res := EvalExpr(x, env);
               res.Val? ==> res.env == env && HasType(res.value, TypeOf(x).value)
                            && IsLiteral(Optimize(x)) && LiteralValue(Optimize(x)) == res.value
    ensures var e := Binary(op, l, r);
            && IsConstant(Optimize(e))
            && (EvalExpr(e, env).Val? ==>
                  && EvalExpr(e, env).env == env && HasType(EvalExpr(e, env).value, TypeOf(e).value)
                  && IsLiteral(Optimize(e)) && LiteralValue(Optimize(e)) == EvalExpr(e, env).value)
  {
    hide TypeOf, EvaluateBinary, BinaryValue;
    TypedOperands(op, l, r);
    var e, e' := Binary(op, l, r), Binary(op, Optimize(l), Optimize(r));
    if Evaluate(e').Some? {
      EvaluatePlain(e');
      NodeBack(Evaluate(e').value);
    }
    if EvalExpr(e, env).Val? {
      LiteralRuns(Optimize(l), env);
      LiteralRuns(Optimize(r), env);
      BinaryFolds(op, EvalExpr(l, env).value, EvalExpr(r, env).value);
    }
  }

  lemma BinaryFolds(op: BinaryOp, a: Value, b: Value)
    requires op.Eq? || ((Ordering(op) || BitLike(op)) && a.Int? && b.Int?)
    requires BinaryValue(op, a, b).Ok?
    ensures EvaluateBinary(op, a, b) == Some(BinaryValue(op, a, b).value)
    ensures HasType(BinaryValue(op, a, b).value, if BitLike(op) then TInt else TBool)
  {
  }

  lemma TypedOperands(op: BinaryOp, l: Expr, r: Expr)
    requires TypeOf(Binary(op, l, r)).Some?
    ensures TypeOf(l).Some? && TypeOf(r).Some? && (op.Eq? || Ordering(op) || BitLike(op))
    ensures !op.Eq? ==> TypeOf(l) == TypeOf(r) == Some(TInt)
    ensures TypeOf(Binary(op, l, r)) == Some(if BitLike(op) then TInt else TBool)
  {
  }

  ghost predicate TypedPart(x: Expr, env: Env) {
    && TypeOf(x).Some? && IsConstant(Optimize(x))
    && var res := EvalExpr(x, env);
       res.Val? ==> res.env == env && HasType(res.value, TypeOf(x).value)
                    && IsLiteral(Optimize(x)) && LiteralValue(Optimize(x)) == res.value
  }

  lemma TypedAnd(l: Expr, r: Expr, env: Env)
    requires TypeOf(And(l, r)).Some? && TypedPart(l, env) && TypedPart(r, env)
    ensures TypedPart(And(l, r), env)
  {
    var e' := And(Optimize(l), Optimize(r));
    if Evaluate(e').Some? {
      EvaluatePlain(e');
      NodeBack(Evaluate(e').value);
    }
    if EvalExpr(l, env).Val? { LiteralRuns(Optimize(l), env); }
    if EvalExpr(r, env).Val? { LiteralRuns(Optimize(r), env); }
  }

  lemma TypedOr(l: Expr, r: Expr, env: Env)
    requires TypeOf(Or(l, r)).Some? && TypedPart(l, env) && TypedPart(r, env)
    ensures TypedPart(Or(l, r), env)
  {
    var e' := Or(Optimize(l), Optimize(r));
    if Evaluate(e').Some? {
      EvaluatePlain(e');
      NodeBack(Evaluate(e').value);
    }
    if EvalExpr(l, env).Val? { LiteralRuns(Optimize(l), env); }
    if EvalExpr(r, env).Val? { LiteralRuns(Optimize(r), env); }
  }

  /* Expressions keep their meaning. */

  lemma {:induction false} ConstantKeepsEnv(e: Expr, env: Env)
    requires IsConstant(e)
    ensures EvalExpr(e, env).Val? ==> EvalExpr(e, env).env == env
    decreases e
  {
    match e
    case Unary(_, e1) => ConstantKeepsEnv(e1, env);
    case Binary(_, l, r) =>
      ConstantKeepsEnv(l, env);
      ConstantKeepsEnv(r, env);
    case And(l, r) =>
      ConstantKeepsEnv(l, env);
      ConstantKeepsEnv(r, env);
    case Or(l, r) =>
      ConstantKeepsEnv(l, env);
      ConstantKeepsEnv(r, env);
    case IfExpr(c, t, f) =>
      ConstantKeepsEnv(c, env);
      ConstantKeepsEnv(t, env);
      ConstantKeepsEnv(f, env);
    case ListLit(es) => if EvalList(es, env).Vals? { ConstantsKeepEnv(es, env); }
    case Index(l, r) =>
      ConstantKeepsEnv(l, env);
      ConstantKeepsEnv(r, env);
    case _ =>
  }

  lemma {:induction false} ConstantsKeepEnv(es: seq<Expr>, env: Env)
    requires (forall x | x in es :: IsConstant(x)) && EvalList(es, env).Vals?
    ensures EvalList(es, env).env == env
    decreases es
  {
    if es != [] {
      ConstantKeepsEnv(es[0], env);
      ConstantsKeepEnv(es[1..], env);
    }
  }

  /** The optimizer sees the truth of a decided condition. */
  lemma DecidedTruth(c: Expr, env: Env)
    requires IsConstant(c) && Decided(c) && EvalExpr(c, env).Val?
    ensures EvalExpr(c, env).env == env && IsTruthyConstant(c) == Truthy(EvalExpr(c, env).value)
  {
    ConstantKeepsEnv(c, env);
  }

  lemma ConditionSeen(c: Expr, env: Env)
    requires ConditionOk(c) && EvalExpr(c, env).Val? && EvalExpr(Optimize(c), env) == EvalExpr(c, env)
    requires IsConstant(Optimize(c))
    ensures EvalExpr(c, env).env == env && IsTruthyConstant(Optimize(c)) == Truthy(EvalExpr(c, env).value)
  {
    if TypeOf(c).Some? { TypedFolds(c, env); }
    DecidedTruth(Optimize(c), env);
  }

  /** An error-free evaluation gives the same value and the same assignments after
      optimizing. */
  lemma {:induction false} OptimizeSound(e: Expr, env: Env)
    requires Safe(e) && EvalExpr(e, env).Val?
    ensures EvalExpr(Optimize(e), env) == EvalExpr(e, env)
    decreases e, 1
  {
    hide Compute, TypeOf, Evaluate, LogicOk, ConditionOk;
    match e
    case Unary(op, e1) =>
      OptimizeSound(e1, env);
      ComputeOther(Unary(op, Optimize(e1)));
    case Binary(op, l, r) =>
      OptimizeSound(l, env);
      OptimizeSound(r, EvalExpr(l, env).env);
      ComputeBinary(op, l, r, env);
    case And(l, r) =>
      OptimizeSound(l, env);
      var a := EvalExpr(l, env);
      if Truthy(a.value) { OptimizeSound(r, a.env); }
      ComputeLogic(l, r, true, env);
    case Or(l, r) =>
      OptimizeSound(l, env);
      var a := EvalExpr(l, env);
      if !Truthy(a.value) { OptimizeSound(r, a.env); }
      ComputeLogic(l, r, false, env);
    case IfExpr(_, _, _) => OptimizeIf(e, env);
    case Assign(_, e1) => OptimizeSound(e1, env);
    case CompoundAssign(_, _, e1) => OptimizeSound(e1, env);
    case ListLit(es) => OptimizeListSound(es, env);
    case Index(l, r) =>
      OptimizeSound(l, env);
      OptimizeSound(r, EvalExpr(l, env).env);
      ComputeOther(Index(Optimize(l), Optimize(r)));
    case _ =>
  }

  lemma {:induction false} OptimizeIf(e: Expr, env: Env)
    requires e.IfExpr? && Safe(e) && EvalExpr(e, env).Val?
    ensures EvalExpr(Optimize(e), env) == EvalExpr(e, env)
    decreases e, 0
  {
    hide TypeOf, Evaluate, ConditionOk, IsConstant;
    var IfExpr(c, t, f) := e;
    OptimizeSound(c, env);
    var v := EvalExpr(c, env);
    if Truthy(v.value) { OptimizeSound(t, v.env); } else { OptimizeSound(f, v.env); }
    if IsConstant(Optimize(c)) { ConditionSeen(c, env); }
  }

  lemma {:induction false} OptimizeListSound(es: seq<Expr>, env: Env)
    requires (forall x | x in es :: Safe(x)) && EvalList(es, env).Vals?
    ensures EvalList(OptimizeList(es), env) == EvalList(es, env)
    decreases es, 0
  {
    if es != [] {
      OptimizeSound(es[0], env);
      OptimizeListSound(es[1..], EvalExpr(es[0], env).env);
      assert OptimizeList(es)[1..] == OptimizeList(es[1..]);
    }
  }

  /** The other way round: a condition that stays an unfolded constant is taken for
      false, so replacing the choice is right, whatever its branches are, exactly
      when it is false. */
  lemma UnfoldedCondition(c: Expr, env: Env)
    requires Safe(c) && IsConstant(Optimize(c)) && !Decided(Optimize(c)) && EvalExpr(c, env).Val?
    ensures (forall t, f | Safe(t) && Safe(f) && EvalExpr(IfExpr(c, t, f), env).Val? ::
               EvalExpr(Optimize(IfExpr(c, t, f)), env) == EvalExpr(IfExpr(c, t, f), env))
            <==> !Truthy(EvalExpr(c, env).value)
  {
    hide IsConstant, Safe, EvalExpr, Optimize, Decided, Truthy;
    OptimizeSound(c, env);
    ConstantKeepsEnv(Optimize(c), env);
    if !Truthy(EvalExpr(c, env).value) {
      forall t, f | Safe(t) && Safe(f) && EvalExpr(IfExpr(c, t, f), env).Val?
        ensures EvalExpr(Optimize(IfExpr(c, t, f)), env) == EvalExpr(IfExpr(c, t, f), env)
      {
        EvalChoice(c, t, f, env);
        TakenForFalse(c, t, f);
        OptimizeSound(f, env);
      }
    } else {
      var t, f := IntLit(1), IntLit(0);
      LiteralsSafe(1, env);
      LiteralsSafe(0, env);
      EvalChoice(c, t, f, env);
      TakenForFalse(c, t, f);
    }
  }

  lemma LiteralsSafe(i: i64, env: Env)
    ensures Safe(IntLit(i)) && Optimize(IntLit(i)) == IntLit(i) && EvalExpr(IntLit(i), env) == Val(Int(i), env)
  {
  }

  lemma EvalChoice(c: Expr, t: Expr, f: Expr, env: Env)
    requires EvalExpr(c, env).Val? && EvalExpr(c, env).env == env
    ensures EvalExpr(IfExpr(c, t, f), env) == EvalExpr(if Truthy(EvalExpr(c, env).value) then t else f, env)
  {
  }

  lemma TakenForFalse(c: Expr, t: Expr, f: Expr)
    requires IsConstant(Optimize(c)) && !Decided(Optimize(c))
    ensures Optimize(IfExpr(c, t, f)) == Optimize(f)
  {
  }

  /** Folding `and`/`or` of constants is right exactly when the operand that decides
      is a Boolean. */
  lemma LogicExact(l: Expr, r: Expr, isAnd: bool, env: Env)
    requires Safe(l) && Safe(r) && EvalExpr(if isAnd then And(l, r) else Or(l, r), env).Val?
    ensures var e := if isAnd then And(l, r) else Or(l, r);
            EvalExpr(Optimize(e), env) == EvalExpr(e, env) <==> LogicOk(Optimize(l), Optimize(r), isAnd)
  {
    if LogicOk(Optimize(l), Optimize(r), isAnd) {
      OptimizeSound(if isAnd then And(l, r) else Or(l, r), env);
    } else {
      LogicWrong(l, r, isAnd, env);
    }
  }

  lemma LogicWrong(l: Expr, r: Expr, isAnd: bool, env: Env)
    requires Safe(l) && Safe(r) && EvalExpr(if isAnd then And(l, r) else Or(l, r), env).Val?
    requires !LogicOk(Optimize(l), Optimize(r), isAnd)
    ensures var e := if isAnd then And(l, r) else Or(l, r); EvalExpr(Optimize(e), env) != EvalExpr(e, env)
  {
    hide Safe, Optimize, EvalExpr, LogicOk, Truthy, IsConstant;
    EvalLogic(l, r, isAnd, env);
    OptimizeLogic(l, r, isAnd);
    var b := LogicFolds(Optimize(l), Optimize(r), isAnd);
    BoolRuns(b, env);
    OptimizeSound(l, env);
    FoldedOperand(l, env);
    if Truthy(EvalExpr(l, env).value) == isAnd {
      OptimizeSound(r, env);
      FoldedOperand(r, env);
    }
  }

  lemma EvalLogic(l: Expr, r: Expr, isAnd: bool, env: Env)
    requires EvalExpr(if isAnd then And(l, r) else Or(l, r), env).Val?
    ensures EvalExpr(l, env).Val?
    ensures var a := EvalExpr(l, env);
            EvalExpr(if isAnd then And(l, r) else Or(l, r), env) == if Truthy(a.value) == isAnd then EvalExpr(r, a.env) else a
  {
  }

  lemma OptimizeLogic(l: Expr, r: Expr, isAnd: bool)
    ensures Optimize(if isAnd then And(l, r) else Or(l, r))
         == Compute(if isAnd then And(Optimize(l), Optimize(r)) else Or(Optimize(l), Optimize(r)))
  {
  }

  lemma LogicFolds(l': Expr, r': Expr, isAnd: bool) returns (b: bool)
    requires !LogicOk(l', r', isAnd)
    ensures Compute(if isAnd then And(l', r') else Or(l', r')) == BoolLit(b)
    ensures IsConstant(l') && IsConstant(r') && Evaluate(l').Some?
    ensures var a := Evaluate(l').value;
            if Truthy(a) == isAnd then Evaluate(r').Some? && !Evaluate(r').value.Bool? else !a.Bool?
  {
    var e := if isAnd then And(l', r') else Or(l', r');
    b := Evaluate(e).value.b;
  }

  lemma BoolRuns(b: bool, env: Env)
    ensures EvalExpr(BoolLit(b), env) == Val(Bool(b), env)
  {
  }

  /** `if 1 + 2: 1 else: 0` is 1, and 0 after optimizing. */
  lemma SumAsCondition(env: Env)
    ensures var e := IfExpr(Binary(Add, IntLit(1), IntLit(2)), IntLit(1), IntLit(0));
            EvalExpr(e, env) == Val(Int(1), env) && EvalExpr(Optimize(e), env) == Val(Int(0), env)
  {
    var c := Binary(Add, IntLit(1), IntLit(2));
    assert EvalExpr(c, env) == Val(Int(3), env);
    assert Optimize(c) == c;
  }

  /** `1 and 2` is 2, and `true` after optimizing. */
  lemma LogicOfNumbers(env: Env)
    ensures var e := And(IntLit(1), IntLit(2));
            EvalExpr(e, env) == Val(Int(2), env) && EvalExpr(Optimize(e), env) == Val(Bool(true), env)
  {
  }

  /* Statements keep their outcome. */

  predicate SafeStmt(s: Stmt)
    decreases s
  {
    match s
    case ExprStmt(e) => Safe(e)
    case VarDecl(_, _, values) => forall x | x in values :: Safe(x)
    case Block(ss) => forall x | x in ss :: SafeStmt(x)
    case If(c, t, f) => Safe(c) && ConditionOk(c) && SafeStmt(t) && SafeStmt(f)
    case While(c, _, body, els) => Safe(c) && ConditionOk(c) && SafeStmt(body) && SafeStmt(els)
    case Repeat(body, c, tag) => Safe(c) && SafeStmt(body) && (Unrolled(s) ==> NoJumpTo(body, tag, false))
    case _ => true
  }

  /** Only jumps directly in the block keep the optimizer from dropping the loop. */
  predicate Unrolled(s: Stmt)
    requires s.Repeat?
  {
    IsTruthyConstant(Optimize(s.cond)) && DirectLoop(OptimizeStmt(s.body), s.tag)
  }

  predicate ReachesStmt(s: Stmt)
    decreases s
  {
    match s
    case ExprStmt(e) => Reaches(e)
    case VarDecl(_, _, values) => exists x | x in values :: Reaches(x)
    case Block(ss) => exists x | x in ss :: ReachesStmt(x)
    case If(c, t, f) =>
      || Reaches(c)
      || (!IsFalsyConstant(Optimize(c)) && ReachesStmt(t))
      || (!IsTruthyConstant(Optimize(c)) && ReachesStmt(f))
    case While(c, _, body, els) =>
      || Reaches(c)
      || (!IsConstant(Optimize(c)) && ReachesStmt(body))
      || (!IsTruthyConstant(Optimize(c)) && ReachesStmt(els))
    case Repeat(body, c, _) => Reaches(c) || ReachesStmt(body)
    case _ => false
  }

  lemma {:induction false} SafeStmtDefined(s: Stmt)
    requires SafeStmt(s)
    ensures !ReachesStmt(s)
    decreases s
  {
    hide Optimize, IsConstant, Safe, Reaches, LeavesUncovered, ConditionOk, Unrolled;
    match s
    case ExprStmt(e) => SafeDefined(e);
    case VarDecl(_, _, values) => forall x | x in values ensures !Reaches(x) { SafeDefined(x); }
    case Block(ss) => forall x | x in ss ensures !ReachesStmt(x) { SafeStmtDefined(x); }
    case If(c, t, f) =>
      SafeDefined(c);
      SafeStmtDefined(t);
      SafeStmtDefined(f);
    case While(c, _, body, els) =>
      SafeDefined(c);
      SafeStmtDefined(body);
      SafeStmtDefined(els);
    case Repeat(body, c, _) =>
      SafeDefined(c);
      SafeStmtDefined(body);
    case _ =>
  }

  /** A run without a runtime error has the same outcome after optimizing, with the
      same number of loop rounds. */
  lemma {:induction false} OptimizeStmtSound(s: Stmt, env: Env, fuel: nat)
    requires SafeStmt(s) && !Exec(s, env, fuel).Threw?
    ensures Exec(OptimizeStmt(s), env, fuel) == Exec(s, env, fuel)
    decreases fuel, s, 2
  {
    hide EvalExpr, Optimize, IsConstant, Unrolled;
    match s
    case ExprStmt(e) => OptimizeSound(e, env);
    case VarDecl(_, _, values) => if env != [] && values != [] { OptimizeListSound(values, env); }
    case Block(ss) => OptimizeAllSound(ss, env + [map[]], fuel);
    case If(c, t, f) =>
      var v := EvalExpr(c, env);
      OptimizeSound(c, env);
      if Truthy(v.value) { OptimizeStmtSound(t, v.env, fuel); } else { OptimizeStmtSound(f, v.env, fuel); }
      if IsConstant(Optimize(c)) { ConditionSeen(c, env); }
    case While(_, _, _, _) => OptimizeWhile(s, env, fuel);
    case Repeat(_, _, _) => OptimizeRepeat(s, env, fuel);
    case _ =>
  }

  /** The other way round, for statements: a condition that stays an unfolded constant is
      taken for false. Replacing an `if` statement by its else branch is right, whatever
      its branches are, exactly when the condition is false. */
  lemma UnfoldedIf(c: Expr, env: Env, fuel: nat)
    requires Safe(c) && IsConstant(Optimize(c)) && !Decided(Optimize(c)) && EvalExpr(c, env).Val?
    ensures (forall t, f | SafeStmt(t) && SafeStmt(f) && !Exec(If(c, t, f), env, fuel).Threw? ::
               Exec(OptimizeStmt(If(c, t, f)), env, fuel) == Exec(If(c, t, f), env, fuel))
            <==> !Truthy(EvalExpr(c, env).value)
  {
    hide IsConstant, Safe, EvalExpr, Optimize, Decided, Truthy, SafeStmt, Exec, OptimizeStmt;
    OptimizeSound(c, env);
    ConstantKeepsEnv(Optimize(c), env);
    if !Truthy(EvalExpr(c, env).value) {
      forall t, f | SafeStmt(t) && SafeStmt(f) && !Exec(If(c, t, f), env, fuel).Threw?
        ensures Exec(OptimizeStmt(If(c, t, f)), env, fuel) == Exec(If(c, t, f), env, fuel)
      {
        DroppedIf(c, t, f, env, fuel);
        OptimizeStmtSound(f, env, fuel);
      }
    } else {
      var t, f := Break(None), Empty;
      JumpsRun(None, env, fuel);
      DroppedIf(c, t, f, env, fuel);
      assert Exec(OptimizeStmt(If(c, t, f)), env, fuel) != Exec(If(c, t, f), env, fuel);
    }
  }

  lemma DroppedIf(c: Expr, t: Stmt, f: Stmt, env: Env, fuel: nat)
    requires IsConstant(Optimize(c)) && !Decided(Optimize(c)) && EvalExpr(c, env).Val? && EvalExpr(c, env).env == env
    ensures OptimizeStmt(If(c, t, f)) == OptimizeStmt(f)
    ensures Exec(If(c, t, f), env, fuel) == Exec(if Truthy(EvalExpr(c, env).value) then t else f, env, fuel)
  {
    hide IsConstant, EvalExpr, Optimize, Truthy;
  }

  lemma JumpsRun(tag: Option<string>, env: Env, fuel: nat)
    ensures SafeStmt(Break(tag)) && SafeStmt(Empty) && OptimizeStmt(Empty) == Empty
    ensures Exec(Break(tag), env, fuel) == Broke(tag, env) && Exec(Empty, env, fuel) == Normal(env)
  {
  }

  /** Replacing a `while` loop by its else clause: the same. */
  lemma UnfoldedWhile(c: Expr, env: Env, fuel: nat)
    requires Safe(c) && IsConstant(Optimize(c)) && !Decided(Optimize(c)) && EvalExpr(c, env).Val?
    ensures (forall tag, body, els | SafeStmt(body) && SafeStmt(els) && !Exec(While(c, tag, body, els), env, fuel).Threw? ::
               Exec(OptimizeStmt(While(c, tag, body, els)), env, fuel) == Exec(While(c, tag, body, els), env, fuel))
            <==> !Truthy(EvalExpr(c, env).value)
  {
    hide IsConstant, Safe, EvalExpr, Optimize, Decided, Truthy, SafeStmt, Exec, OptimizeStmt;
    OptimizeSound(c, env);
    ConstantKeepsEnv(Optimize(c), env);
    if !Truthy(EvalExpr(c, env).value) {
      forall tag, body, els | SafeStmt(body) && SafeStmt(els) && !Exec(While(c, tag, body, els), env, fuel).Threw?
        ensures Exec(OptimizeStmt(While(c, tag, body, els)), env, fuel) == Exec(While(c, tag, body, els), env, fuel)
      {
        DroppedWhile(c, tag, body, els, env, fuel);
        OptimizeStmtSound(els, env, fuel);
      }
    } else {
      var out := Some("outer");
      JumpsRun(out, env, fuel);
      DroppedWhile(c, None, Break(out), Empty, env, fuel);
      LeftLoop(c, out, env, fuel);
      assert Exec(OptimizeStmt(While(c, None, Break(out), Empty)), env, fuel) != Exec(While(c, None, Break(out), Empty), env, fuel);
    }
  }

  lemma DroppedWhile(c: Expr, tag: Option<string>, body: Stmt, els: Stmt, env: Env, fuel: nat)
    requires IsConstant(Optimize(c)) && !Decided(Optimize(c)) && EvalExpr(c, env).Val? && EvalExpr(c, env).env == env
    ensures OptimizeStmt(While(c, tag, body, els)) == OptimizeStmt(els)
    ensures !Truthy(EvalExpr(c, env).value) ==> Exec(While(c, tag, body, els), env, fuel) == Exec(els, env, fuel)
  {
    hide IsConstant, EvalExpr, Optimize, Truthy;
  }

  lemma LeftLoop(c: Expr, out: Option<string>, env: Env, fuel: nat)
    requires EvalExpr(c, env).Val? && EvalExpr(c, env).env == env && Truthy(EvalExpr(c, env).value) && out.Some?
    ensures Exec(While(c, None, Break(out), Empty), env, fuel) == Broke(out, env)
  {
    hide EvalExpr, Truthy;
  }

  lemma {:induction false} OptimizeAllSound(ss: seq<Stmt>, env: Env, fuel: nat)
    requires (forall x | x in ss :: SafeStmt(x)) && !ExecAll(ss, env, fuel).Threw?
    ensures ExecAll(OptimizeAll(ss), env, fuel) == ExecAll(ss, env, fuel)
    decreases fuel, ss, 1
  {
    if ss != [] {
      OptimizeStmtSound(ss[0], env, fuel);
      var o := Exec(ss[0], env, fuel);
      if o.Normal? { OptimizeAllSound(ss[1..], o.env, fuel); }
      assert OptimizeAll(ss)[1..] == OptimizeAll(ss[1..]);
    }
  }

  lemma {:induction false} OptimizeWhile(s: Stmt, env: Env, fuel: nat)
    requires s.While? && SafeStmt(s) && !Exec(s, env, fuel).Threw?
    ensures Exec(OptimizeStmt(s), env, fuel) == Exec(s, env, fuel)
    decreases fuel, s, 1
  {
    hide EvalExpr, Optimize, IsConstant;
    var While(c, tag, body, els) := s;
    var v := EvalExpr(c, env);
    OptimizeSound(c, env);
    if IsConstant(Optimize(c)) { ConditionSeen(c, env); }
    if !Truthy(v.value) {
      OptimizeStmtSound(els, v.env, fuel);
    } else {
      var o := Exec(body, v.env, fuel);
      OptimizeStmtSound(body, v.env, fuel);
      if (o.Normal? || (o.Continued? && Hits(o.tag, tag))) && fuel > 0 { OptimizeStmtSound(s, o.env, fuel - 1); }
    }
  }

  lemma {:induction false} OptimizeRepeat(s: Stmt, env: Env, fuel: nat)
    requires s.Repeat? && SafeStmt(s) && !Exec(s, env, fuel).Threw?
    ensures Exec(OptimizeStmt(s), env, fuel) == Exec(s, env, fuel)
    decreases fuel, s, 1
  {
    hide EvalExpr, Optimize, IsConstant;
    var Repeat(body, c, tag) := s;
    var o := Exec(body, env, fuel);
    OptimizeStmtSound(body, env, fuel);
    if Unrolled(s) {
      SC.NoJumpEscapes(body, tag, false, env, fuel);
      if o.Normal? { UntilTrue(body, c, tag, o.env, fuel); }
    } else if o.Normal? || (o.Continued? && Hits(o.tag, tag)) {
      var v := EvalExpr(c, o.env);
      OptimizeSound(c, o.env);
      if !Truthy(v.value) && fuel > 0 { OptimizeStmtSound(s, v.env, fuel - 1); }
    }
  }

  /** The test of an unrolled loop passes at once and changes nothing. */
  lemma UntilTrue(body: Stmt, c: Expr, tag: Option<string>, env: Env, fuel: nat)
    requires Safe(c) && IsTruthyConstant(Optimize(c)) && EvalExpr(c, env).Val?
    ensures Until(body, c, tag, env, fuel) == Normal(env)
  {
    OptimizeSound(c, env);
    DecidedTruth(Optimize(c), env);
  }

  /** Dropping the loop is right exactly when its block does not end with a jump to
      it. */
  lemma UnrollExact(s: Stmt, env: Env, fuel: nat)
    requires s.Repeat? && Unrolled(s) && Safe(s.cond) && SafeStmt(s.body) && !Exec(s, env, fuel).Threw?
    ensures var o := Exec(s.body, env, fuel);
            Exec(OptimizeStmt(s), env, fuel) == Exec(s, env, fuel)
            <==> !((o.Broke? || o.Continued?) && Hits(o.tag, s.tag))
  {
    hide EvalExpr, Optimize, IsConstant;
    var Repeat(body, c, tag) := s;
    var o := Exec(body, env, fuel);
    OptimizeStmtSound(body, env, fuel);
    if o.Normal? || (o.Continued? && Hits(o.tag, tag)) { UntilTrue(body, c, tag, o.env, fuel); }
  }

  /** A `break` one level down is not seen: `repeat { { break } } until true` ends
      normally, and breaks out of the enclosing loop after optimizing. */
  lemma NestedBreak(env: Env)
    ensures var s := Repeat(Block([Block([Break(None)])]), BoolLit(true), None);
            Exec(s, env, 0) == Normal(env) && Exec(OptimizeStmt(s), env, 0) == Broke(None, env)
  {
    var inner := Block([Break(None)]);
    var body := Block([inner]);
    assert OptimizeAll([Break(None)]) == [Break(None)];
    assert OptimizeAll([inner]) == [inner];
    assert OptimizeStmt(body) == body;
    var deep := env + [map[]];
    assert Exec(Break(None), deep + [map[]], 0) == Broke(None, deep + [map[]]);
    assert (deep + [map[]])[..|deep|] == deep && deep[..|env|] == env;
    assert Exec(inner, deep, 0) == Broke(None, deep);
    assert Exec(body, env, 0) == Broke(None, env);
  }

  /* What the optimizer leaves. */

  /** No constant that could be evaluated, except for literals, and no choice whose
      condition is a constant. */
  predicate Folded(e: Expr)
    decreases e
  {
    && (IsConstant(e) && Evaluate(e).Some? ==> IsLiteral(e))
    && match e
       case Unary(_, e1) => Folded(e1)
       case Binary(_, l, r) => Folded(l) && Folded(r)
       case And(l, r) => Folded(l) && Folded(r)
       case Or(l, r) => Folded(l) && Folded(r)
       case IfExpr(c, t, f) => !IsConstant(c) && Folded(c) && Folded(t) && Folded(f)
       case Assign(_, e1) => Folded(e1)
       case CompoundAssign(_, _, e1) => Folded(e1)
       case ListLit(es) => forall x | x in es :: Folded(x)
       case Index(l, r) => Folded(l) && Folded(r)
       case _ => true
  }

  /** Everything foldable is folded. */
  lemma {:induction false} OptimizeFolds(e: Expr)
    ensures Folded(Optimize(e))
    decreases e
  {
    hide IsConstant, Evaluate, IsTruthyConstant;
    if IsConstant(Optimize(e)) && Evaluate(Optimize(e)).Some? { OptimizedFolded(e); }
    match e
    case Unary(op, e1) =>
      OptimizeFolds(e1);
      ComputeParts(Unary(op, Optimize(e1)));
    case Binary(op, l, r) =>
      OptimizeFolds(l);
      OptimizeFolds(r);
      ComputeParts(Binary(op, Optimize(l), Optimize(r)));
    case And(l, r) =>
      OptimizeFolds(l);
      OptimizeFolds(r);
      ComputeParts(And(Optimize(l), Optimize(r)));
    case Or(l, r) =>
      OptimizeFolds(l);
      OptimizeFolds(r);
      ComputeParts(Or(Optimize(l), Optimize(r)));
    case IfExpr(c, t, f) =>
      OptimizeFolds(c);
      OptimizeFolds(t);
      OptimizeFolds(f);
    case Assign(_, e1) => OptimizeFolds(e1);
    case CompoundAssign(_, _, e1) => OptimizeFolds(e1);
    case ListLit(es) => OptimizeListFolds(es);
    case Index(l, r) =>
      OptimizeFolds(l);
      OptimizeFolds(r);
      ComputeParts(Index(Optimize(l), Optimize(r)));
    case _ =>
  }

  lemma {:induction false} OptimizeListFolds(es: seq<Expr>)
    ensures forall x | x in OptimizeList(es) :: Folded(x)
    decreases es
  {
    if es != [] {
      OptimizeFolds(es[0]);
      OptimizeListFolds(es[1..]);
    }
  }

  lemma ComputeParts(e: Expr)
    ensures Compute(e) == e || IsLiteral(Compute(e))
    ensures forall x | IsLiteral(x) :: Folded(x)
  {
  }

  /** No branch that a constant condition decides: if statements test something, a loop
      whose condition always holds has no else clause and is otherwise left alone, and no
      repeat block that runs once is left. */
  predicate Pruned(s: Stmt)
    decreases s
  {
    match s
    case ExprStmt(e) => Folded(e)
    case VarDecl(_, _, values) => forall x | x in values :: Folded(x)
    case Block(ss) => forall x | x in ss :: Pruned(x)
    case If(c, t, f) => !IsConstant(c) && Folded(c) && Pruned(t) && Pruned(f)
    case While(c, _, body, els) =>
      Folded(c) && if IsConstant(c) then IsTruthyConstant(c) && els == Empty else Pruned(body) && Pruned(els)
    case Repeat(body, c, tag) => Folded(c) && Pruned(body) && !(IsTruthyConstant(c) && DirectLoop(body, tag))
    case _ => true
  }

  /** Everything that constants decide is gone. */
  lemma {:induction false} OptimizePrunes(s: Stmt)
    ensures Pruned(OptimizeStmt(s))
    decreases s
  {
    hide Optimize, Folded, IsConstant;
    match s
    case ExprStmt(e) => OptimizeFolds(e);
    case VarDecl(_, _, values) => OptimizeListFolds(values);
    case Block(ss) => OptimizeAllPrunes(ss);
    case If(c, t, f) =>
      OptimizeFolds(c);
      OptimizePrunes(t);
      OptimizePrunes(f);
    case While(c, _, body, els) =>
      OptimizeFolds(c);
      OptimizePrunes(body);
      OptimizePrunes(els);
    case Repeat(body, c, _) =>
      OptimizeFolds(c);
      OptimizePrunes(body);
    case _ =>
  }

  lemma {:induction false} OptimizeAllPrunes(ss: seq<Stmt>)
    ensures forall x | x in OptimizeAll(ss) :: Pruned(x)
    decreases ss
  {
    if ss != [] {
      OptimizePrunes(ss[0]);
      OptimizeAllPrunes(ss[1..]);
    }
  }
}
