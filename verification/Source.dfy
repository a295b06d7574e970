/** Reference meaning of the core language: a big-step interpreter over named
    variables in nested scopes. It knows nothing of registers or bytes. */
module Source {
  import opened Words
  import opened Syntax
  import opened Values

  /** Scopes, outermost first. */
  type Env = seq<map<string, Value>>

  /** Index of the innermost scope that declares `name`, or -1. */
  function Innermost<T>(scopes: seq<map<string, T>>, name: string): (i: int)
    ensures -1 <= i < |scopes|
    ensures i >= 0 ==> name in scopes[i]
    ensures forall j | i < j < |scopes| :: name !in scopes[j]
  {
    if scopes == [] then -1
    else if name in scopes[|scopes| - 1] then |scopes| - 1
    else Innermost(scopes[..|scopes| - 1], name)
  }

  function Lookup(env: Env, name: string): Value {
    var i := Innermost(env, name);
    if i < 0 then Invalid else env[i][name]
  }

  function Update(env: Env, name: string, v: Value): Env {
    var i := Innermost(env, name);
    if i < 0 then env else env[i := env[i][name := v]]
  }

  /* Operators. */

  function UnaryValue(op: UnaryOp, v: Value): Result {
    match op
    case Negate => if v.Int? then Ok(Int(Wrap64(0 - v.i))) else Err(BadOperand)
    case Not => Ok(Bool(!Truthy(v)))
    case Complement => if v.Int? then Ok(Int(Wrap64(-1 - v.i))) else Err(BadOperand)
  }

  function IntOp(op: BinaryOp, a: i64, b: i64): Result
    requires HasCompound(op)
  {
    match op
    case Add => Ok(Int(Wrap64(a + b)))
    case Sub => Ok(Int(Wrap64(a - b)))
    case Mult => Ok(Int(Wrap64(a * b)))
    case Mod => if b == 0 then Err(ModulusWithZero) else Ok(Int(Wrap64(TruncMod(a, b))))
    case BAnd => Ok(Int(Wrap64(BitAnd(ToUnsigned(a), ToUnsigned(b)))))
    case BOr => Ok(Int(Wrap64(BitOr(ToUnsigned(a), ToUnsigned(b)))))
    case BXor => Ok(Int(Wrap64(BitXor(ToUnsigned(a), ToUnsigned(b)))))
    case Shl => if 0 <= b < 64 then Ok(Int(ShiftLeft(a, b))) else Err(HitShiftMax)
    case Shr => if 0 <= b < 64 then Ok(Int(ShiftRight(a, b))) else Err(HitShiftMax)
  }

  function BinaryValue(op: BinaryOp, a: Value, b: Value): Result {
    match op
    case Eq => Ok(Bool(Equal(a, b)))
    case Ne => Ok(Bool(!Equal(a, b)))
    case Gt => if a.Int? && b.Int? then Ok(Bool(AsDouble(a.i) > AsDouble(b.i))) else Err(BadOperands)
    case Ge => if a.Int? && b.Int? then Ok(Bool(AsDouble(a.i) >= AsDouble(b.i))) else Err(BadOperands)
    case Lt => if a.Int? && b.Int? then Ok(Bool(AsDouble(a.i) < AsDouble(b.i))) else Err(BadOperands)
    case Le => if a.Int? && b.Int? then Ok(Bool(AsDouble(a.i) <= AsDouble(b.i))) else Err(BadOperands)
    case In => if b.List? then Ok(Bool(Contains(b.items, a))) else Err(NotIterable)
    case NotIn => if b.List? then Ok(Bool(!Contains(b.items, a))) else Err(NotIterable)
    case _ => if a.Int? && b.Int? then IntOp(op, a.i, b.i) else Err(BadOperands)
  }

  /* Expressions. They may assign, so evaluation also gives the new scopes. */

  datatype Eval = Val(value: Value, env: Env) | Raised(error: Error)

  function EvalExpr(e: Expr, env: Env): Eval
    decreases e
  {
    match e
    case IntLit(i) => Val(Int(i), env)
    case BoolLit(b) => Val(Bool(b), env)
    case NullLit => Val(Null, env)
    case Var(name) => Val(Lookup(env, name), env)
    case Unary(op, e1) =>
      (match EvalExpr(e1, env)
       case Raised(x) => Raised(x)
       case Val(v, env1) => Done(UnaryValue(op, v), env1))
    case Binary(op, l, r) =>
      (match EvalExpr(l, env)
       case Raised(x) => Raised(x)
       case Val(a, env1) =>
         match EvalExpr(r, env1)
         case Raised(x) => Raised(x)
         case Val(b, env2) => Done(BinaryValue(op, a, b), env2))
    case And(l, r) =>
      (match EvalExpr(l, env)
       case Raised(x) => Raised(x)
       case Val(a, env1) => if Truthy(a) then EvalExpr(r, env1) else Val(a, env1))
    case Or(l, r) =>
      (match EvalExpr(l, env)
       case Raised(x) => Raised(x)
       case Val(a, env1) => if Truthy(a) then Val(a, env1) else EvalExpr(r, env1))
    case IfExpr(c, t, f) =>
      (match EvalExpr(c, env)
       case Raised(x) => Raised(x)
       case Val(v, env1) => if Truthy(v) then EvalExpr(t, env1) else EvalExpr(f, env1))
    case Assign(name, e1) =>
      (match EvalExpr(e1, env)
       case Raised(x) => Raised(x)
       case Val(v, env1) => Val(v, Update(env1, name, v)))
    case CompoundAssign(op, name, e1) =>
      (match EvalExpr(e1, env)
       case Raised(x) => Raised(x)
       case Val(v, env1) =>
         match BinaryValue(op, Lookup(env1, name), v)
         case Err(x) => Raised(x)
         case Ok(w) => Val(w, Update(env1, name, w)))
    case Crement(incr, prev, name) =>
      var v := Lookup(env, name);
      if !v.Int? then Raised(BadOperand)
      else
        var w := Int(Wrap64(if incr then v.i + 1 else v.i - 1));
        Val(if prev then v else w, Update(env, name, w))
    case ListLit(es) =>
      (match EvalList(es, env)
       case RaisedL(x) => Raised(x)
       case Vals(vs, env1) => Val(List(vs), env1))
    case Index(l, r) =>
      (match EvalExpr(l, env)
       case Raised(x) => Raised(x)
       case Val(a, env1) =>
         match EvalExpr(r, env1)
         case Raised(x) => Raised(x)
         case Val(b, env2) => Done(GetIndex(a, b), env2))
  }

  function Done(r: Result, env: Env): Eval {
    match r
    case Ok(v) => Val(v, env)
    case Err(x) => Raised(x)
  }

  datatype EvalL = Vals(values: seq<Value>, env: Env) | RaisedL(error: Error)

  /** Left to right. */
  function EvalList(es: seq<Expr>, env: Env): (r: EvalL)
    ensures r.Vals? ==> |r.values| == |es|
    decreases es
  {
    if es == [] then Vals([], env)
    else
      match EvalExpr(es[0], env)
      case Raised(x) => RaisedL(x)
      case Val(v, env1) =>
        match EvalList(es[1..], env1)
        case RaisedL(x) => RaisedL(x)
        case Vals(vs, env2) => Vals([v] + vs, env2)
  }

  /* Static scoping: which names an expression may use and assign. */

  /** Declared names by scope; true for `make`, false for `fix`. */
  type Decls = seq<map<string, bool>>

  predicate Declared(decls: Decls, name: string) {
    Innermost(decls, name) >= 0
  }

  predicate Assignable(decls: Decls, name: string) {
    var k := Innermost(decls, name);
    k >= 0 && decls[k][name]
  }

  predicate ScopedExpr(e: Expr, decls: Decls) {
    match e
    case Var(name) => Declared(decls, name)
    case Unary(_, e1) => ScopedExpr(e1, decls)
    case Binary(_, l, r) => ScopedExpr(l, decls) && ScopedExpr(r, decls)
    case And(l, r) => ScopedExpr(l, decls) && ScopedExpr(r, decls)
    case Or(l, r) => ScopedExpr(l, decls) && ScopedExpr(r, decls)
    case IfExpr(c, t, f) => ScopedExpr(c, decls) && ScopedExpr(t, decls) && ScopedExpr(f, decls)
    case Assign(name, e1) => ScopedExpr(e1, decls) && Assignable(decls, name)
    case CompoundAssign(_, name, e1) => ScopedExpr(e1, decls) && Assignable(decls, name)
    case Crement(_, _, name) => Assignable(decls, name)
    case ListLit(es) => forall x | x in es :: ScopedExpr(x, decls)
    case Index(l, r) => ScopedExpr(l, decls) && ScopedExpr(r, decls)
    case _ => true
  }

  /* Statements. */

  datatype Outcome =
    | Normal(env: Env)
    | Broke(tag: Option<string>, env: Env)
    | Continued(tag: Option<string>, env: Env)
    | Threw(error: Error)
    | Timeout  // the fuel ran out

  /** Does a jump to `tag` concern a loop labelled `own`? */
  predicate Hits(tag: Option<string>, own: Option<string>) {
    tag.None? || tag == own
  }

  function Bind(scope: map<string, Value>, names: seq<string>, values: seq<Value>): map<string, Value>
    requires |names| == |values|
    decreases names
  {
    if names == [] then scope else Bind(scope[names[0] := values[0]], names[1..], values[1..])
  }

  function Nulls(n: nat): (vs: seq<Value>)
    ensures |vs| == n
  {
    seq(n, _ => Null)
  }

  /** Leave the scopes opened since there were `depth` of them. */
  function Trim(o: Outcome, depth: nat): Outcome {
    match o
    case Normal(env) => Normal(if depth <= |env| then env[..depth] else env)
    case Broke(l, env) => Broke(l, if depth <= |env| then env[..depth] else env)
    case Continued(l, env) => Continued(l, if depth <= |env| then env[..depth] else env)
    case _ => o
  }

  function Exec(s: Stmt, env: Env, fuel: nat): Outcome
    decreases fuel, s, 0
  {
    match s
    case Empty => Normal(env)
    case ExprStmt(e) =>
      (match EvalExpr(e, env)
       case Raised(x) => Threw(x)
       case Val(_, env1) => Normal(env1))
    case VarDecl(_, names, values) =>
      if env == [] then Normal(env)
      else if values == [] then
        Normal(env[|env| - 1 := Bind(env[|env| - 1], names, Nulls(|names|))])
      else
        (match EvalList(values, env)
         case RaisedL(x) => Threw(x)
         case Vals(vs, env1) =>
           if env1 == [] || |vs| != |names| then Normal(env1)
           else Normal(env1[|env1| - 1 := Bind(env1[|env1| - 1], names, vs)]))
    case Block(ss) => Trim(ExecAll(ss, env + [map[]], fuel), |env|)
    case If(c, t, f) =>
      (match EvalExpr(c, env)
       case Raised(x) => Threw(x)
       case Val(v, env1) => if Truthy(v) then Exec(t, env1, fuel) else Exec(f, env1, fuel))
    case While(c, tag, body, els) =>
      (match EvalExpr(c, env)
       case Raised(x) => Threw(x)
       case Val(v, env1) =>
         if !Truthy(v) then Exec(els, env1, fuel)
         else
           match Exec(body, env1, fuel)
           case Threw(x) => Threw(x)
           case Timeout => Timeout
           case Broke(l, env2) => if Hits(l, tag) then Normal(env2) else Broke(l, env2)
           case Continued(l, env2) =>
             if !Hits(l, tag) then Continued(l, env2)
             else if fuel == 0 then Timeout else Exec(s, env2, fuel - 1)
           case Normal(env2) => if fuel == 0 then Timeout else Exec(s, env2, fuel - 1))
    case Repeat(body, c, tag) =>
      (match Exec(body, env, fuel)
       case Threw(x) => Threw(x)
       case Timeout => Timeout
       case Broke(l, env1) => if Hits(l, tag) then Normal(env1) else Broke(l, env1)
       case Continued(l, env1) =>
         if Hits(l, tag) then Until(body, c, tag, env1, fuel) else Continued(l, env1)
       case Normal(env1) => Until(body, c, tag, env1, fuel))
    case Break(l) => Broke(l, env)
    case Continue(l) => Continued(l, env)
  }

  /** The test at the end of a repeat block. */
  function Until(body: Stmt, c: Expr, tag: Option<string>, env: Env, fuel: nat): Outcome
    decreases fuel, body, 1
  {
    match EvalExpr(c, env)
    case Raised(x) => Threw(x)
    case Val(v, env1) =>
      if Truthy(v) then Normal(env1)
      else if fuel == 0 then Timeout
      else Exec(Repeat(body, c, tag), env1, fuel - 1)
  }

  function ExecAll(ss: seq<Stmt>, env: Env, fuel: nat): Outcome
    decreases fuel, ss, 0
  {
    if ss == [] then Normal(env)
    else
      match Exec(ss[0], env, fuel)
      case Normal(env1) => ExecAll(ss[1..], env1, fuel)
      case o => o
  }

  /* Static rules for statements. */

  predicate Distinct(names: seq<string>) {
    forall i, j | 0 <= i < j < |names| :: names[i] != names[j]
  }

  function Flags(scope: map<string, bool>, names: seq<string>, isVar: bool): map<string, bool>
    decreases names
  {
    if names == [] then scope else Flags(scope[names[0] := isVar], names[1..], isVar)
  }

  /** Only a declaration adds names to the scope it stands in. */
  function DeclsAfter(s: Stmt, decls: Decls): (d: Decls)
    ensures |d| == |decls|
  {
    if s.VarDecl? && decls != []
    then decls[|decls| - 1 := Flags(decls[|decls| - 1], s.names, !s.fix)]
    else decls
  }

  /** The scoping rules the compiler enforces; `tags` are the labels in scope. */
  predicate ScopedStmt(s: Stmt, decls: Decls, tags: set<string>)
    decreases s
  {
    match s
    case Empty => true
    case ExprStmt(e) => ScopedExpr(e, decls)
    case VarDecl(_, names, values) =>
      && (|values| <= 1 || |names| == |values|)
      && (forall x | x in values :: ScopedExpr(x, decls))
      && Distinct(names)
      && (decls != [] ==> forall n | n in names :: n !in decls[|decls| - 1])
    case Block(ss) => ScopedAll(ss, decls + [map[]], tags)
    case If(c, t, f) => ScopedExpr(c, decls) && ScopedStmt(t, decls, tags) && ScopedStmt(f, decls, tags)
    case While(c, tag, body, els) =>
      var inner := if tag.Some? then tags + {tag.value} else tags;
      ScopedExpr(c, decls) && ScopedStmt(body, decls, inner) && ScopedStmt(els, decls, inner)
    case Repeat(body, c, tag) =>
      ScopedStmt(body, decls, if tag.Some? then tags + {tag.value} else tags) && ScopedExpr(c, decls)
    case Break(tag) => tag.Some? ==> tag.value in tags
    case Continue(tag) => tag.Some? ==> tag.value in tags
  }

  predicate ScopedAll(ss: seq<Stmt>, decls: Decls, tags: set<string>)
    decreases ss
  {
    ss == [] || (ScopedStmt(ss[0], decls, tags) && ScopedAll(ss[1..], DeclsAfter(ss[0], decls), tags))
  }

  /** No jump in `s` concerns an enclosing loop labelled `own`; within an inner
      loop the unlabelled ones belong to that loop. */
  predicate NoJumpTo(s: Stmt, own: Option<string>, inner: bool)
    decreases s
  {
    match s
    case Block(ss) => forall x | x in ss :: NoJumpTo(x, own, inner)
    case If(_, t, f) => NoJumpTo(t, own, inner) && NoJumpTo(f, own, inner)
    case While(_, _, body, els) => NoJumpTo(body, own, true) && NoJumpTo(els, own, inner)
    case Repeat(body, _, _) => NoJumpTo(body, own, true)
    case Break(tag) => if tag.None? then inner else tag != own
    case Continue(tag) => if tag.None? then inner else tag != own
    case _ => true
  }

  /** What the grammar guarantees (branches are no declarations, a repeat body is
      a block, unlabelled jumps stand in loops), without jumps from a loop's else
      clause to that loop, reused labels in nested loops and unpacking. */
  predicate InFragment(s: Stmt, tags: set<string>, inLoop: bool)
    decreases s
  {
    match s
    case VarDecl(_, names, values) => names != [] && (|values| == 1 ==> |names| == 1)
    case Block(ss) => forall x | x in ss :: InFragment(x, tags, inLoop)
    case If(_, t, f) =>
      !t.VarDecl? && !f.VarDecl? && InFragment(t, tags, inLoop) && InFragment(f, tags, inLoop)
    case While(_, tag, body, els) =>
      var inner := if tag.Some? then tags + {tag.value} else tags;
      && !body.VarDecl? && !els.VarDecl?
      && (tag.Some? ==> tag.value !in tags)
      && InFragment(body, inner, true) && InFragment(els, inner, inLoop)
      && NoJumpTo(els, tag, false)
    case Repeat(body, _, tag) =>
      && body.Block? && (tag.Some? ==> tag.value !in tags)
      && InFragment(body, if tag.Some? then tags + {tag.value} else tags, true)
    case Break(tag) => tag.None? ==> inLoop
    case Continue(tag) => tag.None? ==> inLoop
    case _ => true
  }
}
