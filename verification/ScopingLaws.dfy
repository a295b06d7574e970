/** The static rules of names and labels (src/compiler.cpp: declareVar, the assignments,
    break and continue), rule by rule: which scripts are rejected. */
module ScopingLaws {
  import opened Syntax
  import opened Source

  /** Scope `k` has the declaration that `name` stands for. */
  predicate Stands(decls: Decls, name: string, k: nat) {
    k < |decls| && name in decls[k] && forall j | k < j < |decls| :: name !in decls[j]
  }

  lemma InnermostStands(decls: Decls, name: string)
    ensures Innermost(decls, name) >= 0 ==> Stands(decls, name, Innermost(decls, name))
    ensures forall k: nat | Stands(decls, name, k) :: Innermost(decls, name) == k
  {
    var i := Innermost(decls, name);
    forall k: nat | Stands(decls, name, k) ensures i == k {
      assert name in decls[k];
    }
  }

  /** A name may be used where it is declared, and assigned where it was declared with
      `make`. */
  lemma NameRules(decls: Decls, name: string, e: Expr, op: CompoundOp, incr: bool, prev: bool)
    ensures ScopedExpr(Var(name), decls) <==> exists k: nat :: Stands(decls, name, k)
    ensures var may := exists k: nat :: Stands(decls, name, k) && decls[k][name];
            && (ScopedExpr(Assign(name, e), decls) <==> ScopedExpr(e, decls) && may)
            && (ScopedExpr(CompoundAssign(op, name, e), decls) <==> ScopedExpr(e, decls) && may)
            && (ScopedExpr(Crement(incr, prev, name), decls) <==> may)
  {
    hide Innermost;
    InnermostStands(decls, name);
  }

  lemma {:induction false} FlagsAt(scope: map<string, bool>, names: seq<string>, isVar: bool, name: string)
    ensures var scope' := Flags(scope, names, isVar);
            && (name in scope' <==> name in scope || name in names)
            && (name in names ==> scope'[name] == isVar)
            && (name in scope && name !in names ==> scope'[name] == scope[name])
    decreases names
  {
    if names != [] {
      FlagsAt(scope[names[0] := isVar], names[1..], isVar, name);
      assert name in names <==> name == names[0] || name in names[1..];
    }
  }

  /** After a declaration its names stand for it, to be assigned unless they are fixed,
      and the other names for what they stood for. */
  lemma DeclareRules(fix: bool, names: seq<string>, values: seq<Expr>, decls: Decls, name: string)
    requires decls != []
    ensures var decls' := DeclsAfter(VarDecl(fix, names, values), decls);
            && |decls'| == |decls| && decls'[..|decls| - 1] == decls[..|decls| - 1]
            && (name in names ==> Stands(decls', name, |decls| - 1) && decls'[|decls| - 1][name] == !fix)
            && (name !in names ==> forall k: nat :: Stands(decls', name, k) ==>
                  Stands(decls, name, k) && decls'[k][name] == decls[k][name])
            && (name !in names ==> forall k: nat :: Stands(decls, name, k) ==> Stands(decls', name, k))
  {
    var decls', last := DeclsAfter(VarDecl(fix, names, values), decls), |decls| - 1;
    FlagsAt(decls[last], names, !fix, name);
    assert forall k | 0 <= k < |decls| && name !in names :: name in decls'[k] <==> name in decls[k];
  }

  /** A scope takes every name once; an inner scope may declare it again. */
  lemma RedeclareRules(fix: bool, name: string, decls: Decls, tags: set<string>)
    requires decls != []
    ensures ScopedStmt(VarDecl(fix, [name], []), decls, tags) <==> name !in decls[|decls| - 1]
    ensures ScopedStmt(VarDecl(fix, [name], []), decls + [map[]], tags)
    ensures !ScopedStmt(VarDecl(fix, [name, name], []), decls, tags)
  {
    assert name in [name];
    assert [name, name][0] == [name, name][1];
    assert (decls + [map[]])[|decls|] == map[];
  }

  /** A jump may name the loops around it, and no others. */
  lemma LabelRules(c: Expr, name: string, other: string, decls: Decls, tags: set<string>)
    ensures ScopedStmt(Break(Some(name)), decls, tags) <==> name in tags
    ensures ScopedStmt(Continue(Some(name)), decls, tags) <==> name in tags
    ensures ScopedStmt(While(c, Some(other), Break(Some(name)), Empty), decls, tags)
       <==> ScopedExpr(c, decls) && (name == other || name in tags)
    ensures ScopedStmt(Repeat(Continue(Some(name)), c, Some(other)), decls, tags)
       <==> ScopedExpr(c, decls) && (name == other || name in tags)
  {
  }

  /** What a block declares is gone behind it. */
  lemma BlockRules(ss: seq<Stmt>, s: Stmt, decls: Decls, tags: set<string>)
    ensures ScopedAll([Block(ss), s], decls, tags)
       <==> ScopedAll(ss, decls + [map[]], tags) && ScopedStmt(s, decls, tags)
  {
    assert [Block(ss), s][1..] == [s] && [s][1..] == [];
    assert ScopedAll([s], decls, tags) <==> ScopedStmt(s, decls, tags);
  }
}
