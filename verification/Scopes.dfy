/** Compile-time facts about statements: the symbol table follows the static
    scopes, and no two visible variables ever share a register. */
module Scopes {
  import opened Words
  import opened Syntax
  import opened Values
  import opened Source
  import opened Codegen
  import opened ExprCorrect
  import opened StmtCode

  /* Declarations. */

  lemma {:induction false} BindSymsAt(scope: map<string, Sym>, names: seq<string>, r: nat, isVar: bool, n: string)
    requires Distinct(names)
    ensures var scope' := BindSyms(scope, names, r, isVar);
            && (n in scope' <==> n in scope || n in names)
            && (n in scope && n !in names ==> scope'[n] == scope[n])
            && (forall i | 0 <= i < |names| && names[i] == n :: scope'[n] == Sym(r + i, isVar))
    decreases names
  {
    if names != [] {
      var rest := names[1..];
      assert forall i | 0 < i < |names| :: names[i] == rest[i - 1];
      assert names[0] !in rest;
      BindSymsAt(scope[names[0] := Sym(r, isVar)], rest, r + 1, isVar, n);
      forall i | 0 <= i < |names| && names[i] == n
        ensures BindSyms(scope, names, r, isVar)[n] == Sym(r + i, isVar)
      {
        if i > 0 { assert rest[i - 1] == n; }
      }
    }
  }

  lemma {:induction false} BindAt(scope: map<string, Value>, names: seq<string>, values: seq<Value>, n: string)
    requires Distinct(names) && |names| == |values|
    ensures var scope' := Bind(scope, names, values);
            && (n in scope' <==> n in scope || n in names)
            && (n in scope && n !in names ==> scope'[n] == scope[n])
            && (forall i | 0 <= i < |names| && names[i] == n :: scope'[n] == values[i])
    decreases names
  {
    if names != [] {
      var rest := names[1..];
      assert forall i | 0 < i < |names| :: names[i] == rest[i - 1];
      assert names[0] !in rest;
      BindAt(scope[names[0] := values[0]], rest, values[1..], n);
      forall i | 0 <= i < |names| && names[i] == n
        ensures Bind(scope, names, values)[n] == values[i]
      {
        if i > 0 { assert rest[i - 1] == n; }
      }
    }
  }

  lemma {:induction false} FlagsAt(scope: map<string, bool>, names: seq<string>, isVar: bool, n: string)
    ensures var scope' := Flags(scope, names, isVar);
            && (n in scope' <==> n in scope || n in names)
            && (n in scope && n !in names ==> scope'[n] == scope[n])
            && (n in names ==> scope'[n] == isVar)
    decreases names
  {
    if names != [] { FlagsAt(scope[names[0] := isVar], names[1..], isVar, n); }
  }

  ghost predicate Fresh(names: seq<string>, syms: Syms) {
    Distinct(names) && syms != [] && forall n | n in names :: n !in syms[|syms| - 1]
  }

  /** New variables take registers of their own. */
  lemma DeclareOk(st: CState, fix: bool, names: seq<string>)
    requires SymsOk(st.syms, st.nextReg) && Fresh(names, st.syms)
    ensures var st' := Declare(st, fix, names);
            SymsOk(st'.syms, st'.nextReg) && Extends(st.syms, st.nextReg, st'.syms)
  {
    var st' := Declare(st, fix, names);
    var last := |st.syms| - 1;
    forall k, n {:trigger VarAt(st'.syms, k, n)} | VarAt(st'.syms, k, n)
      ensures st'.syms[k][n].reg < st'.nextReg
      ensures (VarAt(st.syms, k, n) && st'.syms[k][n] == st.syms[k][n]) ||
              (k == last && n in names && st'.syms[k][n].reg >= st.nextReg)
      ensures k == last ==> forall i | 0 <= i < |names| && names[i] == n :: st'.syms[k][n].reg == st.nextReg + i
    {
      if k == last {
        BindSymsAt(st.syms[last], names, st.nextReg, !fix, n);
        if n in names {
          var i :| 0 <= i < |names| && names[i] == n;
        } else {
          assert VarAt(st.syms, k, n);
        }
      } else {
        assert VarAt(st.syms, k, n);
      }
    }
  }

  lemma DeclareAccess(st: CState, fix: bool, names: seq<string>)
    requires Distinct(names) && st.syms != []
    ensures var d := Access(st.syms);
            Access(Declare(st, fix, names).syms) == d[|d| - 1 := Flags(d[|d| - 1], names, !fix)]
  {
    var d := Access(st.syms);
    var last := |d| - 1;
    var after := Declare(st, fix, names).syms;
    assert Access(after)[last] == Flags(d[last], names, !fix) by {
      forall n ensures n in Access(after)[last] <==> n in Flags(d[last], names, !fix)
               ensures n in Access(after)[last] ==> Access(after)[last][n] == Flags(d[last], names, !fix)[n]
      {
        BindSymsAt(st.syms[last], names, st.nextReg, !fix, n);
        FlagsAt(d[last], names, !fix, n);
        if n in names { var i :| 0 <= i < |names| && names[i] == n; }
      }
    }
  }

  /** One variable of the innermost scope after binding `vs`, which lie in
      registers from `r` on. */
  lemma BindOne(scope: map<string, Value>, syms: map<string, Sym>, regs: seq<Value>, r: nat, isVar: bool,
                names: seq<string>, vs: seq<Value>, n: string)
    requires Distinct(names) && |vs| == |names| && r + |names| <= |regs|
    requires forall i | 0 <= i < |vs| :: regs[r + i] == vs[i]
    requires n in scope <==> n in syms
    requires n in syms ==> syms[n].reg < |regs| && regs[syms[n].reg] == scope[n]
    ensures var scope', syms' := Bind(scope, names, vs), BindSyms(syms, names, r, isVar);
            && (n in scope' <==> n in syms')
            && (n in syms' ==> syms'[n].reg < |regs| && regs[syms'[n].reg] == scope'[n])
  {
    BindAt(scope, names, vs, n);
    BindSymsAt(syms, names, r, isVar, n);
    if n in names {
      var i :| 0 <= i < |names| && names[i] == n;
      assert regs[r + i] == vs[i];
    }
  }

  ghost predicate ScopeRel(scope: map<string, Value>, syms: map<string, Sym>, regs: seq<Value>) {
    scope.Keys == syms.Keys
    && forall n | n in syms :: n in scope && syms[n].reg < |regs| && regs[syms[n].reg] == scope[n]
  }

  lemma BindScope(scope: map<string, Value>, syms: map<string, Sym>, regs: seq<Value>, r: nat, isVar: bool,
                  names: seq<string>, vs: seq<Value>)
    requires Distinct(names) && |vs| == |names| && r + |names| <= |regs|
    requires forall i | 0 <= i < |vs| :: regs[r + i] == vs[i]
    requires ScopeRel(scope, syms, regs)
    ensures ScopeRel(Bind(scope, names, vs), BindSyms(syms, names, r, isVar), regs)
  {
    hide Bind, BindSyms;
    var scope', syms' := Bind(scope, names, vs), BindSyms(syms, names, r, isVar);
    forall n: string
      ensures n in scope' <==> n in syms'
      ensures n in syms' ==> syms'[n].reg < |regs| && regs[syms'[n].reg] == scope'[n]
    {
      assert n in scope <==> n in syms;
      BindOne(scope, syms, regs, r, isVar, names, vs, n);
    }
    assert scope'.Keys == syms'.Keys;
  }

  lemma ReplaceLast(env: Env, syms: Syms, regs: seq<Value>, scope: map<string, Value>, symscope: map<string, Sym>)
    requires Rel(env, syms, regs) && syms != [] && ScopeRel(scope, symscope, regs)
    ensures Rel(env[|env| - 1 := scope], syms[|syms| - 1 := symscope], regs)
  {
    var last := |env| - 1;
    var env', syms' := env[last := scope], syms[last := symscope];
    forall k, n {:trigger VarAt(syms', k, n)} | VarAt(syms', k, n)
      ensures syms'[k][n].reg < |regs| && n in env'[k] && regs[syms'[k][n].reg] == env'[k][n]
    {
      if k != last { assert VarAt(syms, k, n); }
    }
  }

  /** Binding the values in the registers they were computed in. */
  lemma BindRel(st: CState, env: Env, regs: seq<Value>, fix: bool, names: seq<string>, vs: seq<Value>)
    requires Distinct(names) && st.syms != [] && |vs| == |names|
    requires Rel(env, st.syms, regs) && st.nextReg + |names| <= |regs|
    requires forall i | 0 <= i < |vs| :: regs[st.nextReg + i] == vs[i]
    ensures Rel(env[|env| - 1 := Bind(env[|env| - 1], names, vs)], Declare(st, fix, names).syms, regs)
  {
    var last := |env| - 1;
    assert ScopeRel(env[last], st.syms[last], regs) by {
      assert env[last].Keys == st.syms[last].Keys;
      forall n | n in st.syms[last]
        ensures n in env[last] && st.syms[last][n].reg < |regs| && regs[st.syms[last][n].reg] == env[last][n]
      {
        assert VarAt(st.syms, last, n);
      }
    }
    BindScope(env[last], st.syms[last], regs, st.nextReg, !fix, names, vs);
    ReplaceLast(env, st.syms, regs, Bind(env[last], names, vs), BindSyms(st.syms[last], names, st.nextReg, !fix));
  }

  /* The compiler state after a statement. */

  /** Registers below `r` that hold variables of `syms'` held them in `syms`. */
  ghost predicate Extends(syms: Syms, r: nat, syms': Syms) {
    forall k, n {:trigger VarAt(syms', k, n)} | VarAt(syms', k, n) && syms'[k][n].reg < r ::
      VarAt(syms, k, n) && syms[k][n].reg == syms'[k][n].reg
  }

  /** What every statement keeps: distinct registers below nextReg, the static
      scopes, a counter that never falls, and the pool count. */
  ghost predicate StateOk(s: Stmt, st: CState, st': CState) {
    && 0 < |st.syms| == |st'.syms|
    && SymsOk(st'.syms, st'.nextReg) && Extends(st.syms, st.nextReg, st'.syms)
    && Access(st'.syms) == DeclsAfter(s, Access(st.syms))
    && (!s.VarDecl? ==> st'.syms == st.syms)
    && st'.syms[..|st.syms| - 1] == st.syms[..|st.syms| - 1]
    && st'.nextReg >= st.nextReg
    && (st'.scopeStart == st.scopeStart || st'.scopeStart >= st.nextReg)
    && st'.pool == st.pool + |StmtConsts(s)|
  }

  lemma {:induction false} AfterOk(s: Stmt, st: CState, tags: set<string>, inLoop: bool)
    requires st.syms != [] && SymsOk(st.syms, st.nextReg)
    requires ScopedStmt(s, Access(st.syms), tags) && InFragment(s, tags, inLoop)
    ensures StateOk(s, st, After(s, st))
    decreases s, 1
  {
    hide SymsOk, Access, Extends;
    ExtendsSelf(st);
    match s
    case VarDecl(fix, names, values) => AfterDecl(s, st, tags);
    case Block(ss) => AfterBlock(ss, st, tags, inLoop);
    case If(c, t, f) =>
      var st1 := AddPool(st, ExprConsts(c));
      AfterOk(t, st1, tags, inLoop);
      AfterOk(f, After(t, st1), tags, inLoop);
    case While(c, tag, body, els) =>
      var st1 := AddPool(st, ExprConsts(c));
      var inner := if tag.Some? then tags + {tag.value} else tags;
      AfterOk(body, st1, inner, true);
      AfterOk(els, After(body, st1), inner, inLoop);
    case Repeat(body, c, tag) =>
      AfterOk(body, st, if tag.Some? then tags + {tag.value} else tags, true);
    case _ =>
  }

  lemma ExtendsSelf(st: CState)
    ensures forall r: nat :: Extends(st.syms, r, st.syms)
  {
  }

  lemma AfterDecl(s: Stmt, st: CState, tags: set<string>)
    requires s.VarDecl? && st.syms != [] && SymsOk(st.syms, st.nextReg)
    requires ScopedStmt(s, Access(st.syms), tags)
    ensures StateOk(s, st, After(s, st))
  {
    var st1 := AddPool(st, ValueConsts(s.values));
    assert Fresh(s.names, st.syms) by {
      forall n | n in s.names ensures n !in st.syms[|st.syms| - 1] {
        assert n !in Access(st.syms)[|st.syms| - 1];
      }
    }
    DeclareOk(st1, s.fix, s.names);
    DeclareAccess(st1, s.fix, s.names);
  }

  lemma EnterOk(st: CState)
    requires SymsOk(st.syms, st.nextReg)
    ensures SymsOk(Enter(st).syms, st.nextReg) && Access(Enter(st).syms) == Access(st.syms) + [map[]]
  {
    var e := Enter(st).syms;
    forall k, n {:trigger VarAt(e, k, n)} | VarAt(e, k, n) ensures VarAt(st.syms, k, n) {}
    assert Access(e)[|st.syms|] == map[];
  }

  lemma {:induction false} AfterBlock(ss: seq<Stmt>, st: CState, tags: set<string>, inLoop: bool)
    requires st.syms != [] && SymsOk(st.syms, st.nextReg)
    requires ScopedStmt(Block(ss), Access(st.syms), tags) && InFragment(Block(ss), tags, inLoop)
    ensures StateOk(Block(ss), st, After(Block(ss), st))
    decreases ss, 1
  {
    EnterOk(st);
    AfterAllOk(ss, Enter(st), tags, inLoop);
    var inner := AfterAll(ss, Enter(st));
    assert inner.syms[..|st.syms|] == Enter(st).syms[..|st.syms|] == st.syms;
    SymsOkMore(st.syms, st.nextReg, inner.scopeStart);
  }

  lemma {:induction false} AfterAllOk(ss: seq<Stmt>, st: CState, tags: set<string>, inLoop: bool)
    requires st.syms != [] && SymsOk(st.syms, st.nextReg)
    requires ScopedAll(ss, Access(st.syms), tags) && forall x | x in ss :: InFragment(x, tags, inLoop)
    ensures var st' := AfterAll(ss, st);
            && SymsOk(st'.syms, st'.nextReg)
            && st'.syms[..|st.syms| - 1] == st.syms[..|st.syms| - 1]
            && st'.nextReg >= st.nextReg
            && (st'.scopeStart == st.scopeStart || st'.scopeStart >= st.nextReg)
            && st'.pool == st.pool + |StmtsConsts(ss)|
    decreases ss, 0
  {
    if ss != [] {
      AfterOk(ss[0], st, tags, inLoop);
      AfterAllOk(ss[1..], After(ss[0], st), tags, inLoop);
    }
  }
}
