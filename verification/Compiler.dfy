/** The one-pass compiler (src/compiler.cpp): it allocates registers from a single
    counter, keeps its variables in tables keyed by name and scope, appends bytes
    to the chunk and patches jumps once it knows where they land. Its methods
    emit exactly the bytes that `Codegen` and `StmtCode` describe and report an
    error exactly when the static rules of `Source` are broken. */
module Compiler {
  import opened Words
  import opened Opcodes
  import opened Syntax
  import opened Values
  import opened Source
  import opened Codegen
  import opened ExprCorrect
  import opened StmtCode
  import opened Scopes
  import opened Chunk
  import opened Holes
  import opened Emission
  import opened StmtEmission
  import opened LoopEmission
  import opened Machine
  import opened ProgramCorrect

  /** Key of a variable in the location table. */
  datatype VarEntry = VarEntry(name: string, scope: nat)

  /* The tables describe the visible variables. */

  ghost predicate EntryAt(locations: map<VarEntry, nat>, v: VarEntry) {
    v in locations
  }

  ghost predicate TablesFor(syms: Syms, locations: map<VarEntry, nat>, access: map<nat, bool>, scopes: seq<seq<string>>) {
    && (forall k: nat, n {:trigger VarAt(syms, k, n)} | VarAt(syms, k, n) ::
          var v := VarEntry(n, k);
          v in locations && locations[v] == syms[k][n].reg
          && syms[k][n].reg in access && access[syms[k][n].reg] == syms[k][n].isVar)
    && (forall v {:trigger EntryAt(locations, v)} | EntryAt(locations, v) :: VarAt(syms, v.scope, v.name))
    && |scopes| + 1 == |syms|
    && (forall k, n {:trigger VarAt(syms, k, n)} | 0 < k && VarAt(syms, k, n) :: n in scopes[k - 1])
  }

  /** A new variable of the innermost scope, in a register no variable uses. */
  lemma TablesDefine(syms: Syms, locations: map<VarEntry, nat>, access: map<nat, bool>, scopes: seq<seq<string>>,
                     name: string, reg: nat, isVar: bool)
    requires TablesFor(syms, locations, access, scopes) && syms != [] && SymsOk(syms, reg)
    requires name !in syms[|syms| - 1]
    ensures var last := |syms| - 1;
            var scopes' := if last == 0 then scopes else scopes[last - 1 := scopes[last - 1] + [name]];
            var syms' := syms[last := syms[last][name := Sym(reg, isVar)]];
            TablesFor(syms', locations[VarEntry(name, last) := reg], access[reg := isVar], scopes') && SymsOk(syms', reg + 1)
  {
    var last := |syms| - 1;
    var syms' := syms[last := syms[last][name := Sym(reg, isVar)]];
    var locations' := locations[VarEntry(name, last) := reg];
    forall k, n {:trigger VarAt(syms', k, n)} | VarAt(syms', k, n)
      ensures VarAt(syms, k, n) || (k == last && n == name)
    {
    }
    forall v {:trigger EntryAt(locations', v)} | EntryAt(locations', v) ensures VarAt(syms', v.scope, v.name) {
      if v != VarEntry(name, last) {
        assert EntryAt(locations, v);
        assert VarAt(syms, v.scope, v.name);
      }
    }
  }

  /** popScope takes out the names of the innermost scope and nothing else. */
  lemma TablesLeave(syms: Syms, locations: map<VarEntry, nat>, access: map<nat, bool>, scopes: seq<seq<string>>,
                    locations': map<VarEntry, nat>)
    requires TablesFor(syms, locations, access, scopes) && |syms| > 1
    requires forall v {:trigger EntryAt(locations', v)} :: EntryAt(locations', v) <==>
               EntryAt(locations, v) && !(v.scope == |syms| - 1 && v.name in scopes[|scopes| - 1])
    requires forall v {:trigger EntryAt(locations', v)} | EntryAt(locations', v) :: v in locations && locations'[v] == locations[v]
    ensures TablesFor(syms[..|syms| - 1], locations', access, scopes[..|scopes| - 1])
  {
    var last := |syms| - 1;
    var syms', scopes' := syms[..last], scopes[..|scopes| - 1];
    forall k: nat, n {:trigger VarAt(syms', k, n)} | VarAt(syms', k, n)
      ensures var v := VarEntry(n, k);
              v in locations' && locations'[v] == syms'[k][n].reg
              && syms'[k][n].reg in access && access[syms'[k][n].reg] == syms'[k][n].isVar
      ensures 0 < k ==> n in scopes'[k - 1]
    {
      assert VarAt(syms, k, n);
      assert EntryAt(locations, VarEntry(n, k));
      assert EntryAt(locations', VarEntry(n, k));
    }
    forall v {:trigger EntryAt(locations', v)} | EntryAt(locations', v) ensures VarAt(syms', v.scope, v.name) {
      assert EntryAt(locations, v);
      assert VarAt(syms, v.scope, v.name);
    }
  }

  lemma WhileStaticParts(s: Stmt, decls: Decls, tags: set<string>, inLoop: bool)
    requires s.While? && InFragment(s, tags, inLoop)
    ensures var inner := WithLabel(tags, s.tag);
            && InFragment(s.body, inner, true) && InFragment(s.els, inner, true)
            && !s.body.VarDecl? && !s.els.VarDecl? && (s.tag.Some? ==> s.tag.value !in tags)
            && ScopedStmt(s, decls, tags)
               == (ScopedExpr(s.cond, decls) && ScopedStmt(s.body, decls, inner) && ScopedStmt(s.els, decls, inner))
  {
    FragmentMore(s.els, WithLabel(tags, s.tag), inLoop);
  }

  lemma BranchKeeps(s: Stmt, st: CState, tags: set<string>, inLoop: bool)
    requires st.syms != [] && SymsOk(st.syms, st.nextReg) && !s.VarDecl?
    requires ScopedStmt(s, Access(st.syms), tags) && InFragment(s, tags, inLoop)
    ensures After(s, st).syms == st.syms
  {
    AfterOk(s, st, tags, inLoop);
  }

  lemma IfStaticParts(s: Stmt, decls: Decls, tags: set<string>, inLoop: bool)
    requires s.If? && InFragment(s, tags, inLoop)
    ensures !s.thn.VarDecl? && !s.els.VarDecl? && InFragment(s.thn, tags, inLoop) && InFragment(s.els, tags, inLoop)
    ensures ScopedStmt(s, decls, tags)
            == (ScopedExpr(s.cond, decls) && ScopedStmt(s.thn, decls, tags) && ScopedStmt(s.els, decls, tags))
    ensures s.els.Empty? ==> ScopedStmt(s.els, decls, tags)
  {
  }

  lemma RepeatStaticParts(s: Stmt, decls: Decls, tags: set<string>, inLoop: bool)
    requires s.Repeat? && InFragment(s, tags, inLoop)
    ensures var inner := WithLabel(tags, s.tag);
            && InFragment(s.body, inner, true) && !s.body.VarDecl? && (s.tag.Some? ==> s.tag.value !in tags)
            && ScopedStmt(s, decls, tags) == (ScopedStmt(s.body, decls, inner) && ScopedExpr(s.cond, decls))
  {
  }

  /** Static scoping and the symbol table go together. */
  lemma AccessAfter(s: Stmt, st: CState, tags: set<string>, inLoop: bool)
    requires st.syms != [] && SymsOk(st.syms, st.nextReg)
    requires ScopedStmt(s, Access(st.syms), tags) && InFragment(s, tags, inLoop)
    ensures Access(After(s, st).syms) == DeclsAfter(s, Access(st.syms))
  {
    AfterOk(s, st, tags, inLoop);
  }

  /** At the end of a block the outer variables are as before, all below the
      register the counter goes back to. */
  lemma BlockKeeps(ss: seq<Stmt>, st: CState, top: bool, tags: set<string>, inLoop: bool, m: Snap, z: Snap)
    requires st.syms != [] && SymsOk(st.syms, st.nextReg) && m.st == Enter(st) && AllEmitted(ss, top, inLoop, m, z)
    requires ScopedAll(ss, Access(m.st.syms), tags) && forall x | x in ss :: InFragment(x, tags, inLoop)
    ensures |z.st.syms| == |m.st.syms| && z.st.syms[..|st.syms|] == st.syms && SymsOk(st.syms, z.st.scopeStart)
    ensures SameLabels(z.jumps, m.jumps.breakLabels.Keys) && z.st == AfterAll(ss, m.st)
  {
    EnterOk(st);
    AfterAllOk(ss, m.st, tags, inLoop);
    SymsOkMore(st.syms, st.nextReg, z.st.scopeStart);
  }

  ghost predicate ValuesLeft(es: seq<Expr>, i: nat, top: bool, syms: Syms, r: nat, block: seq<u8>, pool: seq<Value>,
                             b: seq<u8>, p: seq<Value>) {
    i <= |es|
    && block + ValuesCode(es[i..], top, syms, r + i, |pool|) == b + ValuesCode(es, top, syms, r, |p|)
    && pool + ListConsts(es[i..]) == p + ListConsts(es)
  }

  lemma ValuesStart(es: seq<Expr>, top: bool, syms: Syms, r: nat, b: seq<u8>, p: seq<Value>)
    ensures ValuesLeft(es, 0, top, syms, r, b, p, b, p)
  {
    assert es[0..] == es;
  }

  lemma ValuesStep(es: seq<Expr>, i: nat, top: bool, syms: Syms, r: nat, b1: seq<u8>, p1: seq<Value>,
                   b2: seq<u8>, p2: seq<Value>, b: seq<u8>, p: seq<Value>)
    requires ValuesLeft(es, i, top, syms, r, b1, p1, b, p) && i < |es|
    requires Emitted(es[i], top, syms, r + i, b1, p1, b2, p2)
    ensures ValuesLeft(es, i + 1, top, syms, r, b2, p2, b, p)
  {
    hide ExprCode, ExprConsts;
    var tail := es[i..];
    assert tail[0] == es[i] && tail[1..] == es[i + 1..];
    Regroup(b1, ExprCode(es[i], top, syms, r + i, |p1|), ValuesCode(tail[1..], top, syms, r + i + 1, |p2|), []);
    Regroup(p1, ExprConsts(es[i]), ListConsts(tail[1..]), []);
  }

  lemma ValuesEnd(es: seq<Expr>, top: bool, syms: Syms, r: nat, block: seq<u8>, pool: seq<Value>, b: seq<u8>, p: seq<Value>)
    requires ValuesLeft(es, |es|, top, syms, r, block, pool, b, p)
    ensures block == b + ValuesCode(es, top, syms, r, |p|) && pool == p + ListConsts(es)
  {
    assert es[|es|..] == [] && block + [] == block && pool + [] == pool;
  }

  lemma FreshNext(names: seq<string>, i: nat, syms: Syms)
    requires i < |names| && syms != [] && Fresh(names[..i], syms)
    ensures Fresh(names[..i + 1], syms) == (names[i] !in syms[|syms| - 1] && names[i] !in names[..i])
    ensures !Fresh(names[..i + 1], syms) ==> !(Distinct(names) && forall n | n in names :: n !in syms[|syms| - 1])
  {
    var now, next := names[..i], names[..i + 1];
    assert next == now + [names[i]] && next[i] == names[i];
    assert names[i] in next && names[i] in names;
    if names[i] in now {
      var j :| 0 <= j < i && now[j] == names[i];
      assert next[j] == next[i] && names[j] == names[i];
    } else {
      assert forall j | 0 <= j < i :: now[j] == next[j] && next[j] in now;
    }
  }

  lemma FreshMeans(names: seq<string>, syms: Syms)
    requires syms != []
    ensures Fresh(names, syms) == (Distinct(names) && forall n | n in names :: n !in syms[|syms| - 1])
  {
  }

  lemma DeclBytes(s: Stmt, top: bool, st: CState, b: seq<u8>)
    requires s.VarDecl?
    ensures var op := [if s.fix then OP_FIX else OP_VAR, Low(st.nextReg), Low(|s.names|)];
            b + ValuesCode(s.values, top, st.syms, st.nextReg, st.pool)
              + (if s.values != [] then [] else NullsCode(st.nextReg, |s.names|)) + op
            == b + DeclCode(s.fix, s.names, s.values, top, st)
  {
    hide NullsCode;
    var values := ValuesCode(s.values, top, st.syms, st.nextReg, st.pool);
    var nulls := if s.values != [] then [] else NullsCode(st.nextReg, |s.names|);
    var op := [if s.fix then OP_FIX else OP_VAR, Low(st.nextReg), Low(|s.names|)];
    Regroup(b, values, nulls, op);
    assert s.values == [] ==> values + (nulls + op) == nulls + op;
    assert s.values != [] ==> values + (nulls + op) == values + op;
  }

  /** The definitions of a declaration, unfolded. */
  lemma DeclParts(s: Stmt, top: bool, st: CState, K: Ctx)
    requires s.VarDecl?
    ensures Code(top, s, st, K) == DeclCode(s.fix, s.names, s.values, top, st)
    ensures StmtConsts(s) == ListConsts(s.values) && After(s, st) == Declare(AddPool(st, ListConsts(s.values)), s.fix, s.names)
  {
    hide DeclCode, Declare, ListConsts;
  }

  lemma AccessKeys(syms: Syms)
    requires syms != []
    ensures |Access(syms)| == |syms| && Access(syms)[|syms| - 1].Keys == syms[|syms| - 1].Keys
  {
  }

  /** After `i` names, the scope and the chunk so far; the other names will add the rest. */
  ghost predicate NamesLeft(names: seq<string>, i: nat, fix: bool, init: bool, start: nat, scope0: map<string, Sym>,
                            b0: seq<u8>, scope: map<string, Sym>, b: seq<u8>) {
    i <= |names|
    && BindSyms(scope, names[i..], start + i, !fix) == BindSyms(scope0, names, start, !fix)
    && b + (if init then [] else NullsCode(start + i, |names| - i)) == b0 + (if init then [] else NullsCode(start, |names|))
    && scope.Keys == scope0.Keys + set n | n in names[..i]
  }

  lemma NamesStart(names: seq<string>, fix: bool, init: bool, start: nat, scope0: map<string, Sym>, b0: seq<u8>)
    ensures NamesLeft(names, 0, fix, init, start, scope0, b0, scope0, b0)
  {
    assert names[0..] == names;
  }

  lemma NamesStep(names: seq<string>, i: nat, fix: bool, init: bool, start: nat, scope0: map<string, Sym>, b0: seq<u8>,
                  scope: map<string, Sym>, b: seq<u8>)
    requires NamesLeft(names, i, fix, init, start, scope0, b0, scope, b) && i < |names|
    ensures names[i] in scope <==> names[i] in scope0 || names[i] in names[..i]
    ensures NamesLeft(names, i + 1, fix, init, start, scope0, b0, scope[names[i] := Sym(start + i, !fix)],
                      b + if init then [] else [OP_LOAD_REG, Low(start + i), OP_NULL])
  {
    assert names[i..][0] == names[i] && names[i..][1..] == names[i + 1..];
    assert names[..i + 1] == names[..i] + [names[i]];
    assert names[i] in scope <==> names[i] in scope.Keys;
    if !init {
      Regroup(b, [OP_LOAD_REG, Low(start + i), OP_NULL], NullsCode(start + i + 1, |names| - i - 1), []);
    } else {
      assert b + [] == b;
    }
  }

  lemma NamesEnd(names: seq<string>, fix: bool, init: bool, start: nat, scope0: map<string, Sym>, b0: seq<u8>,
                 scope: map<string, Sym>, b: seq<u8>)
    requires NamesLeft(names, |names|, fix, init, start, scope0, b0, scope, b)
    ensures scope == BindSyms(scope0, names, start, !fix) && b == b0 + if init then [] else NullsCode(start, |names|)
  {
    assert names[|names|..] == [] && b + [] == b;
  }

  lemma DeclStaticParts(s: Stmt, syms: Syms, tags: set<string>, inLoop: bool)
    requires s.VarDecl? && InFragment(s, tags, inLoop) && syms != []
    ensures ScopedStmt(s, Access(syms), tags)
            == ((|s.values| <= 1 || |s.names| == |s.values|)
                && (forall x | x in s.values :: ScopedExpr(x, Access(syms)))
                && Distinct(s.names) && forall n | n in s.names :: n !in syms[|syms| - 1])
  {
    AccessKeys(syms);
    hide Distinct, ScopedExpr, Access;
    forall n | n in s.names ensures n in Access(syms)[|syms| - 1] <==> n in syms[|syms| - 1] {
      assert n in Access(syms)[|syms| - 1].Keys <==> n in syms[|syms| - 1].Keys;
    }
  }

  lemma ScriptEmitted(ss: seq<Stmt>, a: Snap, z: Snap)
    requires AllEmitted(ss, true, false, a, z) && a.jumps.breakLabels == map[] && a.block == [] && a.pool == []
    ensures z.block == CodeAll(true, ss, a.st, map[]) && z.pool == StmtsConsts(ss) && z.st == AfterAll(ss, a.st)
  {
    hide CodeAll, StmtsConsts, AfterAll, HolesOfAll;
    assert OpenCtx({}, false) == map[];
  }

  class Compiler {
    const code: ByteCode
    const depth: nat

    var nextReg: nat
    var scope: nat
    var scopeStart: nat
    var varLocations: map<VarEntry, nat>
    var varAccess: map<nat, bool>
    var varScopes: seq<seq<string>>
    var breakJumps: seq<nat>
    var continueJumps: seq<nat>
    var breakLabels: map<string, seq<nat>>
    var continueLabels: map<string, seq<nat>>
    var hitError: bool
    ghost var syms: Syms

    ghost predicate Valid()
      reads this
    {
      && TablesFor(syms, varLocations, varAccess, varScopes)
      && |syms| == scope + 1
      && SymsOk(syms, nextReg)
    }

    constructor (depth: nat)
      ensures Valid() && fresh(code) && code.block == [] && code.pool == [] && this.depth == depth
      ensures syms == [map[]] && nextReg == 0 && scopeStart == 0
      ensures breakLabels == continueLabels == map[] && breakJumps == continueJumps == [] && !hitError
    {
      code := new ByteCode();
      this.depth := depth;
      nextReg, scope, scopeStart := 0, 0, 0;
      varLocations, varAccess, varScopes := map[], map[], [];
      breakJumps, continueJumps, breakLabels, continueLabels := [], [], map[], map[];
      hitError := false;
      syms := [map[]];
    }

    /* Variables. */

    /** Search the scopes of this function from the innermost outwards. */
    method ResolveVariable(name: string) returns (info: VarInfo)
      requires Valid()
      ensures info.found == Declared(Access(syms), name) == (Innermost(syms, name) >= 0)
      ensures info.found ==>
                var k := Innermost(syms, name);
                && info.slot == syms[k][name].reg
                && info.access == syms[k][name].isVar == Assignable(Access(syms), name)
                && info.global == (depth == 0 && k == 0)
    {
      hide SymsOk, Access;
      AccessSame(syms, name);
      for i := 0 to scope + 1
        invariant forall j | scope - i < j <= scope :: name !in syms[j]
      {
        var entry := VarEntry(name, scope - i);
        if entry in varLocations {
          assert EntryAt(varLocations, entry);
          assert VarAt(syms, entry.scope, name);
          assert Innermost(syms, name) == entry.scope;
          var slot := varLocations[entry];
          return VarInfo(true, slot, depth == 0 && entry.scope == 0, varAccess[slot]);
        }
        assert !VarAt(syms, scope - i, name);
      }
      return VarInfo(false, 0, false, false);
    }

    method EmitGetVar(info: VarInfo, dest: nat)
      modifies code`block
      ensures code.block == old(code.block) + GetVar(info.global, 0, dest, info.slot)
    {
      code.AddBytes([if info.global then OP_GET_GLOBAL else OP_GET_LOCAL, Low(dest), Low(info.slot)]);
    }

    method EmitSetVar(info: VarInfo, src: nat)
      modifies code`block
      ensures code.block == old(code.block) + SetVar(info.global, 0, info.slot, src)
    {
      code.AddBytes([if info.global then OP_SET_GLOBAL else OP_SET_LOCAL, Low(info.slot), Low(src)]);
    }

    /* Expressions. Compilation stops at the first error. */

    /** Appends the bytes of `e`, which leave its value in the next register. */
    method CompileExpr(e: Expr) returns (reg: nat)
      requires Valid() && !hitError
      modifies `nextReg, `hitError, code
      ensures reg == old(nextReg)
      ensures hitError == !ScopedExpr(e, Access(syms))
      ensures !hitError ==>
                && Emitted(e, depth == 0, syms, old(nextReg), old(code.block), old(code.pool), code.block, code.pool)
                && nextReg == old(nextReg) + 1 && Valid()
      decreases e, 1
    {
      hide SymsOk, TablesFor, ExprCode, ExprConsts, Emitted;
      reg := nextReg;
      match e {
        case IntLit(_) => CompileLiteral(e);
        case BoolLit(_) => CompileLiteral(e);
        case NullLit => CompileLiteral(e);
        case Var(_) => CompileVar(e);
        case Unary(_, _) => CompileUnary(e);
        case Binary(_, _, _) => CompileBinary(e);
        case And(_, _) => CompileLogic(e);
        case Or(_, _) => CompileLogic(e);
        case IfExpr(_, _, _) => CompileIfExpr(e);
        case Assign(_, _) => CompileAssign(e);
        case CompoundAssign(_, _, _) => CompileCompound(e);
        case Crement(_, _, _) => CompileCrement(e);
        case ListLit(_) => CompileList(e);
        case Index(_, _) => CompileIndex(e);
      }
      SymsOkMore(syms, reg, reg + 1);
    }

    method CompileLiteral(e: Expr)
      requires Valid() && !hitError && (e.IntLit? || e.BoolLit? || e.NullLit?)
      modifies `nextReg, `hitError, code
      ensures hitError == !ScopedExpr(e, Access(syms))
      ensures !hitError ==>
                && Emitted(e, depth == 0, syms, old(nextReg), old(code.block), old(code.pool), code.block, code.pool)
                && nextReg == old(nextReg) + 1
      decreases e, 0
    {
      hide SymsOk, TablesFor;
      match e {
        case IntLit(i) =>
          code.LoadRegConst(Int(i), nextReg);
          assert code.block == old(code.block) + LoadInt(i, nextReg, |old(code.pool)|);
        case BoolLit(b) => code.LoadReg(nextReg, if b then OP_TRUE else OP_FALSE);
        case NullLit => code.LoadReg(nextReg, OP_NULL);
      }
      nextReg := nextReg + 1;
    }

    method CompileVar(e: Expr)
      requires Valid() && !hitError && e.Var?
      modifies `nextReg, `hitError, code
      ensures hitError == !ScopedExpr(e, Access(syms))
      ensures !hitError ==>
                && Emitted(e, depth == 0, syms, old(nextReg), old(code.block), old(code.pool), code.block, code.pool)
                && nextReg == old(nextReg) + 1
      decreases e, 0
    {
      hide SymsOk, TablesFor, Access;
      var info := ResolveVariable(e.name);
      if !info.found {
        hitError := true;
        return;
      }
      EmitGetVar(info, nextReg);
      nextReg := nextReg + 1;
    }

    method CompileUnary(e: Expr)
      requires Valid() && !hitError && e.Unary?
      modifies `nextReg, `hitError, code
      ensures hitError == !ScopedExpr(e, Access(syms))
      ensures !hitError ==>
                && Emitted(e, depth == 0, syms, old(nextReg), old(code.block), old(code.pool), code.block, code.pool)
                && nextReg == old(nextReg) + 1
      decreases e, 0
    {
      hide ExprCode, ExprConsts, Emitted, SymsOk, TablesFor;
      ghost var b, p := code.block, code.pool;
      var reg := CompileExpr(e.operand);
      if hitError { return; }
      UnaryEmitted(e, depth == 0, syms, reg, b, p, code.block, code.pool);
      code.AddBytes([UnaryOpcode(e.uop), Low(reg)]);
    }

    method CompileBinary(e: Expr)
      requires Valid() && !hitError && e.Binary?
      modifies `nextReg, `hitError, code
      ensures hitError == !ScopedExpr(e, Access(syms))
      ensures !hitError ==>
                && Emitted(e, depth == 0, syms, old(nextReg), old(code.block), old(code.pool), code.block, code.pool)
                && nextReg == old(nextReg) + 1
      decreases e, 0
    {
      hide ExprCode, ExprConsts, Emitted, SymsOk, TablesFor;
      ghost var b, p := code.block, code.pool;
      var first := CompileExpr(e.left);
      if hitError { return; }
      ghost var b1, p1 := code.block, code.pool;
      var second := CompileExpr(e.right);
      if hitError { return; }
      ghost var b2 := code.block;
      BinaryEmitted(e, depth == 0, syms, first, b, p, b1, p1, b2, code.pool);
      code.AddBytes([BinaryOpcode(e.op), Low(first), Low(second)]);
      if Inverted(e.op) { code.AddBytes([OP_NOT, Low(first)]); }
      BinaryBytes(b2, e.op, first);
      nextReg := nextReg - 1;
    }

    method CompileIndex(e: Expr)
      requires Valid() && !hitError && e.Index?
      modifies `nextReg, `hitError, code
      ensures hitError == !ScopedExpr(e, Access(syms))
      ensures !hitError ==>
                && Emitted(e, depth == 0, syms, old(nextReg), old(code.block), old(code.pool), code.block, code.pool)
                && nextReg == old(nextReg) + 1
      decreases e, 0
    {
      hide ExprCode, ExprConsts, Emitted, SymsOk, TablesFor;
      ghost var b, p := code.block, code.pool;
      var obj := CompileExpr(e.obj);
      if hitError { return; }
      ghost var b1, p1 := code.block, code.pool;
      var index := CompileExpr(e.index);
      if hitError { return; }
      IndexEmitted(e, depth == 0, syms, obj, b, p, b1, p1, code.block, code.pool);
      code.AddBytes([OP_GET_INDEX, Low(obj), Low(obj), Low(index)]);
      nextReg := nextReg - 1;
    }

    method CompileLogic(e: Expr)
      requires Valid() && !hitError && (e.And? || e.Or?)
      modifies `nextReg, `hitError, code
      ensures hitError == !ScopedExpr(e, Access(syms))
      ensures !hitError ==>
                && Emitted(e, depth == 0, syms, old(nextReg), old(code.block), old(code.pool), code.block, code.pool)
                && nextReg == old(nextReg) + 1
      decreases e, 0
    {
      hide ExprCode, ExprConsts, Emitted, SymsOk, TablesFor;
      ghost var b, p := code.block, code.pool;
      var reg := CompileExpr(e.left);
      if hitError { return; }
      ghost var b1, p1 := code.block, code.pool;
      var op := if e.And? then OP_JUMP_FALSE else OP_JUMP_TRUE;
      var jump := code.AddJump(op, reg);
      nextReg := reg;
      var _ := CompileExpr(e.right);
      if hitError { return; }
      LogicEmitted(e, depth == 0, syms, reg, b, p, b1, p1, op, code.block, code.pool);
      code.PatchJump(jump);
    }

    method CompileIfExpr(e: Expr)
      requires Valid() && !hitError && e.IfExpr?
      modifies `nextReg, `hitError, code
      ensures hitError == !ScopedExpr(e, Access(syms))
      ensures !hitError ==>
                && Emitted(e, depth == 0, syms, old(nextReg), old(code.block), old(code.pool), code.block, code.pool)
                && nextReg == old(nextReg) + 1
      decreases e, 0
    {
      hide ExprCode, ExprConsts, Emitted, SymsOk, TablesFor;
      ghost var b, p := code.block, code.pool;
      var reg := CompileExpr(e.cond);
      if hitError { return; }
      ghost var b1, p1 := code.block, code.pool;
      var falseJump := code.AddJump(OP_JUMP_FALSE, reg);
      nextReg := nextReg - 1;
      var current := CompileExpr(e.thn);
      if hitError { return; }
      ghost var b2, p2 := code.block, code.pool;
      IfThenSize(e.thn, depth == 0, syms, reg, b1, p1, b2, p2);
      var trueJump := code.AddJump(OP_JUMP, -1);
      code.PatchJump(falseJump);
      ghost var over := code.block;
      nextReg := current;
      var _ := CompileExpr(e.els);
      if hitError { return; }
      IfEmitted(e, depth == 0, syms, reg, b, p, b1, p1, b2, p2, over, code.block, code.pool);
      code.PatchJump(trueJump);
    }

    method CompileAssign(e: Expr)
      requires Valid() && !hitError && e.Assign?
      modifies `nextReg, `hitError, code
      ensures hitError == !ScopedExpr(e, Access(syms))
      ensures !hitError ==>
                && Emitted(e, depth == 0, syms, old(nextReg), old(code.block), old(code.pool), code.block, code.pool)
                && nextReg == old(nextReg) + 1
      decreases e, 0
    {
      hide ExprCode, ExprConsts, Emitted, SymsOk, TablesFor;
      ghost var b, p := code.block, code.pool;
      hide Access;
      var reg := CompileExpr(e.value);
      if hitError { return; }
      var info := ResolveVariable(e.name);
      if !info.found || !info.access {
        hitError := true;
        return;
      }
      AssignEmitted(e, depth == 0, syms, reg, b, p, code.block, code.pool);
      EmitSetVar(info, reg);
    }

    method CompileCompound(e: Expr)
      requires Valid() && !hitError && e.CompoundAssign?
      modifies `nextReg, `hitError, code
      ensures hitError == !ScopedExpr(e, Access(syms))
      ensures !hitError ==>
                && Emitted(e, depth == 0, syms, old(nextReg), old(code.block), old(code.pool), code.block, code.pool)
                && nextReg == old(nextReg) + 1
      decreases e, 0
    {
      hide ExprCode, ExprConsts, Emitted, SymsOk, TablesFor;
      ghost var b, p := code.block, code.pool;
      hide Access, CompoundRow, GetVar, SetVar;
      var reg := CompileExpr(e.value);
      if hitError { return; }
      var info := ResolveVariable(e.name);
      if !info.found || !info.access {
        hitError := true;
        return;
      }
      SameVariableCode(depth == 0, Innermost(syms, e.name), info);
      CompoundEmitted(e, depth == 0, syms, reg, b, p, code.block, code.pool);
      CompoundAssignToVar(BinaryOpcode(e.cop), info, reg);
      nextReg := reg + 1;
    }

    /** The value is in the register before the next one; the opcode is not looked at. */
    method CompoundAssignToVar(op: u8, info: VarInfo, valueReg: nat)
      requires Valid() && nextReg == valueReg + 1
      modifies `nextReg, code
      ensures Valid() && nextReg == old(nextReg) + 1 && code.pool == old(code.pool)
      ensures code.block == old(code.block) + CompoundRow(op, info.global, 0, info.slot, valueReg)
    {
      hide GetVar, SetVar;
      var varReg := nextReg;
      EmitGetVar(info, varReg);
      nextReg := nextReg + 1;
      code.AddBytes([op, Low(varReg), Low(valueReg)]);
      EmitSetVar(info, varReg);
      code.AddBytes([OP_MOVE_REG, Low(valueReg), Low(varReg)]);
      CompoundBytes(old(code.block), op, info.global, info.slot, valueReg);
    }

    method CompileCrement(e: Expr)
      requires Valid() && !hitError && e.Crement?
      modifies `nextReg, `hitError, code
      ensures hitError == !ScopedExpr(e, Access(syms))
      ensures !hitError ==>
                && Emitted(e, depth == 0, syms, old(nextReg), old(code.block), old(code.pool), code.block, code.pool)
                && nextReg == old(nextReg) + 1
      decreases e, 0
    {
      hide SymsOk, TablesFor, Access, CrementCode, GetVar, SetVar;
      var info := ResolveVariable(e.name);
      if !info.found || !info.access {
        hitError := true;
        return;
      }
      var temp := nextReg;
      EmitGetVar(info, temp);
      nextReg := nextReg + 1;
      EmitGetVar(info, nextReg);
      code.AddBytes([if e.incr then OP_INCR else OP_DECR, Low(nextReg)]);
      EmitSetVar(info, nextReg);
      if !e.prev { code.AddBytes([OP_MOVE_REG, Low(temp), Low(nextReg)]); }
      CrementBytes(old(code.block), e.incr, e.prev, info.global, info.slot, temp);
      SameVariableCode(depth == 0, Innermost(syms, e.name), info);
    }

    method CompileList(e: Expr)
      requires Valid() && !hitError && e.ListLit?
      modifies `nextReg, `hitError, code
      ensures hitError == !ScopedExpr(e, Access(syms))
      ensures !hitError ==>
                && Emitted(e, depth == 0, syms, old(nextReg), old(code.block), old(code.pool), code.block, code.pool)
                && nextReg == old(nextReg) + 1
      decreases e, 0
    {
      hide ExprCode, ExprConsts, SymsOk, TablesFor, Emitted, EntriesLeft, ExtendList;
      var es := e.entries;
      var listReg := nextReg;
      ghost var b, p := code.block, code.pool;
      code.AddBytes([OP_LIST, Low(listReg)]);
      nextReg := nextReg + 1;
      var count, startReg := 0, nextReg;
      SymsOkMore(syms, listReg, startReg);
      EntriesStart(e, depth == 0, syms, listReg, b, p);
      for i := 0 to |es|
        invariant Valid() && !hitError
        invariant forall x | x in es[..i] :: ScopedExpr(x, Access(syms))
        invariant nextReg == startReg + count && count < LIST_ENTRY_GROUP
        invariant EntriesLeft(e, i, depth == 0, syms, listReg, count, code.block, code.pool, b, p)
      {
        ghost var b1, p1 := code.block, code.pool;
        var _ := CompileExpr(es[i]);
        if hitError { return; }
        EntriesStep(e, i, depth == 0, syms, listReg, count, b1, p1, code.block, code.pool, b, p);
        count := count + 1;
        if count == LIST_ENTRY_GROUP {
          SymsOkMore(syms, listReg, startReg);
          ExtendCode(listReg, count);
          code.AddBytes([OP_EXT_LIST, Low(listReg), Low(startReg), Low(count)]);
          nextReg, count := startReg, 0;
        }
        assert es[..i + 1] == es[..i] + [es[i]];
      }
      assert es[..|es|] == es;
      EntriesEnd(e, depth == 0, syms, listReg, count, code.block, code.pool, b, p);
      if count > 0 {
        ExtendCode(listReg, count);
        code.AddBytes([OP_EXT_LIST, Low(listReg), Low(startReg), Low(count)]);
        nextReg, count := startReg, 0;
      }
    }
  
    /* Statements. */

    ghost function Snapshot(): Snap
      reads this, code
    {
      Snap(CState(syms, nextReg, scopeStart, |code.pool|), Jumps(breakJumps, continueJumps, breakLabels, continueLabels),
           code.block, code.pool)
    }

    method PushScope()
      requires Valid()
      modifies `scope, `scopeStart, `varScopes, `syms, code`block
      ensures Valid() && syms == old(syms) + [map[]] && scopeStart == nextReg
      ensures code.block == old(code.block) + [OP_ENTER_SCOPE, Low(nextReg)]
    {
      scope := scope + 1;
      scopeStart := nextReg;
      varScopes := varScopes + [[]];
      syms := syms + [map[]];
      code.AddBytes([OP_ENTER_SCOPE, Low(scopeStart)]);
      assert forall k, n {:trigger VarAt(syms, k, n)} | VarAt(syms, k, n) :: VarAt(old(syms), k, n);
      assert forall k, n {:trigger VarAt(old(syms), k, n)} | VarAt(old(syms), k, n) :: VarAt(syms, k, n);
    }

    method PopScope()
      requires TablesFor(syms, varLocations, varAccess, varScopes) && |syms| == scope + 1 && scope > 0
      requires SymsOk(syms[..|syms| - 1], scopeStart)
      modifies `scope, `varLocations, `varScopes, `nextReg, `syms, code`block
      ensures Valid() && syms == old(syms)[..|old(syms)| - 1] && nextReg == scopeStart
      ensures code.block == old(code.block) + [OP_EXIT_SCOPE]
    {
      var names := varScopes[|varScopes| - 1];
      for i := 0 to |names|
        modifies `varLocations
        invariant forall v {:trigger EntryAt(varLocations, v)} :: EntryAt(varLocations, v) <==>
                    EntryAt(old(varLocations), v) && !(v.scope == scope && v.name in names[..i])
        invariant forall v {:trigger EntryAt(varLocations, v)} | EntryAt(varLocations, v) ::
                    v in old(varLocations) && varLocations[v] == old(varLocations)[v]
      {
        ghost var before := varLocations;
        varLocations := varLocations - {VarEntry(names[i], scope)};
        assert names[..i + 1] == names[..i] + [names[i]];
        assert forall v {:trigger EntryAt(varLocations, v)} ::
            EntryAt(varLocations, v) <==> EntryAt(before, v) && v != VarEntry(names[i], scope);
      }
      assert names[..|names|] == names;
      TablesLeave(syms, old(varLocations), varAccess, varScopes, varLocations);
      varScopes := varScopes[..|varScopes| - 1];
      syms := syms[..|syms| - 1];
      nextReg := scopeStart;
      scope := scope - 1;
      code.AddByte(OP_EXIT_SCOPE);
    }

    method PatchJumps(jumps: seq<nat>)
      requires Inside(jumps, |code.block|)
      modifies code`block
      ensures code.block == PatchAll(old(code.block), jumps, |old(code.block)|)
    {
      ghost var b := code.block;
      for i := 0 to |jumps|
        invariant |code.block| == |b| && PatchAll(code.block, jumps[i..], |b|) == PatchAll(b, jumps, |b|)
      {
        assert jumps[i] in jumps;
        code.PatchJump(jumps[i]);
        assert jumps[i..][1..] == jumps[i + 1..] && jumps[i..][0] == jumps[i];
      }
      assert jumps[|jumps|..] == [];
    }
  
    /** The labelled jumps of a loop; its label goes out of use with its breaks. */
    method PatchLabelJumps(tag: Option<string>, patchBreaks: bool)
      requires tag.Some? ==> tag.value in breakLabels && tag.value in continueLabels
      requires Inside(if tag.None? then [] else if patchBreaks then breakLabels[tag.value] else continueLabels[tag.value],
                      |code.block|)
      modifies `breakLabels, `continueLabels, code`block
      ensures code.block == if tag.None? then old(code.block)
                            else PatchAll(old(code.block),
                                          old(if patchBreaks then breakLabels[tag.value] else continueLabels[tag.value]),
                                          |old(code.block)|)
      ensures breakLabels == if patchBreaks && tag.Some? then old(breakLabels) - {tag.value} else old(breakLabels)
      ensures continueLabels == if patchBreaks && tag.Some? then old(continueLabels) - {tag.value} else old(continueLabels)
    {
      if tag.None? { return; }
      if patchBreaks {
        PatchJumps(breakLabels[tag.value]);
        breakLabels := breakLabels - {tag.value};
        continueLabels := continueLabels - {tag.value};
      } else {
        PatchJumps(continueLabels[tag.value]);
      }
    }

    method AddLabels(tag: Option<string>)
      modifies `breakLabels, `continueLabels
      ensures breakLabels == if tag.Some? then old(breakLabels)[tag.value := []] else old(breakLabels)
      ensures continueLabels == if tag.Some? then old(continueLabels)[tag.value := []] else old(continueLabels)
    {
      if tag.Some? {
        breakLabels := breakLabels[tag.value := []];
        continueLabels := continueLabels[tag.value := []];
      }
    }

    /** The jumps of a loop to its exit or to its next round: those of its own
        vector first, then those recorded under its label. */
    method PatchLoopJumps(tag: Option<string>, patchBreaks: bool)
      requires tag.Some? ==> tag.value in breakLabels && tag.value in continueLabels
      requires AllInside(Snapshot().jumps, tag, |code.block|)
      modifies `breakLabels, `continueLabels, code`block
      ensures code.block == PatchBoth(old(code.block), old(Snapshot().jumps), patchBreaks, tag)
      ensures breakLabels == if patchBreaks && tag.Some? then old(breakLabels) - {tag.value} else old(breakLabels)
      ensures continueLabels == if patchBreaks && tag.Some? then old(continueLabels) - {tag.value} else old(continueLabels)
    {
      hide PatchAll, Inside;
      LoopVectors(Snapshot().jumps, tag, |code.block|);
      if patchBreaks { PatchJumps(breakJumps); } else { PatchJumps(continueJumps); }
      PatchLabelJumps(tag, patchBreaks);
    }

    /** Appends the bytes of `s`; jumps out of `s` are left as recorded holes. */
    method CompileStmt(s: Stmt, ghost inLoop: bool)
      requires Valid() && !hitError && breakLabels.Keys == continueLabels.Keys
      requires InFragment(s, breakLabels.Keys, inLoop)
      modifies this, code
      ensures hitError == !ScopedStmt(s, old(Access(syms)), old(breakLabels.Keys))
      ensures !hitError ==> Valid() && StmtEmitted(s, depth == 0, inLoop, old(Snapshot()), Snapshot())
      decreases s, 2
    {
      hide TablesFor, SymsOk, StmtEmitted;
      match s {
        case Empty => EmptyDone(depth == 0, inLoop, Snapshot());
        case ExprStmt(e) => CompileExprStmt(e, inLoop);
        case If(_, _, _) => CompileIf(s, inLoop);
        case While(_, _, _, _) => CompileWhile(s, inLoop);
        case Repeat(_, _, _) => CompileRepeat(s, inLoop);
        case Block(_) => CompileBlock(s, inLoop);
        case VarDecl(_, _, _) => CompileVarDecl(s, inLoop);
        case Break(_) => CompileJump(s, inLoop);
        case Continue(_) => CompileJump(s, inLoop);
      }
    }

    method CompileExprStmt(e: Expr, ghost inLoop: bool)
      requires Valid() && !hitError && breakLabels.Keys == continueLabels.Keys
      modifies this, code
      ensures hitError == !ScopedExpr(e, old(Access(syms)))
      ensures !hitError ==> Valid() && StmtEmitted(ExprStmt(e), depth == 0, inLoop, old(Snapshot()), Snapshot())
    {
      hide TablesFor, SymsOk, StmtEmitted, Emitted;
      ghost var a := Snapshot();
      var reg := CompileExpr(e);
      if hitError { return; }
      nextReg := reg;
      ExprStmtDone(e, depth == 0, inLoop, a, Snapshot());
    }

    /** A condition and the jump taken when it fails; `b1` is the chunk in between. */
    method CompileTest(c: Expr, op: u8) returns (jump: nat, ghost b1: seq<u8>)
      requires Valid() && !hitError
      modifies `nextReg, `hitError, code
      ensures hitError == !ScopedExpr(c, Access(syms))
      ensures !hitError ==>
                && Emitted(c, depth == 0, syms, nextReg, old(code.block), old(code.pool), b1, code.pool)
                && code.block == b1 + [op, Low(nextReg)] + [0, 0] && jump == |b1| + 2
                && nextReg == old(nextReg)
    {
      hide TablesFor, SymsOk, Emitted, ExprCode, ExprConsts, Access;
      var reg := CompileExpr(c);
      jump, b1 := 0, code.block;
      if hitError { return; }
      jump := code.AddJump(op, reg);
      nextReg := nextReg - 1;
    }

    method CompileIf(s: Stmt, ghost inLoop: bool)
      requires Valid() && !hitError && breakLabels.Keys == continueLabels.Keys
      requires s.If? && InFragment(s, breakLabels.Keys, inLoop)
      modifies this, code
      ensures hitError == !ScopedStmt(s, old(Access(syms)), old(breakLabels.Keys))
      ensures !hitError ==> Valid() && StmtEmitted(s, depth == 0, inLoop, old(Snapshot()), Snapshot())
      decreases s, 1
    {
      hide TablesFor, SymsOk, StmtEmitted, Emitted, ExprCode, ExprConsts, Access, After, Tested, Patch, InFragment, ScopedStmt;
      IfStaticParts(s, Access(syms), breakLabels.Keys, inLoop);
      ghost var a, tags := Snapshot(), breakLabels.Keys;
      ghost var b1;
      var falseJump;
      falseJump, b1 := CompileTest(s.cond, OP_JUMP_FALSE);
      if hitError { return; }
      ghost var m := Snapshot();
      TestedHere(s, depth == 0, a, b1, m);
      CompileStmt(s.thn, inLoop);
      if hitError { return; }
      ghost var m1 := Snapshot();
      EmittedFacts(s.thn, depth == 0, inLoop, m, m1);
      BranchKeeps(s.thn, m.st, tags, inLoop);
      if !s.els.Empty? {
        var trueJump := code.AddJump(OP_JUMP, -1);
        code.PatchJump(falseJump);
        ghost var f := Snapshot();
        CompileStmt(s.els, inLoop);
        if hitError { return; }
        ghost var f1 := Snapshot();
        EmittedFacts(s.els, depth == 0, inLoop, f, f1);
        code.PatchJump(trueJump);
        IfElseDone(s, depth == 0, inLoop, a, b1, m, m1, f, f1, Snapshot());
      } else {
        code.PatchJump(falseJump);
        IfDone(s, depth == 0, inLoop, a, b1, m, m1, Snapshot());
      }
    }

    method CompileWhile(s: Stmt, ghost inLoop: bool)
      requires Valid() && !hitError && breakLabels.Keys == continueLabels.Keys
      requires s.While? && InFragment(s, breakLabels.Keys, inLoop)
      modifies this, code
      ensures hitError == !ScopedStmt(s, old(Access(syms)), old(breakLabels.Keys))
      ensures !hitError ==> Valid() && StmtEmitted(s, depth == 0, inLoop, old(Snapshot()), Snapshot())
      decreases s, 1
    {
      hide TablesFor, SymsOk, StmtEmitted, Emitted, ExprCode, ExprConsts, Access, After, PatchAll, Inside, NoJumps, AllInside,
        Tested, Patch, LoopCode, PatchBoth, InFragment, ScopedStmt, LoopClosed;
      WhileStaticParts(s, Access(syms), breakLabels.Keys, inLoop);
      ghost var a, tags := Snapshot(), breakLabels.Keys;
      var loopStart := |code.block|;
      AddLabels(s.tag);
      var prevBreaks, prevContinues := breakJumps, continueJumps;
      breakJumps, continueJumps := [], [];
      EnterLoop(a.jumps, s.tag);
      ghost var b1, m1;
      var falseJump;
      falseJump, b1 := CompileTest(s.cond, OP_JUMP_FALSE);
      if hitError { return; }
      ghost var m := Snapshot();
      TestedHere(s, depth == 0, a, b1, m);
      m1 := CompileLoopBody(s, falseJump, loopStart, tags, a, b1);
      if hitError { return; }
      ghost var e := Snapshot();
      CompileStmt(s.els, true);
      if hitError { return; }
      ghost var e1 := Snapshot();
      EmittedFacts(s.els, depth == 0, true, e, e1);
      ElseInside(s.els, depth == 0, tags, s.tag, e, e1, |e.block|);
      PatchLoopJumps(s.tag, true);
      breakJumps, continueJumps := prevBreaks, prevContinues;
      WhileEmitted(s, depth == 0, inLoop, a, b1, m, m1, e, e1, Snapshot());
    }

    /** The body of a while loop, its `continue` jumps and the jump back; the exit
        of the condition lands behind it. `m1` is the state after the body. */
    method CompileLoopBody(s: Stmt, falseJump: nat, loopStart: nat, ghost tags: set<string>, ghost a: Snap, ghost b1: seq<u8>)
      returns (ghost m1: Snap)
      requires s.While? && Valid() && !hitError && SameLabels(Snapshot().jumps, WithLabel(tags, s.tag))
      requires !s.body.VarDecl? && InFragment(s.body, breakLabels.Keys, true)
      requires NoJumps(Snapshot().jumps, s.tag)
      requires loopStart == |a.block| <= |b1| && falseJump == |b1| + 2 && |code.block| == |b1| + 4
      modifies this, code
      ensures hitError == !ScopedStmt(s.body, old(Access(syms)), old(breakLabels.Keys))
      ensures !hitError ==>
                && Valid() && syms == old(syms)
                && StmtEmitted(s.body, depth == 0, true, old(Snapshot()), m1) && LoopClosed(s, a, b1, m1, Snapshot())
                && SameLabels(m1.jumps, WithLabel(tags, s.tag)) && Snapshot().jumps == m1.jumps
                && m1.st == After(s.body, old(Snapshot()).st) && m1.st == Snapshot().st
                && AllInside(m1.jumps, s.tag, |code.block|)
      decreases s, 0
    {
      hide TablesFor, SymsOk, StmtEmitted, Access, After, PatchAll, Inside, NoJumps, AllInside, Patch, LoopCode, PatchBoth,
        InFragment, ScopedStmt;
      ghost var m := Snapshot();
      CompileStmt(s.body, true);
      m1 := Snapshot();
      if hitError { return; }
      EmittedFacts(s.body, depth == 0, true, m, m1);
      BranchKeeps(s.body, m.st, m.jumps.breakLabels.Keys, true);
      BodyInside(s.body, depth == 0, tags, s.tag, m, m1);
      PatchLoopJumps(s.tag, false);
      ghost var again := code.block;
      code.AddLoop(loopStart);
      LoopSize(|again| - loopStart + 3);
      code.PatchJump(falseJump);
      InsideMore(m1.jumps, s.tag, |m1.block|, |code.block|);
      assert Snapshot().jumps == m1.jumps;
    }

    /** `break` and `continue`. */
    method CompileJump(s: Stmt, ghost inLoop: bool)
      requires Valid() && !hitError && breakLabels.Keys == continueLabels.Keys
      requires (s.Break? || s.Continue?) && InFragment(s, breakLabels.Keys, inLoop)
      modifies this, code
      ensures hitError == !ScopedStmt(s, old(Access(syms)), old(breakLabels.Keys))
      ensures !hitError ==> Valid() && StmtEmitted(s, depth == 0, inLoop, old(Snapshot()), Snapshot())
    {
      hide TablesFor, SymsOk, StmtEmitted, Access, OpenCtx;
      ghost var a := Snapshot();
      var tag := s.target;
      var jump;
      if tag.None? {
        jump := code.AddJump(OP_JUMP, -1);
        if s.Break? { breakJumps := breakJumps + [jump]; } else { continueJumps := continueJumps + [jump]; }
      } else if s.Break? {
        if tag.value !in breakLabels {
          hitError := true;
          return;
        }
        jump := code.AddJump(OP_JUMP, -1);
        breakLabels := breakLabels[tag.value := breakLabels[tag.value] + [jump]];
      } else {
        if tag.value !in continueLabels {
          hitError := true;
          return;
        }
        jump := code.AddJump(OP_JUMP, -1);
        continueLabels := continueLabels[tag.value := continueLabels[tag.value] + [jump]];
      }
      JumpDone(s, JumpOut(s.Break?, tag), depth == 0, inLoop, a, Snapshot());
    }

    /** The test at the end of a repeat block and the jump back when it fails. */
    method CompileUntil(c: Expr, loopStart: nat) returns (ghost b2: seq<u8>)
      requires Valid() && !hitError && loopStart <= |code.block|
      modifies `nextReg, `hitError, code
      ensures hitError == !ScopedExpr(c, Access(syms))
      ensures !hitError ==>
                && Emitted(c, depth == 0, syms, nextReg, old(code.block), old(code.pool), b2, code.pool)
                && loopStart <= |b2| && |old(code.block)| <= |code.block|
                && code.block == Patch(b2 + [OP_JUMP_TRUE, Low(nextReg)] + [0, 0] + LoopCode(|b2| + 4 - loopStart + 3),
                                       |b2| + 2, 3)
                && nextReg == old(nextReg)
    {
      hide TablesFor, SymsOk, Emitted, ExprCode, ExprConsts, Access, Patch, LoopCode;
      var trueJump;
      trueJump, b2 := CompileTest(c, OP_JUMP_TRUE);
      if hitError { return; }
      TestGrows(c, depth == 0, syms, nextReg, old(code.block), old(code.pool), b2, code.pool);
      code.AddLoop(loopStart);
      LoopSize(|b2| + 4 - loopStart + 3);
      code.PatchJump(trueJump);
    }

    /** The block of a repeat loop and its `continue` jumps; `m1` is the state in between. */
    method CompileRepeatBody(s: Stmt, ghost tags: set<string>) returns (ghost m1: Snap)
      requires s.Repeat? && Valid() && !hitError && SameLabels(Snapshot().jumps, WithLabel(tags, s.tag))
      requires !s.body.VarDecl? && InFragment(s.body, breakLabels.Keys, true)
      requires NoJumps(Snapshot().jumps, s.tag)
      modifies this, code
      ensures hitError == !ScopedStmt(s.body, old(Access(syms)), old(breakLabels.Keys))
      ensures !hitError ==>
                && Valid() && syms == old(syms)
                && StmtEmitted(s.body, depth == 0, true, old(Snapshot()), m1)
                && Snapshot() == m1.(block := PatchBoth(m1.block, m1.jumps, false, s.tag))
                && SameLabels(m1.jumps, WithLabel(tags, s.tag)) && m1.st == After(s.body, old(Snapshot()).st)
                && AllInside(m1.jumps, s.tag, |code.block|) && |code.block| >= old(|code.block|)
      decreases s, 0
    {
      hide TablesFor, SymsOk, StmtEmitted, Access, After, PatchAll, Inside, NoJumps, AllInside, Patch, PatchBoth, InFragment,
        ScopedStmt;
      ghost var m := Snapshot();
      CompileStmt(s.body, true);
      m1 := Snapshot();
      if hitError { return; }
      EmittedFacts(s.body, depth == 0, true, m, m1);
      BranchKeeps(s.body, m.st, m.jumps.breakLabels.Keys, true);
      BodyInside(s.body, depth == 0, tags, s.tag, m, m1);
      PatchLoopJumps(s.tag, false);
    }

    method CompileRepeat(s: Stmt, ghost inLoop: bool)
      requires Valid() && !hitError && breakLabels.Keys == continueLabels.Keys
      requires s.Repeat? && InFragment(s, breakLabels.Keys, inLoop)
      modifies this, code
      ensures hitError == !ScopedStmt(s, old(Access(syms)), old(breakLabels.Keys))
      ensures !hitError ==> Valid() && StmtEmitted(s, depth == 0, inLoop, old(Snapshot()), Snapshot())
      decreases s, 1
    {
      hide TablesFor, SymsOk, StmtEmitted, Emitted, ExprCode, ExprConsts, Access, After, PatchAll, Inside, NoJumps, AllInside,
        Patch, LoopCode, PatchBoth, InFragment, ScopedStmt;
      RepeatStaticParts(s, Access(syms), breakLabels.Keys, inLoop);
      ghost var a, tags := Snapshot(), breakLabels.Keys;
      AddLabels(s.tag);
      var prevBreaks, prevContinues := breakJumps, continueJumps;
      breakJumps, continueJumps := [], [];
      EnterLoop(a.jumps, s.tag);
      var loopStart := |code.block|;
      ghost var m := Snapshot();
      ghost var m1 := CompileRepeatBody(s, tags);
      if hitError { return; }
      ghost var b2 := CompileUntil(s.cond, loopStart);
      if hitError { return; }
      InsideMore(m1.jumps, s.tag, |m1.block|, |code.block|);
      ghost var b4 := code.block;
      PatchLoopJumps(s.tag, true);
      breakJumps, continueJumps := prevBreaks, prevContinues;
      RepeatDone(s, depth == 0, inLoop, a, m, m1, b2, code.pool, b4, Snapshot());
    }

    method CompileBlock(s: Stmt, ghost inLoop: bool)
      requires Valid() && !hitError && breakLabels.Keys == continueLabels.Keys
      requires s.Block? && InFragment(s, breakLabels.Keys, inLoop)
      modifies this, code
      ensures hitError == !ScopedStmt(s, old(Access(syms)), old(breakLabels.Keys))
      ensures !hitError ==> Valid() && StmtEmitted(s, depth == 0, inLoop, old(Snapshot()), Snapshot())
      decreases s, 1
    {
      hide TablesFor, SymsOk, StmtEmitted, AllEmitted, Access, AfterAll;
      ghost var a, tags := Snapshot(), breakLabels.Keys;
      PushScope();
      ghost var m := Snapshot();
      EnterOk(a.st);
      CompileAll(s.stmts, inLoop);
      if hitError { return; }
      ghost var inner := Snapshot();
      BlockKeeps(s.stmts, a.st, depth == 0, tags, inLoop, m, inner);
      PopScope();
      BlockDone(s.stmts, depth == 0, inLoop, a, m, inner, Snapshot());
    }

    /** The statements of a block or of the whole script. */
    method CompileAll(ss: seq<Stmt>, ghost inLoop: bool)
      requires Valid() && !hitError && breakLabels.Keys == continueLabels.Keys
      requires forall x | x in ss :: InFragment(x, breakLabels.Keys, inLoop)
      modifies this, code
      ensures hitError == !ScopedAll(ss, old(Access(syms)), old(breakLabels.Keys))
      ensures !hitError ==> Valid() && AllEmitted(ss, depth == 0, inLoop, old(Snapshot()), Snapshot())
      decreases ss
    {
      hide TablesFor, SymsOk, StmtEmitted, AllEmitted, ListLeft, Access, InFragment, After, ScopedStmt;
      ghost var a, tags := Snapshot(), breakLabels.Keys;
      ghost var scoped := ScopedAll(ss, Access(syms), tags);
      ListStart(ss, depth == 0, inLoop, a);
      assert ss[0..] == ss;
      for i := 0 to |ss|
        invariant Valid() && !hitError && SameLabels(Snapshot().jumps, tags)
        invariant ListLeft(ss, i, depth == 0, inLoop, a, Snapshot())
        invariant ScopedAll(ss[i..], Access(syms), tags) == scoped
      {
        ghost var m := Snapshot();
        assert ss[i..][0] == ss[i] && ss[i..][1..] == ss[i + 1..];
        CompileStmt(ss[i], inLoop);
        if hitError { return; }
        ListStep(ss, i, depth == 0, inLoop, a, m, Snapshot());
        EmittedFacts(ss[i], depth == 0, inLoop, m, Snapshot());
        AccessAfter(ss[i], m.st, tags, inLoop);
      }
      assert ss[|ss|..] == [];
      ListEnd(ss, depth == 0, inLoop, a, Snapshot());
    }

    /* Declarations. */

    method DefVar(name: string, reg: nat, isVar: bool)
      requires TablesFor(syms, varLocations, varAccess, varScopes) && |syms| == scope + 1 && SymsOk(syms, reg)
      requires name !in syms[scope]
      modifies `varLocations, `varAccess, `varScopes, `syms
      ensures TablesFor(syms, varLocations, varAccess, varScopes) && SymsOk(syms, reg + 1)
      ensures syms == old(syms)[scope := old(syms)[scope][name := Sym(reg, isVar)]]
    {
      TablesDefine(syms, varLocations, varAccess, varScopes, name, reg, isVar);
      varLocations := varLocations[VarEntry(name, scope) := reg];
      varAccess := varAccess[reg := isVar];
      if scope != 0 { varScopes := varScopes[scope - 1 := varScopes[scope - 1] + [name]]; }
      syms := syms[scope := syms[scope][name := Sym(reg, isVar)]];
    }

    method CompileSingleVarDecl(name: string, fix: bool, init: bool, valueReg: nat)
      requires TablesFor(syms, varLocations, varAccess, varScopes) && |syms| == scope + 1 && SymsOk(syms, valueReg)
      requires !hitError
      modifies `varLocations, `varAccess, `varScopes, `syms, `hitError, code`block
      ensures hitError == (name in old(syms)[scope])
      ensures !hitError ==>
                && TablesFor(syms, varLocations, varAccess, varScopes) && SymsOk(syms, valueReg + 1)
                && syms == old(syms)[scope := old(syms)[scope][name := Sym(valueReg, !fix)]]
                && code.block == old(code.block) + if init then [] else [OP_LOAD_REG, Low(valueReg), OP_NULL]
    {
      hide SymsOk;
      assert VarEntry(name, scope) in varLocations <==> name in syms[scope] by {
        assert EntryAt(varLocations, VarEntry(name, scope)) ==> VarAt(syms, scope, name);
        assert VarAt(syms, scope, name) ==> VarEntry(name, scope) in varLocations;
      }
      if VarEntry(name, scope) in varLocations {
        hitError := true;
        return;
      }
      DefVar(name, valueReg, !fix);
      if !init { code.LoadReg(valueReg, OP_NULL); }
    }

    /** Initialisers go into successive registers. */
    method CompileValues(es: seq<Expr>)
      requires Valid() && !hitError
      modifies `nextReg, `hitError, code
      ensures hitError == !(forall x | x in es :: ScopedExpr(x, Access(syms)))
      ensures !hitError ==>
                && Valid() && nextReg == old(nextReg) + |es|
                && code.block == old(code.block) + ValuesCode(es, depth == 0, syms, old(nextReg), |old(code.pool)|)
                && code.pool == old(code.pool) + ListConsts(es)
    {
      hide SymsOk, TablesFor, ValuesLeft, Emitted, ExprCode, ExprConsts;
      ghost var b, p, r := code.block, code.pool, nextReg;
      assert es[0..] == es;
      ValuesStart(es, depth == 0, syms, r, b, p);
      for i := 0 to |es|
        invariant Valid() && !hitError && nextReg == r + i
        invariant forall x | x in es[..i] :: ScopedExpr(x, Access(syms))
        invariant ValuesLeft(es, i, depth == 0, syms, r, code.block, code.pool, b, p)
      {
        ghost var b1, p1 := code.block, code.pool;
        var _ := CompileExpr(es[i]);
        if hitError { return; }
        ValuesStep(es, i, depth == 0, syms, r, b1, p1, code.block, code.pool, b, p);
        assert es[..i + 1] == es[..i] + [es[i]];
      }
      assert es[..|es|] == es;
      ValuesEnd(es, depth == 0, syms, r, code.block, code.pool, b, p);
    }

    /** Names are bound one at a time to the registers of their values. */
    method DefineNames(names: seq<string>, fix: bool, init: bool, start: nat)
      requires Valid() && !hitError && SymsOk(syms, start)
      modifies `varLocations, `varAccess, `varScopes, `syms, `hitError, code`block
      ensures hitError == !(Distinct(names) && forall n | n in names :: n !in old(syms)[scope])
      ensures !hitError ==>
                && TablesFor(syms, varLocations, varAccess, varScopes) && SymsOk(syms, start + |names|)
                && syms == old(syms)[scope := BindSyms(old(syms)[scope], names, start, !fix)]
                && code.block == old(code.block) + if init then [] else NullsCode(start, |names|)
    {
      hide SymsOk, TablesFor, Fresh, NamesLeft, BindSyms, NullsCode;
      ghost var scope0, b := syms[scope], code.block;
      NamesStart(names, fix, init, start, scope0, b);
      assert names[..0] == [];
      FreshMeans([], syms);
      for i := 0 to |names|
        invariant TablesFor(syms, varLocations, varAccess, varScopes) && |syms| == scope + 1 && SymsOk(syms, start + i)
        invariant !hitError && syms == old(syms)[scope := syms[scope]]
        invariant NamesLeft(names, i, fix, init, start, scope0, b, syms[scope], code.block)
        invariant Fresh(names[..i], old(syms))
      {
        FreshNext(names, i, old(syms));
        NamesStep(names, i, fix, init, start, scope0, b, syms[scope], code.block);
        CompileSingleVarDecl(names[i], fix, init, start + i);
        if hitError { return; }
      }
      assert names[..|names|] == names;
      FreshMeans(names, old(syms));
      NamesEnd(names, fix, init, start, scope0, b, syms[scope], code.block);
    }

    method CompileVarDecl(s: Stmt, ghost inLoop: bool)
      requires Valid() && !hitError && breakLabels.Keys == continueLabels.Keys
      requires s.VarDecl? && InFragment(s, breakLabels.Keys, inLoop)
      modifies this, code
      ensures hitError == !ScopedStmt(s, old(Access(syms)), old(breakLabels.Keys))
      ensures !hitError ==> Valid() && StmtEmitted(s, depth == 0, inLoop, old(Snapshot()), Snapshot())
    {
      hide TablesFor, SymsOk, StmtEmitted, BindSyms, NullsCode, ValuesCode, ListConsts, Distinct, OpenCtx, DeclCode, Access,
        InFragment, ScopedStmt, Code, StmtConsts, After;
      ghost var a := Snapshot();
      DeclStaticParts(s, syms, breakLabels.Keys, inLoop);
      if |s.values| > 1 && |s.names| != |s.values| {
        hitError := true;
        return;
      }
      var valueStart := nextReg;
      CompileValues(s.values);
      if hitError { return; }
      DefineNames(s.names, s.fix, s.values != [], valueStart);
      if hitError { return; }
      code.AddBytes([if s.fix then OP_FIX else OP_VAR, Low(valueStart), Low(|s.names|)]);
      nextReg := valueStart + |s.names|;
      DeclBytes(s, depth == 0, a.st, a.block);
      DeclParts(s, depth == 0, a.st, OpenCtx(breakLabels.Keys, inLoop));
      PlainDone(s, depth == 0, inLoop, a, Snapshot());
    }

    /** A whole script. The chunk is empty exactly when an error was reported, in
        the parser or here. */
    method Compile(program: seq<Stmt>)
      requires Valid() && depth == 0 && breakLabels == continueLabels == map[]
      requires forall x | x in program :: InFragment(x, {}, false)
      modifies this, code
      ensures hitError == (old(hitError) || !ScopedAll(program, old(Access(syms)), {}))
      ensures hitError ==> code.block == [] && code.pool == []
      ensures !hitError ==>
                var st := CState(old(syms), old(nextReg), old(scopeStart), 0);
                && Program(code.block, code.pool) == Script(program, st, [])
                && Valid() && Snapshot().st == AfterAll(program, st)
    {
      hide TablesFor, SymsOk, Access, InFragment, ScopedStmt, AllEmitted;
      code.Clear();
      ghost var a := Snapshot();
      assert breakLabels.Keys == {};
      if !hitError { CompileAll(program, false); }
      if hitError {
        code.Clear();
        return;
      }
      ScriptEmitted(program, a, Snapshot());
      code.AddByte(OP_HALT);
    }
  }

  lemma AccessSame(syms: Syms, name: string)
    ensures Declared(Access(syms), name) == (Innermost(syms, name) >= 0)
    ensures Innermost(syms, name) >= 0 ==> Assignable(Access(syms), name) == syms[Innermost(syms, name)][name].isVar
  {
    assert SameNames(syms, Access(syms)) by {
      forall k | 0 <= k < |syms| ensures syms[k].Keys == Access(syms)[k].Keys {}
    }
    InnermostSame(syms, Access(syms), name);
  }
}
