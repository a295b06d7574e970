/** Which instruction the compiler chooses where several would do: the access to a variable
    belongs to the kind of address its name is resolved to (src/compiler.cpp:
    emitVariableOp), and constants are loaded in the shortest way (src/bytecode.cpp:
    loadRegConst). */
module CodeLaws {
  import opened Arithmetic
  import opened Words
  import opened Opcodes
  import opened Syntax
  import opened Source
  import opened Codegen
  import opened StmtCode
  import F = CacheFormat
  import E = ExprCorrect
  import R = Resolve

  /** The symbol table as name resolution sees it. */
  function Registers(syms: Syms): (vars: seq<map<string, nat>>)
    ensures |vars| == |syms|
  {
    seq(|syms|, k requires 0 <= k < |syms| => map n | n in syms[k] :: syms[k][n].reg)
  }

  /** The address of a name in a script, when nothing is `outer`, or in a function. */
  function Address(outer: seq<R.Frame>, syms: Syms, name: string, inModule: bool): R.VarInfo {
    R.ResolveName(outer + [R.Frame(Registers(syms), [], map[])], name, inModule).1
  }

  lemma OwnAddress(outer: seq<R.Frame>, syms: Syms, name: string, inModule: bool)
    requires Innermost(syms, name) >= 0
    ensures var k := Innermost(syms, name);
            Address(outer, syms, name, inModule)
            == R.Found(syms[k][name].reg, if outer == [] && k == 0 then R.Global else R.Local)
  {
    var vars, f := Registers(syms), R.Frame(Registers(syms), [], map[]);
    assert E.SameNames(syms, vars) by {
      forall k | 0 <= k < |syms| ensures syms[k].Keys == vars[k].Keys {}
    }
    E.InnermostSame(syms, vars, name);
    R.ResolveStep(outer + [f], name, inModule);
    assert R.Last(outer + [f]) == f;
  }

  /** A declared variable is read from its register, with GET_GLOBAL if its address is
      global and with GET_LOCAL if it is local. */
  lemma ReadAgrees(outer: seq<R.Frame>, syms: Syms, name: string, inModule: bool, r: nat, p: nat)
    requires Innermost(syms, name) >= 0
    ensures var info := Address(outer, syms, name, inModule);
            info.Found? &&
            ExprCode(Var(name), outer == [], syms, r, p)
            == [if info.varType.Global? then OP_GET_GLOBAL else OP_GET_LOCAL, Low(r), Low(info.slot)]
  {
    OwnAddress(outer, syms, name, inModule);
  }

  /** Assignments likewise, with the registers the other way round. */
  lemma AssignAgrees(outer: seq<R.Frame>, syms: Syms, name: string, value: Expr, inModule: bool, r: nat, p: nat)
    requires Innermost(syms, name) >= 0
    ensures var info := Address(outer, syms, name, inModule);
            info.Found? &&
            ExprCode(Assign(name, value), outer == [], syms, r, p)
            == ExprCode(value, outer == [], syms, r, p)
               + [if info.varType.Global? then OP_SET_GLOBAL else OP_SET_LOCAL, Low(info.slot), Low(r)]
  {
    OwnAddress(outer, syms, name, inModule);
  }

  /* Constants. */

  /** An integer with an operand code of its own needs no place in the pool. */
  lemma ImmediateExact(i: i64, r: nat, p: nat)
    ensures var c := ExprCode(IntLit(i), true, [], r, p);
            && c[..2] == [OP_LOAD_REG, Low(r)]
            && (-2 <= i <= 2 ==>
                  c[2..] == [[OP_NEG_TWO, OP_NEG_ONE, OP_ZERO, OP_ONE, OP_TWO][i + 2]] && ExprConsts(IntLit(i)) == [])
            && (!(-2 <= i <= 2) ==> c[2..] == Operand(p) && |ExprConsts(IntLit(i))| == 1)
  {
  }

  /** A place in the pool takes one, two or four bytes, the fewest that hold it, most
      significant first. */
  lemma OperandExact(index: nat)
    requires index < 0x1_0000_0000
    ensures var c := Operand(index);
            && c[0] == (if |c| == 2 then OP_BYTE_OPER else if |c| == 3 then OP_SHORT_OPER else OP_LONG_OPER)
            && (|c| == 2 <==> index < 0x100) && (|c| <= 3 <==> index < 0x1_0000) && |c| in {2, 3, 5}
            && F.FromBytes(c[1..]) == index
  {
    var c := Operand(index);
    var s := c[1..];
    if index < 0x100 {
      assert s == [] + [Low(index)];
      BytesOne(s);
    } else if index < 0x1_0000 {
      assert s == Short(index);
      BytesTwo(s);
    } else {
      assert s == Short(index / 0x1_0000) + Short(index);
      assert s[..2] == Short(index / 0x1_0000) && s[..3] == s[..2] + [Low(index / 0x100)];
      BytesFour(s);
      LongParts(index);
    }
  }

  lemma BytesOne(s: seq<u8>)
    requires |s| == 1
    ensures F.FromBytes(s) == s[0]
  {
    assert s[..0] == [];
  }

  lemma BytesTwo(s: seq<u8>)
    requires |s| == 2
    ensures F.FromBytes(s) == 0x100 * s[0] as int + s[1] as int
  {
    BytesOne(s[..1]);
  }

  lemma BytesFour(s: seq<u8>)
    requires |s| == 4
    ensures F.FromBytes(s) == ((s[0] as int * 0x100 + s[1] as int) * 0x100 + s[2] as int) * 0x100 + s[3] as int
  {
    BytesTwo(s[..2]);
    assert s[..3][..2] == s[..2];
  }

  lemma LongParts(x: nat)
    requires x < 0x1_0000_0000
    ensures ((Low(x / 0x1_0000 / 0x100) * 0x100 + Low(x / 0x1_0000)) * 0x100 + Low(x / 0x100)) * 0x100 + Low(x) == x
  {
    assert x / 0x1_0000 == x / 0x100 / 0x100;
  }

  /** The distance of a jump, likewise. */
  lemma DistanceExact(d: nat)
    requires d <= BYTE_JUMP_MAX
    ensures |JumpField(d)| == 2 && F.FromBytes(JumpField(d)) == d
  {
    BytesTwo(JumpField(d));
  }

  /* List literals. */

  /** Entries go into successive registers until there are 50, which are then appended. */
  lemma {:induction false} FullGroup(a: seq<Expr>, b: seq<Expr>, top: bool, syms: Syms, r: nat, count: nat, p: nat)
    requires a != [] && count + |a| == 50
    ensures ListCode(a + b, top, syms, r, count, p)
         == ValuesCode(a, top, syms, r + 1 + count, p)
            + (ExtendList(r, 50) + ListCode(b, top, syms, r, 0, p + |ListConsts(a)|))
    decreases a
  {
    hide ExprCode, ExprConsts;
    var p1 := p + |ExprConsts(a[0])|;
    assert (a + b)[0] == a[0] && (a + b)[1..] == a[1..] + b;
    if |a| == 1 {
      assert a[1..] + b == b && a[1..] == [];
      assert ListConsts(a) == ExprConsts(a[0]) + [] == ExprConsts(a[0]);
    } else {
      FullGroup(a[1..], b, top, syms, r, count + 1, p1);
    }
  }

  /** Fewer are appended together at the end. */
  lemma {:induction false} LastGroup(es: seq<Expr>, top: bool, syms: Syms, r: nat, count: nat, p: nat)
    requires count + |es| < 50
    ensures ListCode(es, top, syms, r, count, p)
         == ValuesCode(es, top, syms, r + 1 + count, p) + if count + |es| > 0 then ExtendList(r, count + |es|) else []
    decreases es
  {
    hide ExprCode, ExprConsts;
    if es != [] { LastGroup(es[1..], top, syms, r, count + 1, p + |ExprConsts(es[0])|); }
  }
}
