/** How the pieces the compiler appends and patches make up the bytes of a
    statement, and which jumps it leaves unpatched. */
module StmtEmission {
  import opened Words
  import opened Opcodes
  import opened Syntax
  import opened Values
  import opened Source
  import opened Codegen
  import opened ExprCorrect
  import opened StmtCode
  import opened Chunk
  import opened Holes
  import opened Emission

  /** The vectors and label tables of unpatched jumps. */
  datatype Jumps = Jumps(breaks: seq<nat>, continues: seq<nat>,
                         breakLabels: map<string, seq<nat>>, continueLabels: map<string, seq<nat>>)

  /** What the methods of the compiler change, as one value. */
  datatype Snap = Snap(st: CState, jumps: Jumps, block: seq<u8>, pool: seq<Value>)

  function Labelled(table: map<string, seq<nat>>, name: string): seq<nat> {
    if name in table then table[name] else []
  }

  /** The jumps to `t` that still have holes. */
  function Pending(J: Jumps, t: Target): seq<nat> {
    match t
    case Exit(tag) => if tag.None? then J.breaks else Labelled(J.breakLabels, tag.value)
    case Again(tag) => if tag.None? then J.continues else Labelled(J.continueLabels, tag.value)
  }

  predicate TargetIn(t: Target, labels: set<string>, inLoop: bool) {
    if t.tag.None? then inLoop else t.tag.value in labels
  }

  /** While a loop is being compiled none of its jumps is patched yet. */
  function OpenCtx(labels: set<string>, inLoop: bool): (K: Ctx)
    ensures forall t :: t in K <==> TargetIn(t, labels, inLoop)
    ensures forall t | t in K :: K[t] == Open
  {
    var ts := (if inLoop then {Exit(None), Again(None)} else {})
              + (set l | l in labels :: Exit(Some(l))) + (set l | l in labels :: Again(Some(l)));
    map t | t in ts :: Open
  }

  ghost predicate Recorded(J: Jumps, J': Jumps, t: Target, holes: seq<nat>, base: nat) {
    Pending(J', t) == Pending(J, t) + Offset(holes, base)
  }

  ghost predicate SameLabels(J: Jumps, labels: set<string>) {
    J.breakLabels.Keys == labels && J.continueLabels.Keys == labels
  }

  /** Compiling `s` from `a` on ends in `z`: its bytes and constants are appended,
      with every jump out of `s` a recorded hole. */
  ghost predicate StmtEmitted(s: Stmt, top: bool, inLoop: bool, a: Snap, z: Snap) {
    var labels := a.jumps.breakLabels.Keys;
    var K := OpenCtx(labels, inLoop);
    && z.block == a.block + Code(top, s, a.st, K)
    && z.pool == a.pool + StmtConsts(s)
    && z.st == After(s, a.st)
    && SameLabels(z.jumps, labels)
    && forall t {:trigger Pending(z.jumps, t)} | t in K ::
         Recorded(a.jumps, z.jumps, t, HolesOf(top, s, a.st, K, t), |a.block|)
  }

  ghost predicate AllEmitted(ss: seq<Stmt>, top: bool, inLoop: bool, a: Snap, z: Snap) {
    var labels := a.jumps.breakLabels.Keys;
    var K := OpenCtx(labels, inLoop);
    && z.block == a.block + CodeAll(top, ss, a.st, K)
    && z.pool == a.pool + StmtsConsts(ss)
    && z.st == AfterAll(ss, a.st)
    && SameLabels(z.jumps, labels)
    && forall t {:trigger Pending(z.jumps, t)} | t in K ::
         Recorded(a.jumps, z.jumps, t, HolesOfAll(top, ss, a.st, K, t), |a.block|)
  }

  lemma ShiftOpen(labels: set<string>, inLoop: bool, n: nat)
    ensures Shift(OpenCtx(labels, inLoop), n) == OpenCtx(labels, inLoop)
  {
  }

  lemma HolesJoin(P: seq<nat>, h1: seq<nat>, o1: nat, h2: seq<nat>, o2: nat, n: nat)
    ensures P + Offset(h1, o1 + n) + Offset(h2, o2 + n) == P + Offset(Two(h1, o1, h2, o2), n)
  {
    OffsetTwice(h1, o1, n);
    OffsetTwice(h2, o2, n);
    OffsetJoin(Offset(h1, o1), Offset(h2, o2), n);
  }

  lemma NoneRecorded(J: Jumps, base: nat)
    ensures forall t :: Recorded(J, J, t, [], base)
  {
    assert Offset([], base) == [];
  }

  /* Statements without jumps of their own. */

  lemma PlainDone(s: Stmt, top: bool, inLoop: bool, a: Snap, z: Snap)
    requires s.Empty? || s.ExprStmt? || s.VarDecl?
    requires SameLabels(a.jumps, a.jumps.breakLabels.Keys) && z.jumps == a.jumps
    requires z.block == a.block + Code(top, s, a.st, OpenCtx(a.jumps.breakLabels.Keys, inLoop))
    requires z.pool == a.pool + StmtConsts(s) && z.st == After(s, a.st)
    ensures StmtEmitted(s, top, inLoop, a, z)
  {
    hide Code, After, StmtConsts, Pending, OpenCtx, Offset;
    var K := OpenCtx(a.jumps.breakLabels.Keys, inLoop);
    NoneRecorded(a.jumps, |a.block|);
    forall t | t in K ensures Recorded(a.jumps, z.jumps, t, HolesOf(top, s, a.st, K, t), |a.block|) {
      assert Recorded(a.jumps, a.jumps, t, [], |a.block|);
    }
  }

  lemma ExprStmtDone(e: Expr, top: bool, inLoop: bool, a: Snap, z: Snap)
    requires SameLabels(a.jumps, a.jumps.breakLabels.Keys) && a.st.pool == |a.pool|
    requires Emitted(e, top, a.st.syms, a.st.nextReg, a.block, a.pool, z.block, z.pool)
    requires z.st == a.st.(pool := |z.pool|) && z.jumps == a.jumps
    ensures StmtEmitted(ExprStmt(e), top, inLoop, a, z)
  {
    hide ExprCode, ExprConsts, StmtEmitted, OpenCtx;
    PlainDone(ExprStmt(e), top, inLoop, a, z);
  }

  lemma EmptyDone(top: bool, inLoop: bool, a: Snap)
    requires SameLabels(a.jumps, a.jumps.breakLabels.Keys)
    ensures StmtEmitted(Empty, top, inLoop, a, a)
  {
    hide StmtEmitted, OpenCtx;
    PlainDone(Empty, top, inLoop, a, a);
  }

  /* Jumps. */

  function Record(J: Jumps, t: Target, hole: nat): Jumps {
    match t
    case Exit(tag) =>
      if tag.None? then J.(breaks := J.breaks + [hole])
      else J.(breakLabels := J.breakLabels[tag.value := Labelled(J.breakLabels, tag.value) + [hole]])
    case Again(tag) =>
      if tag.None? then J.(continues := J.continues + [hole])
      else J.(continueLabels := J.continueLabels[tag.value := Labelled(J.continueLabels, tag.value) + [hole]])
  }

  lemma RecordPending(J: Jumps, t: Target, hole: nat, t': Target)
    ensures Pending(Record(J, t, hole), t') == if t' == t then Pending(J, t) + [hole] else Pending(J, t')
  {
  }

  lemma RecordLabels(J: Jumps, t: Target, hole: nat, labels: set<string>)
    requires SameLabels(J, labels) && (t.tag.Some? ==> t.tag.value in labels)
    ensures SameLabels(Record(J, t, hole), labels)
  {
    assert t.tag.Some? ==> labels + {t.tag.value} == labels;
  }

  lemma JumpDone(s: Stmt, t: Target, top: bool, inLoop: bool, a: Snap, z: Snap)
    requires s == (if t.Exit? then Break(t.tag) else Continue(t.tag))
    requires SameLabels(a.jumps, a.jumps.breakLabels.Keys) && TargetIn(t, a.jumps.breakLabels.Keys, inLoop)
    requires z == Snap(a.st, Record(a.jumps, t, |a.block| + 1), a.block + [OP_JUMP] + [0, 0], a.pool)
    ensures StmtEmitted(s, top, inLoop, a, z)
  {
    hide Offset, OpenCtx, Record, Pending;
    var labels := a.jumps.breakLabels.Keys;
    var K := OpenCtx(labels, inLoop);
    assert Code(top, s, a.st, K) == [OP_JUMP, 0, 0];
    RecordLabels(a.jumps, t, |a.block| + 1, labels);
    forall t' | t' in K
      ensures Recorded(a.jumps, z.jumps, t', HolesOf(top, s, a.st, K, t'), |a.block|)
    {
      RecordPending(a.jumps, t, |a.block| + 1, t');
      NoneRecorded(a.jumps, |a.block|);
      assert Recorded(a.jumps, a.jumps, t', [], |a.block|);
      OneHole(|a.block|);
    }
  }

  lemma OneHole(n: nat)
    ensures Offset([1], n) == [n + 1]
  {
  }

  /* Lists of statements. */

  /** After `i` statements, what is there and what the others will add. */
  ghost predicate ListLeft(ss: seq<Stmt>, i: nat, top: bool, inLoop: bool, a: Snap, m: Snap) {
    var labels := a.jumps.breakLabels.Keys;
    var K := OpenCtx(labels, inLoop);
    i <= |ss|
    && m.block + CodeAll(top, ss[i..], m.st, K) == a.block + CodeAll(top, ss, a.st, K)
    && m.pool + StmtsConsts(ss[i..]) == a.pool + StmtsConsts(ss)
    && AfterAll(ss[i..], m.st) == AfterAll(ss, a.st)
    && SameLabels(m.jumps, labels)
    && forall t {:trigger Pending(m.jumps, t)} | t in K :: HolesLeft(ss, i, top, K, a, m, t)
  }

  ghost predicate HolesLeft(ss: seq<Stmt>, i: nat, top: bool, K: Ctx, a: Snap, m: Snap, t: Target)
    requires i <= |ss|
  {
    Pending(m.jumps, t) + Offset(HolesOfAll(top, ss[i..], m.st, K, t), |m.block|)
    == Pending(a.jumps, t) + Offset(HolesOfAll(top, ss, a.st, K, t), |a.block|)
  }

  lemma ListStart(ss: seq<Stmt>, top: bool, inLoop: bool, a: Snap)
    requires SameLabels(a.jumps, a.jumps.breakLabels.Keys)
    ensures ListLeft(ss, 0, top, inLoop, a, a)
  {
    hide CodeAll, StmtsConsts, AfterAll, HolesOfAll, OpenCtx, Offset, Pending;
    assert ss[0..] == ss;
    forall t | t in OpenCtx(a.jumps.breakLabels.Keys, inLoop)
      ensures HolesLeft(ss, 0, top, OpenCtx(a.jumps.breakLabels.Keys, inLoop), a, a, t)
    {
    }
  }

  lemma ListStep(ss: seq<Stmt>, i: nat, top: bool, inLoop: bool, a: Snap, m: Snap, z: Snap)
    requires i < |ss| && ListLeft(ss, i, top, inLoop, a, m) && StmtEmitted(ss[i], top, inLoop, m, z)
    ensures ListLeft(ss, i + 1, top, inLoop, a, z)
  {
    hide Code, After, StmtConsts, HolesOf, Offset, Shift, OpenCtx, Pending;
    var labels := a.jumps.breakLabels.Keys;
    var K := OpenCtx(labels, inLoop);
    var tail := ss[i..];
    assert tail[0] == ss[i] && tail[1..] == ss[i + 1..];
    var rest := CodeAll(top, tail[1..], z.st, K);
    ShiftOpen(labels, inLoop, |rest|);
    var first := Code(top, tail[0], m.st, K);
    Regroup(m.block, first, rest, []);
    Regroup(m.pool, StmtConsts(tail[0]), StmtsConsts(tail[1..]), []);
    forall t | t in K ensures HolesLeft(ss, i + 1, top, K, a, z, t) {
      assert HolesLeft(ss, i, top, K, a, m, t) by { assert Pending(m.jumps, t) == Pending(m.jumps, t); }
      var h1, h2 := HolesOf(top, tail[0], m.st, K, t), HolesOfAll(top, tail[1..], z.st, K, t);
      assert Recorded(m.jumps, z.jumps, t, h1, |m.block|) by { assert Pending(z.jumps, t) == Pending(z.jumps, t); }
      HolesJoin(Pending(m.jumps, t), h1, 0, h2, |first|, |m.block|);
    }
  }

  lemma ListEnd(ss: seq<Stmt>, top: bool, inLoop: bool, a: Snap, z: Snap)
    requires ListLeft(ss, |ss|, top, inLoop, a, z)
    ensures AllEmitted(ss, top, inLoop, a, z)
  {
    hide Code, After, StmtConsts, HolesOf, OpenCtx, Pending;
    var K := OpenCtx(a.jumps.breakLabels.Keys, inLoop);
    assert ss[|ss|..] == [];
    assert z.block + [] == z.block && z.pool + [] == z.pool;
    forall t | t in K
      ensures Recorded(a.jumps, z.jumps, t, HolesOfAll(top, ss, a.st, K, t), |a.block|)
    {
      assert HolesLeft(ss, |ss|, top, K, a, z, t) by { assert Pending(z.jumps, t) == Pending(z.jumps, t); }
      assert Offset([], |z.block|) == [];
      assert Pending(z.jumps, t) + [] == Pending(z.jumps, t);
    }
  }

  /** `z` is `inner` after popScope. */
  lemma BlockDone(ss: seq<Stmt>, top: bool, inLoop: bool, a: Snap, m: Snap, inner: Snap, z: Snap)
    requires m == a.(st := Enter(a.st), block := a.block + [OP_ENTER_SCOPE, Low(a.st.nextReg)])
    requires AllEmitted(ss, top, inLoop, m, inner)
    requires z == inner.(st := Leave(inner.st), block := inner.block + [OP_EXIT_SCOPE])
    ensures StmtEmitted(Block(ss), top, inLoop, a, z)
  {
    hide CodeAll, AfterAll, StmtsConsts, HolesOfAll, Offset, Shift, OpenCtx, Pending;
    var labels := a.jumps.breakLabels.Keys;
    var K := OpenCtx(labels, inLoop);
    ShiftOpen(labels, inLoop, 1);
    var enter, body := [OP_ENTER_SCOPE, Low(a.st.nextReg)], CodeAll(top, ss, m.st, K);
    Regroup(a.block, enter, body, [OP_EXIT_SCOPE]);
    forall t | t in K
      ensures Recorded(a.jumps, z.jumps, t, HolesOf(top, Block(ss), a.st, K, t), |a.block|)
    {
      var h := HolesOfAll(top, ss, m.st, K, t);
      assert Recorded(m.jumps, inner.jumps, t, h, |m.block|) by { assert Pending(inner.jumps, t) == Pending(z.jumps, t); }
      OffsetTwice(h, 2, |a.block|);
    }
  }

  /* If statements. */

  /** Ready to compile the true branch of `s`. */
  ghost predicate Tested(s: Stmt, top: bool, a: Snap, b1: seq<u8>, m: Snap)
    requires s.If? || s.While?
  {
    && a.st.pool == |a.pool|
    && Emitted(s.cond, top, a.st.syms, a.st.nextReg, a.block, a.pool, b1, m.pool)
    && m.st == AddPool(a.st, ExprConsts(s.cond))
    && m.block == b1 + [OP_JUMP_FALSE, Low(a.st.nextReg)] + [0, 0]
  }

  lemma TestedHere(s: Stmt, top: bool, a: Snap, b1: seq<u8>, m: Snap)
    requires (s.If? || s.While?) && a.st.pool == |a.pool|
    requires Emitted(s.cond, top, a.st.syms, a.st.nextReg, a.block, a.pool, b1, m.pool)
    requires m.st == a.st.(pool := |m.pool|) && m.block == b1 + [OP_JUMP_FALSE, Low(a.st.nextReg)] + [0, 0]
    ensures Tested(s, top, a, b1, m) && |b1| >= |a.block|
  {
  }

  lemma IfDone(s: Stmt, top: bool, inLoop: bool, a: Snap, b1: seq<u8>, m: Snap, m1: Snap, z: Snap)
    requires s.If? && s.els.Empty? && Tested(s, top, a, b1, m) && m.jumps == a.jumps
    requires StmtEmitted(s.thn, top, inLoop, m, m1)
    requires z == m1.(block := Patch(m1.block, |b1| + 2, |m1.block| - |b1| - 4))
    ensures StmtEmitted(s, top, inLoop, a, z)
  {
    hide ExprCode, ExprConsts, After, Offset, Shift, OpenCtx, Pending, Patch, Code, StmtConsts, HolesOf;
    var labels := a.jumps.breakLabels.Keys;
    var K := OpenCtx(labels, inLoop);
    var If(c, thn, els) := s;
    var cc := ExprCode(c, top, a.st.syms, a.st.nextReg, a.st.pool);
    var tc := Code(top, thn, m.st, K);
    IfParts(s, top, a.st, labels, inLoop, m.st, m1.st);
    EmptyParts(els, top, m1.st, K);
    ShortCircuitBytes(a.block, cc, OP_JUMP_FALSE, a.st.nextReg, tc);
    NoElse(cc, a.st.nextReg, els, tc);
    Regroup(a.pool, ExprConsts(c), StmtConsts(thn), []);
    forall t | t in K ensures Recorded(a.jumps, z.jumps, t, HolesOf(top, s, a.st, K, t), |a.block|) {
      var h := HolesOf(top, thn, m.st, K, t);
      assert Recorded(a.jumps, m1.jumps, t, h, |m.block|) by { assert Pending(m1.jumps, t) == Pending(z.jumps, t); }
      IfHoles(s, top, a.st, labels, inLoop, m.st, m1.st, t);
      HolesJoin(Pending(a.jumps, t), h, |cc| + 4, [], |cc| + 4 + |tc| + 3, |a.block|);
      NoneRecorded(m1.jumps, |cc| + 4 + |tc| + 3 + |a.block|);
      assert Recorded(m1.jumps, m1.jumps, t, [], |cc| + 4 + |tc| + 3 + |a.block|);
    }
  }

  lemma EmptyParts(f: Stmt, top: bool, st: CState, K: Ctx)
    requires f.Empty?
    ensures Code(top, f, st, K) == [] && StmtConsts(f) == [] && After(f, st) == st
    ensures forall t :: HolesOf(top, f, st, K, t) == []
  {
  }

  lemma NoElse(cc: seq<u8>, r: nat, f: Stmt, tc: seq<u8>)
    requires f.Empty?
    ensures IfCode(cc, r, f, tc, []) == ShortCircuit(OP_JUMP_FALSE, cc, tc, r)
  {
    assert tc + [] == tc;
  }

  lemma IfElseDone(s: Stmt, top: bool, inLoop: bool, a: Snap, b1: seq<u8>, m: Snap, m1: Snap, f: Snap, f1: Snap, z: Snap)
    requires s.If? && !s.els.Empty? && Tested(s, top, a, b1, m) && m.jumps == a.jumps
    requires StmtEmitted(s.thn, top, inLoop, m, m1)
    requires f == m1.(block := Patch(m1.block + [OP_JUMP] + [0, 0], |b1| + 2, |m1.block| + 3 - (|b1| + 2) - 2))
    requires StmtEmitted(s.els, top, inLoop, f, f1)
    requires z == f1.(block := Patch(f1.block, |m1.block| + 1, |f1.block| - (|m1.block| + 1) - 2))
    ensures StmtEmitted(s, top, inLoop, a, z)
  {
    hide ExprCode, ExprConsts, After, Offset, Shift, OpenCtx, Pending, Patch, Code, StmtConsts, HolesOf;
    var labels := a.jumps.breakLabels.Keys;
    var K := OpenCtx(labels, inLoop);
    var If(c, thn, els) := s;
    var cc := ExprCode(c, top, a.st.syms, a.st.nextReg, a.st.pool);
    var tc, fc := Code(top, thn, m.st, K), Code(top, els, m1.st, K);
    IfParts(s, top, a.st, labels, inLoop, m.st, m1.st);
    IfBytes(a.block, cc, a.st.nextReg, tc, fc, b1, m1.block, f.block, f1.block);
    WithElse(cc, a.st.nextReg, els, tc, fc);
    Regroup(a.pool, ExprConsts(c), StmtConsts(thn), StmtConsts(els));
    forall t | t in K ensures Recorded(a.jumps, z.jumps, t, HolesOf(top, s, a.st, K, t), |a.block|) {
      var h1, h2 := HolesOf(top, thn, m.st, K, t), HolesOf(top, els, m1.st, K, t);
      assert Recorded(a.jumps, m1.jumps, t, h1, |m.block|) by { assert Pending(m1.jumps, t) == Pending(m1.jumps, t); }
      assert Recorded(f.jumps, f1.jumps, t, h2, |f.block|) by { assert Pending(f1.jumps, t) == Pending(z.jumps, t); }
      HolesJoin(Pending(a.jumps, t), h1, |cc| + 4, h2, |cc| + 4 + |tc| + 3, |a.block|);
      IfHoles(s, top, a.st, labels, inLoop, m.st, m1.st, t);
    }
  }

  lemma WithElse(cc: seq<u8>, r: nat, f: Stmt, tc: seq<u8>, fc: seq<u8>)
    requires !f.Empty?
    ensures IfCode(cc, r, f, tc, fc) == cc + (BranchCode(OP_JUMP_FALSE, r, |tc| + 3) + (tc + (JumpCode(|fc|) + fc)))
  {
  }

  /** An if statement compiled with all its jumps open. */
  lemma IfParts(s: Stmt, top: bool, st: CState, labels: set<string>, inLoop: bool, st1: CState, st2: CState)
    requires s.If? && st1 == AddPool(st, ExprConsts(s.cond)) && st2 == After(s.thn, st1)
    ensures var K := OpenCtx(labels, inLoop);
            Code(top, s, st, K) == IfCode(ExprCode(s.cond, top, st.syms, st.nextReg, st.pool), st.nextReg, s.els,
                                          Code(top, s.thn, st1, K), Code(top, s.els, st2, K))
    ensures StmtConsts(s) == ExprConsts(s.cond) + (StmtConsts(s.thn) + StmtConsts(s.els))
    ensures After(s, st) == After(s.els, st2)
  {
    hide ExprCode, ExprConsts, Shift, OpenCtx, IfCode;
    var K := OpenCtx(labels, inLoop);
    ShiftOpen(labels, inLoop, |ElseTail(s.els, Code(top, s.els, st2, K))|);
  }

  lemma IfHoles(s: Stmt, top: bool, st: CState, labels: set<string>, inLoop: bool, st1: CState, st2: CState, t: Target)
    requires s.If? && st1 == AddPool(st, ExprConsts(s.cond)) && st2 == After(s.thn, st1)
    ensures var K := OpenCtx(labels, inLoop);
            var o := |ExprCode(s.cond, top, st.syms, st.nextReg, st.pool)| + 4;
            HolesOf(top, s, st, K, t) == Two(HolesOf(top, s.thn, st1, K, t), o, HolesOf(top, s.els, st2, K, t),
                                             o + |Code(top, s.thn, st1, K)| + 3)
  {
    hide ExprCode, ExprConsts, Shift, OpenCtx, Code, HolesOf, Two;
    var K := OpenCtx(labels, inLoop);
    IfHolesOf(s, top, st, K, st1, st2, t);
    ShiftOpen(labels, inLoop, |ElseTail(s.els, Code(top, s.els, st2, K))|);
  }

  lemma IfHolesOf(s: Stmt, top: bool, st: CState, K: Ctx, st1: CState, st2: CState, t: Target)
    requires s.If? && st1 == AddPool(st, ExprConsts(s.cond)) && st2 == After(s.thn, st1)
    ensures var tK := Shift(K, |ElseTail(s.els, Code(top, s.els, st2, K))|);
            var o := |ExprCode(s.cond, top, st.syms, st.nextReg, st.pool)| + 4;
            HolesOf(top, s, st, K, t) == Two(HolesOf(top, s.thn, st1, tK, t), o, HolesOf(top, s.els, st2, K, t),
                                             o + |Code(top, s.thn, st1, tK)| + 3)
  {
    hide ExprCode, ExprConsts, Shift, Code, Two;
  }

  lemma EmittedFacts(s: Stmt, top: bool, inLoop: bool, a: Snap, z: Snap)
    requires StmtEmitted(s, top, inLoop, a, z)
    ensures |z.block| >= |a.block| && SameLabels(z.jumps, a.jumps.breakLabels.Keys) && z.st == After(s, a.st)
  {
    hide Code, StmtConsts, After, HolesOf, OpenCtx, Pending;
  }

  lemma {:induction false} FragmentMore(s: Stmt, tags: set<string>, inLoop: bool)
    requires InFragment(s, tags, inLoop)
    ensures InFragment(s, tags, true)
    decreases s
  {
    match s
    case Block(ss) => forall x | x in ss ensures InFragment(x, tags, true) { FragmentMore(x, tags, inLoop); }
    case If(_, t, f) =>
      FragmentMore(t, tags, inLoop);
      FragmentMore(f, tags, inLoop);
    case While(_, tag, _, els) => FragmentMore(els, if tag.Some? then tags + {tag.value} else tags, inLoop);
    case _ =>
  }
}
