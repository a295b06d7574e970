/** The bytes of `for` loops (src/compiler.cpp: forLoopHelper and the loop statement),
    around the code of their parts: the instruction that updates the iterator jumps back
    to the start of the loop, and all jumps land on instructions. */
module ForLoop {
  import opened Words
  import opened Opcodes
  import opened Syntax
  import opened Codegen
  import opened StmtCode
  import opened Instructions
  import opened WellFormed

  /** What happens to the element in front of the body. */
  function Head(varReg: u8, count: u8, fix: bool, unpackLast: u8, ignore: u8): Bytes {
    (if count > 1 then [OP_UNPACK, varReg, count, unpackLast, ignore] else [])
    + (if fix then [OP_FIX, varReg, count] else [])
  }

  /** One round: the `where` clause, whose value is in register `r`, skips the rest. */
  function Round(whereCode: Option<Bytes>, r: nat, head: Bytes, body: Bytes): Bytes {
    match whereCode
    case None => head + body
    case Some(wc) => wc + (BranchCode(OP_JUMP_FALSE, r, |head + body|) + (head + body))
  }

  /** Back over `n` bytes and itself; the distance is not patched in but computed. */
  function UpdateCode(varReg: u8, iterReg: u8, n: nat): Bytes {
    [OP_UPDATE_ITER, varReg, iterReg, Low((n + 5) / 0x100), Low(n + 5)]
  }

  function ForCode(varReg: u8, iterReg: u8, round: Bytes, els: Bytes): Bytes {
    [OP_MAKE_ITER, varReg, iterReg]
    + (JumpCode(|round| + 5) + (round + (UpdateCode(varReg, iterReg, |round|) + els)))
  }

  lemma HeadPiece(varReg: u8, count: u8, fix: bool, unpackLast: u8, ignore: u8)
    ensures Piece(Head(varReg, count, fix, unpackLast, ignore), {}, {})
  {
    hide Piece;
    Nothing();
    if count > 1 { UnpackPiece(varReg, count, unpackLast, ignore); }
    if fix { Plain3(OP_FIX, varReg, count); }
    JoinClosed(if count > 1 then [OP_UNPACK, varReg, count, unpackLast, ignore] else [],
               if fix then [OP_FIX, varReg, count] else []);
  }

  lemma UnpackPiece(varReg: u8, count: u8, unpackLast: u8, ignore: u8)
    ensures Piece([OP_UNPACK, varReg, count, unpackLast, ignore], {}, {})
  {
    One([OP_UNPACK, varReg, count, unpackLast, ignore]);
  }

  /** When an iterator was made, the jump behind the instruction is skipped. */
  lemma MakePiece(varReg: u8, iterReg: u8)
    ensures Piece([OP_MAKE_ITER, varReg, iterReg], {}, {3})
  {
    var c := [OP_MAKE_ITER, varReg, iterReg];
    JustOne(c);
    ForwardLands(c, 3);
    OneJump(c, 6, {}, {3});
  }

  lemma UpdatePiece(varReg: u8, iterReg: u8, n: nat)
    requires n + 5 <= BYTE_JUMP_MAX
    ensures Piece(UpdateCode(varReg, iterReg, n), {n}, {}) && Length(UpdateCode(varReg, iterReg, n)) == 5
    ensures forall at: int :: Jump(UpdateCode(varReg, iterReg, n), at) == {at - n}
  {
    var c := UpdateCode(varReg, iterReg, n);
    ShortValue(n + 5);
    JustOne(c);
    OneJump(c, 0 - n as int, {n}, {});
  }

  /** The rest of a loop from a round on. */
  lemma RoundPiece(whereCode: Option<Bytes>, r: nat, head: Bytes, body: Bytes, mid: set<nat>, rest: Bytes, ahead: set<nat>)
    requires Piece(head, {}, {}) && Piece(body, {}, mid) && (whereCode.Some? ==> Piece(whereCode.value, {}, {}))
    requires Piece(rest, {|Round(whereCode, r, head, body)|}, ahead) && Meets(body, mid, rest, ahead)
    ensures Piece(Round(whereCode, r, head, body) + rest, {0}, ahead)
    ensures Boundary(Round(whereCode, r, head, body) + rest, |Round(whereCode, r, head, body)|)
  {
    hide Piece, Boundary, BranchCode;
    var n := |Round(whereCode, r, head, body)|;
    SizeOfJumps(0, OP_JUMP_FALSE, r, |head + body|);
    JoinLoop(body, mid, rest, n, ahead);
    JoinLoop(head, {}, body + rest, n - |body|, ahead);
    assert head + (body + rest) == (head + body) + rest;
    HeadBody(head, body, mid);
    BodyThen(head + body, mid, rest, {n}, ahead);
    if whereCode.Some? {
      var wc, branch, all := whereCode.value, BranchCode(OP_JUMP_FALSE, r, |head + body|), (head + body) + rest;
      BranchPiece(OP_JUMP_FALSE, r, |head + body|);
      OverPart(branch, |head + body|, all, ahead);
      JoinLoop(branch, {|head + body|}, all, n - |head + body|, ahead);
      JoinLoop(wc, {}, branch + all, |wc|, ahead);
      assert wc + (branch + all) == Round(whereCode, r, head, body) + rest;
      BranchThen(wc, branch, all, |head + body|);
    } else {
      assert (head + body) + rest == Round(whereCode, r, head, body) + rest;
    }
  }

  lemma HeadBody(head: Bytes, body: Bytes, mid: set<nat>)
    requires Piece(head, {}, {}) && Piece(body, {}, mid)
    ensures Whole(head + body)
  {
    WholeJoin(head, body);
  }

  lemma BodyThen(a: Bytes, mid: set<nat>, rest: Bytes, back: set<nat>, ahead: set<nat>)
    requires Whole(a) && Piece(rest, back, ahead)
    ensures Boundary(a + rest, |a|)
  {
    WholeOf(rest, back, ahead);
    BoundaryLow(rest, 0);
    BoundarySecond(a, rest, 0);
  }

  lemma OverPart(a: Bytes, d: nat, b: Bytes, ahead: set<nat>)
    requires d <= |b| && Boundary(b, d)
    ensures Meets(a, {d}, b, ahead)
  {
  }

  lemma BranchThen(wc: Bytes, branch: Bytes, all: Bytes, d: nat)
    requires Piece(wc, {}, {}) && Piece(branch, {}, {d}) && Boundary(all, d)
    ensures Boundary(wc + (branch + all), |wc| + (|branch| + d))
  {
    hide Piece, Boundary;
    WholeOf(wc, {}, {});
    WholeOf(branch, {}, {d});
    BoundarySecond(branch, all, d);
    BoundarySecond(wc, branch + all, |branch| + d);
  }

  /** The code of a `for` loop is whole instructions. Its first round starts behind the
      two instructions that make the iterator; that is where the update jumps to. */
  lemma ForPiece(varReg: u8, iterReg: u8, whereCode: Option<Bytes>, r: nat, head: Bytes, body: Bytes, els: Bytes, K: Ctx,
                 tag: Option<string>)
    requires Piece(head, {}, {}) && (whereCode.Some? ==> Piece(whereCode.value, {}, {}))
    requires Piece(body, {}, Dists(BodyCtx(K, tag, 5 + |els|))) && Piece(els, {}, Dists(ElseCtx(K, tag)))
    requires |Round(whereCode, r, head, body)| + 5 <= BYTE_JUMP_MAX
    ensures var round := Round(whereCode, r, head, body);
            var c := ForCode(varReg, iterReg, round, els);
            && Piece(c, {}, Dists(K)) && Boundary(c, 6) && Boundary(c, 6 + |round|)
            && Length(c[6 + |round|..]) == 5 && Jump(c[6 + |round|..], 6 + |round|) == {6}
  {
    hide Piece, Dists, Boundary, JumpCode, BodyCtx, ElseCtx, UpdateCode, Round, Meets, Length, Jump;
    var round := Round(whereCode, r, head, body);
    var update, ahead := UpdateCode(varReg, iterReg, |round|), Dists(K) + {0};
    var rest := update + els;
    UpdatePiece(varReg, iterReg, |round|);
    UpdateSize(varReg, iterReg, |round|);
    forall d | d in Dists(ElseCtx(K, tag)) ensures d in ahead {
      ElseDist(K, tag, d);
    }
    Widen(els, {}, Dists(ElseCtx(K, tag)), {}, ahead);
    LoopThen(update, |round|, els, ahead);
    BodyMeets(body, K, tag, rest, |round|, ahead);
    RoundPiece(whereCode, r, head, body, Dists(BodyCtx(K, tag, |rest|)), rest, ahead);
    FrontPiece(varReg, iterReg, round, update, els, ahead);
    DropZero(ForCode(varReg, iterReg, round, els), Dists(K));
    UpdateFound(varReg, iterReg, round, els);
  }

  lemma UpdateSize(varReg: u8, iterReg: u8, n: nat)
    ensures |UpdateCode(varReg, iterReg, n)| == 5
  {
  }

  lemma UpdateFound(varReg: u8, iterReg: u8, round: Bytes, els: Bytes)
    requires |round| + 5 <= BYTE_JUMP_MAX
    ensures var c := ForCode(varReg, iterReg, round, els);
            Length(c[6 + |round|..]) == 5 && Jump(c[6 + |round|..], 6 + |round|) == {6}
  {
    hide Length, Jump, UpdateCode;
    var c, update := ForCode(varReg, iterReg, round, els), UpdateCode(varReg, iterReg, |round|);
    assert |JumpCode(|round| + 5)| == 3;
    assert c == ([OP_MAKE_ITER, varReg, iterReg] + JumpCode(|round| + 5) + round) + (update + els);
    assert c[6 + |round|..] == update + els;
    UpdatePiece(varReg, iterReg, |round|);
    LengthLocal(update, els);
    JumpJoin(update, els, 6 + |round|);
  }

  /** MAKE_ITER, and the jump to the else clause for values that cannot be iterated. */
  lemma FrontPiece(varReg: u8, iterReg: u8, round: Bytes, update: Bytes, els: Bytes, ahead: set<nat>)
    requires |update| == 5 && update == UpdateCode(varReg, iterReg, |round|) && Length(update) == 5
    requires Piece(round + (update + els), {0}, ahead) && Boundary(round + (update + els), |round|)
    ensures var c := ForCode(varReg, iterReg, round, els);
            Piece(c, {}, ahead) && Boundary(c, 6) && Boundary(c, 6 + |round|)
  {
    hide Piece, Boundary, UpdateCode, Length, Meets;
    var d, all := |round| + 5, round + (update + els);
    var make, jump := [OP_MAKE_ITER, varReg, iterReg], JumpCode(d);
    NoBack(all, ahead);
    JumpPiece(d);
    MakePiece(varReg, iterReg);
    assert Boundary(all, d) by {
      NextBoundaryAfter(round, update, els);
    }
    SkipPart(jump, d, all, ahead);
    WholeEnds(all, {}, ahead);
    WholeOf(jump, {}, {d});
    WholeOf(make, {}, {3});
    assert |jump| == 3 && |make| == 3;
    BoundarySecond(jump, all, 0);
    BoundarySecond(jump, all, |round|);
    SkipPart(make, 3, jump + all, ahead);
    BoundarySecond(make, jump + all, 3);
    BoundarySecond(make, jump + all, 3 + |round|);
  }

  lemma NoBack(c: Bytes, ahead: set<nat>)
    requires Piece(c, {0}, ahead)
    ensures Piece(c, {}, ahead)
  {
    hide Whole, Targets, Boundary;
    forall x | x in Targets(c, 0) ensures Lands(c, {}, ahead, x) {
      assert Lands(c, {0}, ahead, x);
    }
  }

  lemma NextBoundaryAfter(a: Bytes, b: Bytes, c: Bytes)
    requires Boundary(a + (b + c), |a|) && Length(b) == |b| > 0
    ensures Boundary(a + (b + c), |a| + |b|)
  {
    hide Length, Boundary;
    LengthLocal(b, c);
    StepBoundary(a + (b + c), |a|);
    assert (a + (b + c))[|a|..] == b + c;
  }

  /** Behind an instruction is a boundary. */
  lemma {:induction false} StepBoundary(c: Bytes, k: int)
    requires Boundary(c, k) && 0 <= k < |c| && Length(c[k..]) > 0
    ensures Boundary(c, k + Length(c[k..]))
    decreases |c|
  {
    hide Length;
    if k == 0 {
      assert c[0..] == c;
      assert Boundary(Rest(c), 0);
    } else {
      var n := Length(c);
      BoundaryLow(Rest(c), k - n);
      LengthFits(c);
      assert Rest(c)[k - n..] == c[k..];
      StepBoundary(Rest(c), k - n);
    }
  }

  /** The whole statement: the iterated value is computed in a scope of its own. */
  lemma ForStmtPiece(s: nat, ic: Bytes, varReg: u8, iterReg: u8, whereCode: Option<Bytes>, r: nat, head: Bytes, body: Bytes,
                     els: Bytes, K: Ctx, tag: Option<string>)
    requires Piece(ic, {}, {}) && Piece(head, {}, {}) && (whereCode.Some? ==> Piece(whereCode.value, {}, {}))
    requires Piece(body, {}, Dists(BodyCtx(Shift(K, 1), tag, 5 + |els|))) && Piece(els, {}, Dists(ElseCtx(Shift(K, 1), tag)))
    requires |Round(whereCode, r, head, body)| + 5 <= BYTE_JUMP_MAX
    ensures Piece(BlockCode(s, ic + ForCode(varReg, iterReg, Round(whereCode, r, head, body), els)), {}, Dists(K))
  {
    hide Piece, Dists, Boundary, Shift, BodyCtx, ElseCtx, ForCode, Round, Length, Jump;
    var c := ForCode(varReg, iterReg, Round(whereCode, r, head, body), els);
    ForPiece(varReg, iterReg, whereCode, r, head, body, els, Shift(K, 1), tag);
    Before(ic, c, Dists(Shift(K, 1)));
    BlockPiece(s, ic + c, K);
  }
}
