/** Labels of loops (src/compiler.cpp: the loop statements and patchLoopLabelJumps). One
    table for the whole function holds the jumps to each label: a loop adds an empty
    entry, looks it up twice to patch, and removes it. */
module Labels {
  import opened Syntax
  import opened Source

  function Added(labels: set<string>, tag: Option<string>): set<string> {
    if tag.Some? then labels + {tag.value} else labels
  }

  function Removed(labels: set<string>, tag: Option<string>): set<string> {
    if tag.Some? then labels - {tag.value} else labels
  }

  /** The labels in the table after a statement. */
  function TableAfter(s: Stmt, labels: set<string>): set<string>
    decreases s
  {
    match s
    case Block(ss) => TableAfterAll(ss, labels)
    case If(_, t, f) => TableAfter(f, TableAfter(t, labels))
    case While(_, tag, body, els) => Removed(TableAfter(els, TableAfter(body, Added(labels, tag))), tag)
    case Repeat(body, _, tag) => Removed(TableAfter(body, Added(labels, tag)), tag)
    case _ => labels
  }

  function TableAfterAll(ss: seq<Stmt>, labels: set<string>): set<string>
    decreases ss
  {
    if ss == [] then labels else TableAfterAll(ss[1..], TableAfter(ss[0], labels))
  }

  predicate Holds(labels: set<string>, tag: Option<string>) {
    tag.Some? ==> tag.value in labels
  }

  /** Whenever a loop looks its label up, the table has an entry. The pointer that the
      lookup gives is not tested. */
  predicate AllFound(s: Stmt, labels: set<string>)
    decreases s
  {
    match s
    case Block(ss) => AllFoundIn(ss, labels)
    case If(_, t, f) => AllFound(t, labels) && AllFound(f, TableAfter(t, labels))
    case While(_, tag, body, els) =>
      var inside := TableAfter(body, Added(labels, tag));
      && AllFound(body, Added(labels, tag)) && Holds(inside, tag)
      && AllFound(els, inside) && Holds(TableAfter(els, inside), tag)
    case Repeat(body, _, tag) => AllFound(body, Added(labels, tag)) && Holds(TableAfter(body, Added(labels, tag)), tag)
    case _ => true
  }

  predicate AllFoundIn(ss: seq<Stmt>, labels: set<string>)
    decreases ss
  {
    ss == [] || (AllFound(ss[0], labels) && AllFoundIn(ss[1..], TableAfter(ss[0], labels)))
  }

  /** Some loop in `s` has the label. */
  predicate Names(s: Stmt, name: string)
    decreases s
  {
    match s
    case Block(ss) => exists x | x in ss :: Names(x, name)
    case If(_, t, f) => Names(t, name) || Names(f, name)
    case While(_, tag, body, els) => tag == Some(name) || Names(body, name) || Names(els, name)
    case Repeat(body, _, tag) => tag == Some(name) || Names(body, name)
    case _ => false
  }

  /** No loop has the label of one that it is nested in. */
  predicate NoneNested(s: Stmt)
    decreases s
  {
    match s
    case Block(ss) => forall x | x in ss :: NoneNested(x)
    case If(_, t, f) => NoneNested(t) && NoneNested(f)
    case While(_, tag, body, els) =>
      && NoneNested(body) && NoneNested(els)
      && (tag.Some? ==> !Names(body, tag.value) && !Names(els, tag.value))
    case Repeat(body, _, tag) => NoneNested(body) && (tag.Some? ==> !Names(body, tag.value))
    case _ => true
  }

  /** A statement takes the labels of its loops out of the table, also when an enclosing
      loop had put one in. */
  lemma {:induction false} TableLoses(s: Stmt, labels: set<string>, name: string)
    ensures name in TableAfter(s, labels) <==> name in labels && !Names(s, name)
    decreases s, 1
  {
    match s
    case Block(ss) => TableLosesAll(ss, labels, name);
    case If(_, t, f) =>
      TableLoses(t, labels, name);
      TableLoses(f, TableAfter(t, labels), name);
    case While(_, tag, body, els) =>
      TableLoses(body, Added(labels, tag), name);
      TableLoses(els, TableAfter(body, Added(labels, tag)), name);
    case Repeat(body, _, tag) => TableLoses(body, Added(labels, tag), name);
    case _ =>
  }

  lemma {:induction false} TableLosesAll(ss: seq<Stmt>, labels: set<string>, name: string)
    ensures name in TableAfterAll(ss, labels) <==> name in labels && forall x | x in ss :: !Names(x, name)
    decreases ss, 0
  {
    if ss != [] {
      TableLoses(ss[0], labels, name);
      TableLosesAll(ss[1..], TableAfter(ss[0], labels), name);
      assert forall x :: x in ss <==> x == ss[0] || x in ss[1..];
    }
  }

  /** Every lookup finds its entry exactly when no loop is nested in one of the same
      label; otherwise the enclosing loop follows a null pointer. */
  lemma {:induction false} FoundExact(s: Stmt, labels: set<string>)
    ensures AllFound(s, labels) <==> NoneNested(s)
    decreases s, 1
  {
    match s
    case Block(ss) => FoundExactAll(ss, labels);
    case If(_, t, f) =>
      FoundExact(t, labels);
      FoundExact(f, TableAfter(t, labels));
    case While(_, tag, body, els) =>
      var inside := TableAfter(body, Added(labels, tag));
      FoundExact(body, Added(labels, tag));
      FoundExact(els, inside);
      if tag.Some? {
        TableLoses(body, Added(labels, tag), tag.value);
        TableLoses(els, inside, tag.value);
      }
    case Repeat(body, _, tag) =>
      FoundExact(body, Added(labels, tag));
      if tag.Some? { TableLoses(body, Added(labels, tag), tag.value); }
    case _ =>
  }

  lemma {:induction false} FoundExactAll(ss: seq<Stmt>, labels: set<string>)
    ensures AllFoundIn(ss, labels) <==> forall x | x in ss :: NoneNested(x)
    decreases ss, 0
  {
    if ss != [] {
      FoundExact(ss[0], labels);
      FoundExactAll(ss[1..], TableAfter(ss[0], labels));
      assert forall x :: x in ss <==> x == ss[0] || x in ss[1..];
    }
  }

  /** The statements that the compiler is proved for are such. */
  lemma {:induction false} FragmentFound(s: Stmt, tags: set<string>, inLoop: bool)
    requires InFragment(s, tags, inLoop)
    ensures NoneNested(s) && forall x | x in tags :: !Names(s, x)
    decreases s
  {
    match s
    case Block(ss) =>
      forall x | x in ss ensures NoneNested(x) && forall y | y in tags :: !Names(x, y) {
        FragmentFound(x, tags, inLoop);
      }
    case If(_, t, f) =>
      FragmentFound(t, tags, inLoop);
      FragmentFound(f, tags, inLoop);
    case While(_, tag, body, els) =>
      FragmentFound(body, Added(tags, tag), true);
      FragmentFound(els, Added(tags, tag), inLoop);
    case Repeat(body, _, tag) => FragmentFound(body, Added(tags, tag), true);
    case _ =>
  }

  /** `while true a { while true a {} }` is accepted, and its outer loop finds no entry. */
  lemma NestedLabel(a: string)
    ensures var inner := While(BoolLit(true), Some(a), Block([]), Empty);
            var outer := While(BoolLit(true), Some(a), Block([inner]), Empty);
            ScopedStmt(outer, [map[]], {}) && !AllFound(outer, {})
  {
    var inner := While(BoolLit(true), Some(a), Block([]), Empty);
    var outer := While(BoolLit(true), Some(a), Block([inner]), Empty);
    FoundExact(outer, {});
    assert Names(inner, a) && inner in [inner];
    var body, decls := Block([inner]), [map[]] + [map[]];
    EmptyLoopScoped(a, decls, {} + {a});
    assert ScopedAll([inner], decls, {} + {a}) by {
      assert [inner][0] == inner && [inner][1..] == [];
      assert ScopedAll([], DeclsAfter(inner, decls), {} + {a});
    }
    assert ScopedStmt(body, [map[]], {} + {a}) && ScopedStmt(Empty, [map[]], {} + {a});
  }

  lemma EmptyLoopScoped(a: string, decls: Decls, tags: set<string>)
    ensures ScopedStmt(While(BoolLit(true), Some(a), Block([]), Empty), decls, tags)
  {
    assert ScopedAll([], decls + [map[]], tags + {a});
    assert ScopedStmt(Block([]), decls, tags + {a}) && ScopedStmt(Empty, decls, tags + {a});
  }
}
