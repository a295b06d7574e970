/** What equality, membership, truth and indexing mean for the values of the core
    language (src/object.cpp: operator==, contains, isTruthy, getIndex), and which value
    a name stands for. */
module ValueLaws {
  import opened Words
  import opened Syntax
  import opened Values
  import opened Source
  import opened Doubles
  import opened IntegerLaws

  /** Nothing in `v` is mistaken for something else by the comparison of numbers. */
  predicate Own(v: Value) {
    match v
    case Int(i) => OwnDouble(Magnitude(i))
    case List(items) => forall k | 0 <= k < |items| :: Own(items[k])
    case Invalid => false
    case _ => true
  }

  /** `==` compares lists entry by entry. */
  lemma EqualLists(xs: seq<Value>, ys: seq<Value>)
    ensures Equal(List(xs), List(ys)) <==> |xs| == |ys| && forall k | 0 <= k < |xs| :: Equal(xs[k], ys[k])
  {
  }

  /** `==` tells `v` and `w` apart when they are different, and only then. */
  predicate EqualRight(v: Value, w: Value) {
    Equal(v, w) == (v == w)
  }

  /** A value is `==` to itself alone exactly when its integers are and nothing in it was
      moved away. */
  lemma EqualLaw(v: Value)
    ensures (forall w :: EqualRight(v, w)) <==> Own(v)
  {
    if Own(v) {
      forall w ensures EqualRight(v, w) {
        OwnEqual(v, w);
      }
    } else {
      var w := OtherEqual(v);
      assert !EqualRight(v, w);
    }
  }

  lemma {:induction false} OwnEqual(v: Value, w: Value)
    requires Own(v)
    ensures Equal(v, w) <==> v == w
    decreases v
  {
    hide AsDouble;
    if v.Int? {
      EqualExact(v.i);
      if w.Int? { assert Equal(Int(v.i), Int(w.i)) <==> v.i == w.i; }
    } else if v.List? && w.List? && |v.items| == |w.items| {
      forall k | 0 <= k < |v.items| ensures Equal(v.items[k], w.items[k]) <==> v.items[k] == w.items[k] {
        OwnEqual(v.items[k], w.items[k]);
      }
    }
  }

  lemma {:induction false} OtherEqual(v: Value) returns (w: Value)
    requires !Own(v)
    ensures Equal(v, w) <==> v != w
    decreases v
  {
    hide AsDouble;
    if v.Int? {
      var y := SharedDouble(v.i);
      w := Int(y);
    } else if v.List? && Equal(v, v) {
      var k :| 0 <= k < |v.items| && !Own(v.items[k]);
      var x := OtherEqual(v.items[k]);
      assert Equal(v.items[k], v.items[k]);
      w := List(v.items[k := x]);
    } else {
      w := v;
    }
  }

  predicate IsBool(r: Result, b: bool) {
    r.Ok? && r.value.Bool? && (r.value.b <==> b)
  }

  /** `in` finds what is there. */
  lemma ContainsLaw(items: seq<Value>, v: Value)
    requires Own(v)
    ensures IsBool(BinaryValue(In, v, List(items)), v in items)
    ensures IsBool(BinaryValue(NotIn, v, List(items)), v !in items)
  {
    hide Own, Equal;
    EqualLaw(v);
    assert forall k | 0 <= k < |items| :: EqualRight(v, items[k]);
  }

  /** Zero, false, null, void and the empty list are the values that count as false. */
  lemma TruthyLaw(v: Value)
    ensures Truthy(v) <==> v !in {Int(0), Bool(false), Null, Void, List([])}
    ensures UnaryValue(Not, v) == Ok(Bool(v in {Int(0), Bool(false), Null, Void, List([])}))
  {
  }

  /** Up to 2^53 the order of integers is the usual one. */
  lemma OrderLaw(x: i64, y: i64)
    requires Magnitude(x) <= TWO53 && Magnitude(y) <= TWO53
    ensures BinaryValue(Lt, Int(x), Int(y)) == Ok(Bool(x < y))
    ensures BinaryValue(Le, Int(x), Int(y)) == Ok(Bool(x <= y))
    ensures BinaryValue(Gt, Int(x), Int(y)) == Ok(Bool(x > y))
    ensures BinaryValue(Ge, Int(x), Int(y)) == Ok(Bool(x >= y))
  {
    SmallComparisons(x, y);
    SmallComparisons(y, x);
  }

  /** Which operations are errors, and which errors. */
  lemma ErrorLaw(op: BinaryOp, a: Value, b: Value)
    ensures var r, ints := BinaryValue(op, a, b), a.Int? && b.Int?;
            && (op.Eq? || op.Ne? ==> r.Ok?)
            && (op.In? || op.NotIn? ==> if b.List? then r.Ok? else r == Err(NotIterable))
            && (op.Lt? || op.Le? || op.Gt? || op.Ge? ==> if ints then r.Ok? else r == Err(BadOperands))
            && (op.Add? || op.Sub? || op.Mult? || op.BAnd? || op.BOr? || op.BXor? ==>
                  if ints then r.Ok? else r == Err(BadOperands))
            && (op.Mod? ==>
                  if !ints then r == Err(BadOperands) else if b.i == 0 then r == Err(ModulusWithZero) else r.Ok?)
            && (op.Shl? || op.Shr? ==>
                  if !ints then r == Err(BadOperands) else if 0 <= b.i < 64 then r.Ok? else r == Err(HitShiftMax))
    ensures UnaryValue(Not, a).Ok?
    ensures a.Int? ==> UnaryValue(Negate, a).Ok? && UnaryValue(Complement, a).Ok?
    ensures !a.Int? ==> UnaryValue(Negate, a) == Err(BadOperand) == UnaryValue(Complement, a)
  {
    hide AsDouble, Equal, Contains, Truthy, TruncMod, BitAnd, BitOr, BitXor, ShiftLeft, ShiftRight;
  }

  /** Only lists can be indexed, and only by integers. */
  lemma IndexErrors(obj: Expr, index: Expr, env: Env)
    ensures var a := EvalExpr(obj, env);
            a.Val? && EvalExpr(index, a.env).Val? ==>
              var b := EvalExpr(index, a.env);
              && (!a.value.List? ==> EvalExpr(Index(obj, index), env) == Raised(NotCollection))
              && (a.value.List? && !b.value.Int? ==> EvalExpr(Index(obj, index), env) == Raised(NotIndex))
  {
    hide Equal, Truthy, Lookup, Update, BinaryValue, UnaryValue;
  }

  /* Lists. */

  /** The entries of a list literal are evaluated one after the other: entry `k` in the
      scopes that the entries before it left behind. */
  predicate EntryIs(es: seq<Expr>, env: Env, k: nat, v: Value)
    requires k < |es|
  {
    var before := EvalList(es[..k], env);
    before.Vals? && var e := EvalExpr(es[k], before.env); e.Val? && e.value == v
  }

  lemma {:induction false} EntryLaw(es: seq<Expr>, env: Env, k: nat)
    requires EvalList(es, env).Vals? && k < |es|
    ensures EntryIs(es, env, k, EvalList(es, env).values[k])
    decreases k
  {
    if k > 0 {
      var env1 := EvalExpr(es[0], env).env;
      EntryLaw(es[1..], env1, k - 1);
      assert es[..k][0] == es[0] && es[..k][1..] == es[1..][..k - 1];
    }
  }

  /** `[e0, e1, ...][k]` is the value of entry `k`; it is an error exactly when there is
      no such entry. */
  lemma IndexLaw(es: seq<Expr>, k: i64, env: Env)
    ensures var r, entries := EvalExpr(Index(ListLit(es), IntLit(k)), env), EvalList(es, env);
            && (entries.RaisedL? ==> r == Raised(entries.error))
            && (entries.Vals? && 0 <= k < |es| ==> r.Val? && r.env == entries.env && EntryIs(es, env, k, r.value))
            && (entries.Vals? && !(0 <= k < |es|) ==> r == Raised(IndexOutOfBounds))
  {
    hide EntryIs;
    if EvalList(es, env).Vals? && 0 <= k < |es| {
      EntryLaw(es, env, k);
    }
  }

  /* Names. */

  /** A name stands for its innermost declaration. */
  lemma ShadowLaw(env: Env, scope: map<string, Value>, name: string)
    ensures Lookup(env + [scope], name) == if name in scope then scope[name] else Lookup(env, name)
  {
    assert (env + [scope])[..|env|] == env;
  }

  /** An assignment changes one name, and only where that is declared. */
  lemma UpdateLaw(env: Env, name: string, v: Value, other: string)
    ensures Lookup(Update(env, name, v), other)
         == if other == name && Innermost(env, name) >= 0 then v else Lookup(env, other)
  {
    hide Innermost;
    SameInnermost(env, Update(env, name, v), other);
  }

  lemma SameInnermost(env: Env, env': Env, name: string)
    requires |env| == |env'|
    requires forall j | 0 <= j < |env| :: name in env[j] <==> name in env'[j]
    ensures Innermost(env, name) == Innermost(env', name)
  {
    var i, i' := Innermost(env, name), Innermost(env', name);
    assert i >= 0 ==> name in env'[i];
    assert i' >= 0 ==> name in env[i'];
  }

  /** Declaring several names gives each its own value. */
  lemma {:induction false} BindLaw(scope: map<string, Value>, names: seq<string>, values: seq<Value>, name: string)
    requires |names| == |values| && Distinct(names)
    ensures forall i | 0 <= i < |names| :: names[i] == name ==>
              name in Bind(scope, names, values) && Bind(scope, names, values)[name] == values[i]
    ensures name !in names ==> (name in Bind(scope, names, values) <==> name in scope)
    ensures name !in names && name in scope ==> Bind(scope, names, values)[name] == scope[name]
    decreases names
  {
    if names != [] {
      BindLaw(scope[names[0] := values[0]], names[1..], values[1..], name);
      assert name in names <==> name == names[0] || name in names[1..];
      forall i | 0 <= i < |names| && names[i] == name
        ensures name in Bind(scope, names, values) && Bind(scope, names, values)[name] == values[i]
      {
        if i > 0 { assert names[1..][i - 1] == name; }
      }
    }
  }

  /** After `make a, b = e0, e1` each name stands for the value of its expression, and
      for null without expressions. */
  lemma DeclareLaw(fix: bool, names: seq<string>, es: seq<Expr>, env: Env, fuel: nat, i: nat)
    requires env != [] && (es == [] || |names| == |es|) && Distinct(names) && i < |names|
    ensures var o := Exec(VarDecl(fix, names, es), env, fuel);
            o.Normal? && o.env != [] ==>
              if es == [] then Lookup(o.env, names[i]) == Null else EntryIs(es, env, i, Lookup(o.env, names[i]))
  {
    hide EntryIs, Innermost, Bind;
    if es == [] {
      BoundAt(env, names, Nulls(|names|), i);
    } else {
      var r := EvalList(es, env);
      if r.Vals? && r.env != [] {
        EntryLaw(es, env, i);
        BoundAt(r.env, names, r.values, i);
      }
    }
  }

  lemma BoundAt(env: Env, names: seq<string>, values: seq<Value>, i: nat)
    requires env != [] && |names| == |values| && Distinct(names) && i < |names|
    ensures Lookup(env[|env| - 1 := Bind(env[|env| - 1], names, values)], names[i]) == values[i]
  {
    hide Innermost, Bind;
    var last := |env| - 1;
    var scope := Bind(env[last], names, values);
    BindLaw(env[last], names, values, names[i]);
    ShadowLaw(env[..last], scope, names[i]);
    assert env[last := scope] == env[..last] + [scope];
    assert names[i] in names;
  }

  /** `++` and `--` step a declared integer by one; in front of the name they give the new
      value, behind it the old one. */
  lemma CrementLaw(incr: bool, prev: bool, name: string, env: Env)
    requires Innermost(env, name) >= 0
    ensures var r, v := EvalExpr(Crement(incr, prev, name), env), Lookup(env, name);
            if !v.Int? then r == Raised(BadOperand)
            else
              && r.Val? && Lookup(r.env, name).Int?
              && Congruent(Lookup(r.env, name).i, if incr then v.i + 1 else v.i - 1)
              && r.value == (if prev then v else Lookup(r.env, name))
              && forall other | other != name :: Lookup(r.env, other) == Lookup(env, other)
  {
    hide Innermost, Lookup, Update;
    var v := Lookup(env, name);
    if v.Int? {
      var w := Wrap64(if incr then v.i + 1 else v.i - 1);
      WrapCongruent(if incr then v.i + 1 else v.i - 1);
      UpdateLaw(env, name, Int(w), name);
      forall other | other != name ensures Lookup(Update(env, name, Int(w)), other) == Lookup(env, other) {
        UpdateLaw(env, name, Int(w), other);
      }
    }
  }
}
