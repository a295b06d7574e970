/** Which element an instruction on a collection delivers or changes (src/object.cpp:
    ListIter, TableIter, getIndex, setIndex; src/vm.cpp: iterUnpack, makeIter, updateIter):
    element by element and position by position, where `Mutability` is about flags. */
module ElementLaws {
  import opened Flags
  import opened Mutability

  /* Iteration. */

  /** The thing element `k` of which is in the loop variable, as an iterator with these
      flags hands it out; for a table a new pair of a key, immutable now, and its value. */
  ghost predicate Delivered(s: State, varLoc: nat, t: Thing, flags: bv8, k: nat)
    requires varLoc < |s.locs| && k < Size(t)
  {
    match t
    case ListThing(items) => s.locs[varLoc] == Taken(items[k], flags)
    case TableThing(entries) =>
      exists a: nat ::
        && s.locs[varLoc] == Taken(Handle(LIST, a), flags) && a < |s.heap| && s.heap[a].ListThing?
        && s.heap[a].items == [MakeImmut(entries[k].key), entries[k].value]
  }

  /** The iterator at `iterLoc` is about to go on behind position `pos` of `t`. */
  ghost predicate Iterates(s: State, iterLoc: nat, t: Thing, flags: bv8, pos: nat) {
    && iterLoc < |s.locs| && Type(s.locs[iterLoc]) == ITER && 0 <= s.locs[iterLoc].as_ < |s.iters|
    && var it := s.iters[s.locs[iterLoc].as_];
       it.addr < |s.heap| && s.heap[it.addr] == t && it.flags == flags && it.pos == pos
  }

  /** A round of the loop may do anything but touch the iterator and change the list or
      table itself. */
  ghost predicate RoundKeeps(s: State, s': State, iterLoc: nat) {
    && Ok(s') && |s'.locs| == |s.locs|
    && forall t, flags, pos | Iterates(s, iterLoc, t, flags, pos) :: Iterates(s', iterLoc, t, flags, pos)
  }

  /** What decides whether there is another round. */
  ghost predicate More(s: State, iterLoc: nat) {
    && iterLoc < |s.locs| && 0 <= s.locs[iterLoc].as_ < |s.iters|
    && var it := s.iters[s.locs[iterLoc].as_];
       it.addr < |s.heap| && it.pos < Size(s.heap[it.addr])
  }

  ghost predicate Updates(s: State, s': State, varLoc: nat, iterLoc: nat) {
    && Ok(s) && varLoc < |s.locs| && iterLoc < |s.locs| && Type(s.locs[iterLoc]) == ITER
    && Update(s, varLoc, iterLoc) == Done(s')
  }

  /** `starts[k]` and `ends[k]` are the states around the body of round `k`. */
  ghost predicate Loop(s: State, varLoc: nat, iterLoc: nat, starts: seq<State>, ends: seq<State>) {
    && Ok(s) && varLoc < |s.locs| && iterLoc < |s.locs| && varLoc != iterLoc && PointsAt(s.locs[iterLoc])
    && Size(Iterated(s, iterLoc)) > 0
    && |starts| == |ends| > 0 && Start(s, varLoc, iterLoc) == Done(starts[0])
    && (forall k | 0 <= k < |starts| :: RoundKeeps(starts[k], ends[k], iterLoc))
    && forall k | 0 < k < |starts| :: Updates(ends[k - 1], starts[k], varLoc, iterLoc) && More(starts[k], iterLoc)
  }

  function Iterated(s: State, iterLoc: nat): Thing
    requires Ok(s) && iterLoc < |s.locs| && PointsAt(s.locs[iterLoc])
  {
    assert WfObj(s.locs[iterLoc], s);
    s.heap[s.locs[iterLoc].as_]
  }

  lemma StartDelivers(s: State, varLoc: nat, iterLoc: nat, s': State)
    requires Ok(s) && varLoc < |s.locs| && iterLoc < |s.locs| && varLoc != iterLoc && PointsAt(s.locs[iterLoc])
    requires Start(s, varLoc, iterLoc) == Done(s') && Size(Iterated(s, iterLoc)) > 0
    ensures var t, flags := Iterated(s, iterLoc), GetMutFlags(s.locs[iterLoc]);
            |s'.locs| == |s.locs| && Delivered(s', varLoc, t, flags, 0) && Iterates(s', iterLoc, t, flags, 0)
  {
    hide Taken, MakeImmut, GetMutFlags;
    var t := Iterated(s, iterLoc);
    if t.TableThing? {
      assert s'.heap[|s.heap|].items == [MakeImmut(t.entries[0].key), t.entries[0].value];
    }
  }

  /** One update delivers the next element, or changes nothing behind the last. */
  lemma UpdateDelivers(s: State, varLoc: nat, iterLoc: nat, t: Thing, flags: bv8, pos: nat, s': State)
    requires Updates(s, s', varLoc, iterLoc) && varLoc != iterLoc && Iterates(s, iterLoc, t, flags, pos)
    ensures |s'.locs| == |s.locs| && Iterates(s', iterLoc, t, flags, pos + 1)
    ensures More(s', iterLoc) <==> pos + 1 < Size(t)
    ensures pos + 1 < Size(t) ==> Delivered(s', varLoc, t, flags, pos + 1)
    ensures pos + 1 >= Size(t) ==> s'.locs == s.locs && s'.heap == s.heap
  {
    hide Taken, MakeImmut;
    if pos + 1 < Size(t) && t.TableThing? {
      assert s'.heap[|s.heap|].items == [MakeImmut(t.entries[pos + 1].key), t.entries[pos + 1].value];
    }
  }

  /** A loop over a list or table gets its elements one by one, each once and in order:
      round `k` has element `k`. */
  lemma {:induction false} IterationOrder(s: State, varLoc: nat, iterLoc: nat, starts: seq<State>, ends: seq<State>,
                                          k: nat)
    requires Loop(s, varLoc, iterLoc, starts, ends) && k < |starts|
    ensures var t, flags := Iterated(s, iterLoc), GetMutFlags(s.locs[iterLoc]);
            && k < Size(t) && |starts[k].locs| == |s.locs| && Delivered(starts[k], varLoc, t, flags, k)
            && Iterates(starts[k], iterLoc, t, flags, k) && Iterates(ends[k], iterLoc, t, flags, k)
    decreases k
  {
    hide Delivered, Iterates, Start, Update, GetMutFlags, Iterated;
    var t, flags := Iterated(s, iterLoc), GetMutFlags(s.locs[iterLoc]);
    if k == 0 {
      StartDelivers(s, varLoc, iterLoc, starts[0]);
    } else {
      IterationOrder(s, varLoc, iterLoc, starts, ends, k - 1);
      UpdateDelivers(ends[k - 1], varLoc, iterLoc, t, flags, k - 1, starts[k]);
    }
    assert RoundKeeps(starts[k], ends[k], iterLoc);
  }

  /** After the last round of so many there is another one exactly when there is another
      element. */
  lemma IterationEnds(s: State, varLoc: nat, iterLoc: nat, starts: seq<State>, ends: seq<State>, s': State)
    requires Loop(s, varLoc, iterLoc, starts, ends) && Updates(ends[|ends| - 1], s', varLoc, iterLoc)
    ensures More(s', iterLoc) <==> |starts| < Size(Iterated(s, iterLoc))
    ensures !More(s', iterLoc) ==> s'.locs == ends[|ends| - 1].locs && s'.heap == ends[|ends| - 1].heap
  {
    hide Delivered, Start, Update, Iterates, More, GetMutFlags, Iterated;
    var n := |starts|;
    IterationOrder(s, varLoc, iterLoc, starts, ends, n - 1);
    UpdateDelivers(ends[n - 1], varLoc, iterLoc, Iterated(s, iterLoc), GetMutFlags(s.locs[iterLoc]), n - 1, s');
  }

  /** A loop over nothing has no round. */
  lemma NoRound(s: State, varLoc: nat, iterLoc: nat)
    requires Ok(s) && varLoc < |s.locs| && iterLoc < |s.locs| && PointsAt(s.locs[iterLoc])
    requires Size(Iterated(s, iterLoc)) == 0
    ensures Start(s, varLoc, iterLoc) == Done(s)
  {
  }

  /* Indexing. */

  /** The place of `obj[index]`: a list has it at the index, a table where the key is
      found; negative when the index is no number. */
  function Position(s: State, obj: nat, index: nat, at: nat): int
    requires obj < |s.locs| && index < |s.locs|
  {
    if IsTable(s.locs[obj]) then at else if Type(s.locs[index]) == INT then s.locs[index].as_ else -1
  }

  function Element(t: Thing, k: nat): Object
    requires k < Size(t)
  {
    match t
    case ListThing(items) => items[k]
    case TableThing(entries) => entries[k].value
  }

  /** An element as it is, or immutable if it was reached through an immutable handle. */
  predicate Through(o: Object, found: Object, p: Object) {
    && Type(p) == Type(found) && p.as_ == found.as_
    && if IsImmut(o) then HasMutState(p) ==> IsImmut(p) else p == found
  }

  predicate OnlyChanged(s: State, s': State, dest: nat) {
    && |s'.locs| == |s.locs| && s'.heap == s.heap && s'.iters == s.iters
    && forall i | 0 <= i < |s.locs| && i != dest :: s'.locs[i] == s.locs[i]
  }

  /** `obj[index]` is the element at that place, and an error exactly when there is none. */
  lemma GetIndexLaw(s: State, dest: nat, obj: nat, index: nat, at: nat)
    requires Ok(s) && dest < |s.locs| && obj < |s.locs| && index < |s.locs|
    ensures var r, k := GetIndexTo(s, dest, obj, index, at), Position(s, obj, index, at);
            if PointsAt(s.locs[obj]) && 0 <= k < Size(Iterated(s, obj))
            then r.Done? && OnlyChanged(s, r.s, dest) && Through(s.locs[obj], Element(Iterated(s, obj), k), r.s.locs[dest])
            else r == Failed(if !PointsAt(s.locs[obj]) then NotCollection else if IsTable(s.locs[obj]) then KeyNotFound
                             else if Type(s.locs[index]) != INT then NotIndex else OutOfBounds)
  {
  }

  /** `obj[index] = value` replaces the element at that place, adds an entry to a table
      without the key, and leaves everything else as it was. */
  lemma SetIndexLaw(s: State, obj: nat, index: nat, value: nat, at: nat)
    requires Ok(s) && obj < |s.locs| && index < |s.locs| && value < |s.locs|
    ensures var r, k, o := SetIndexOf(s, obj, index, value, at), Position(s, obj, index, at), s.locs[obj];
            if PointsAt(o) && !IsImmut(o) && (IsTable(o) || 0 <= k < Size(Iterated(s, obj)))
            then r.Done? && r.s.locs == s.locs && r.s.iters == s.iters && |r.s.heap| == |s.heap|
                 && (forall a | 0 <= a < |s.heap| && a != o.as_ :: r.s.heap[a] == s.heap[a])
                 && Replaced(Iterated(s, obj), r.s.heap[o.as_], k, s.locs[index], s.locs[value])
            else r == Failed(if !PointsAt(o) then NotCollection else if IsImmut(o) then ModImmutValue
                             else if Type(s.locs[index]) != INT then NotIndex else OutOfBounds)
  {
    hide IsImmut;
  }

  /** `t'` is `t` with `value` at place `k`, or with one more entry at the end. */
  predicate Replaced(t: Thing, t': Thing, k: nat, key: Object, value: Object) {
    var i := if k < Size(t) then k else Size(t);
    && t.ListThing? == t'.ListThing? && Size(t') == (if k < Size(t) then Size(t) else Size(t) + 1)
    && Element(t', i) == value
    && (forall j | 0 <= j < Size(t) && j != i :: Element(t', j) == Element(t, j))
    && (t.TableThing? ==>
          && (forall j | 0 <= j < Size(t) :: t'.entries[j].key == t.entries[j].key)
          && (i == Size(t) ==> t'.entries[i].key == key))
  }

  lemma SetThingOk(s: State, a: nat, t: Thing)
    requires Ok(s) && a < |s.heap| && WfThing(t, s) && t.ListThing? == s.heap[a].ListThing?
    ensures Ok(SetThing(s, a, t))
  {
    var s' := SetThing(s, a, t);
    forall b | 0 <= b < |s.heap| ensures WfThing(s'.heap[b], s') {
      assert WfThing(s.heap[b], s);
    }
    forall i | 0 <= i < |s.locs| ensures WfObj(s'.locs[i], s') {
      assert WfObj(s.locs[i], s);
    }
  }

  lemma SetIndexOk(s: State, obj: nat, index: nat, value: nat, at: nat)
    requires Ok(s) && obj < |s.locs| && index < |s.locs| && value < |s.locs|
    ensures var r := SetIndexOf(s, obj, index, value, at); r.Done? ==> Ok(r.s)
  {
    hide IsImmut, WfObj;
    var o, v, i := s.locs[obj], s.locs[value], s.locs[index];
    assert WfObj(v, s) && WfObj(i, s) && WfObj(o, s);
    if PointsAt(o) {
      WfIs(o, s);
      assert WfThing(s.heap[o.as_], s);
      var r := SetIndexOf(s, obj, index, value, at);
      if r.Done? { SetThingOk(s, o.as_, r.s.heap[o.as_]); }
    }
  }

  lemma WfIs(o: Object, s: State)
    requires WfObj(o, s) && PointsAt(o)
    ensures 0 <= o.as_ < |s.heap| && (s.heap[o.as_].ListThing? <==> IsList(o))
  {
  }

  /** What was set is what the same index gives. */
  lemma SetThenGet(s: State, obj: nat, index: nat, value: nat, at: nat, dest: nat)
    requires Ok(s) && dest < |s.locs| && obj < |s.locs| && index < |s.locs| && value < |s.locs|
    requires IsTable(s.locs[obj]) ==> at <= Size(Iterated(s, obj))
    requires SetIndexOf(s, obj, index, value, at).Done?
    ensures Ok(SetIndexOf(s, obj, index, value, at).s)
    ensures var r := GetIndexTo(SetIndexOf(s, obj, index, value, at).s, dest, obj, index, at);
            r.Done? && r.s.locs[dest] == s.locs[value]
  {
    SetIndexOk(s, obj, index, value, at);
    SetIndexLaw(s, obj, index, value, at);
    GetIndexLaw(SetIndexOf(s, obj, index, value, at).s, dest, obj, index, at);
  }

  /* Unpacking. */

  lemma {:induction false} SpreadLaw(s: State, items: seq<Object>, flags: bv8, reg: nat, n: nat, j: nat)
    requires reg + n <= |s.locs| && n <= |items| && j < |s.locs|
    ensures Spread(s, items, flags, reg, n).locs[j]
         == if reg <= j < reg + n then Taken(items[j - reg], flags) else s.locs[j]
    decreases n
  {
    hide Taken;
    if n > 0 { SpreadLaw(s, items, flags, reg, n - 1, j); }
  }

  lemma {:induction false} RestLaw(items: seq<Object>, flags: bv8, from: nat)
    requires from <= |items|
    ensures var rest := Rest(items, flags, from);
            |rest| == |items| - from && forall j | 0 <= j < |rest| :: rest[j] == Taken(items[from..][j], flags)
    decreases |items| - from
  {
    hide Taken;
    if from < |items| {
      RestLaw(items, flags, from + 1);
      assert items[from..] == [items[from]] + items[from + 1..];
    }
  }

  /** Variable `j` gets element `j`; with `last`, the last variable gets a new list of all
      that are left. Too few elements are an error, too many unless there is a variable
      for the rest or the rest is ignored. */
  lemma UnpackLaw(s: State, reg: nat, count: nat, last: bool, ignore: bool)
    requires Ok(s) && 1 < count && reg + count <= |s.locs| && IsList(s.locs[reg])
    ensures var items, flags := Items(s, reg), GetMutFlags(s.locs[reg]);
            var r, n := UnpackAt(s, reg, count, last, ignore), if last then count - 1 else count;
            if |items| < count then r == Failed(UnpackTooFew)
            else if |items| > count && !last && !ignore then r == Failed(UnpackTooMany)
            else
              && r.Done? && |r.s.locs| == |s.locs| && s.heap <= r.s.heap
              && (forall j | 0 <= j < |s.locs| ::
                    (reg <= j < reg + n ==> r.s.locs[j] == Taken(items[j - reg], flags))
                    && (!(reg <= j < reg + count) ==> r.s.locs[j] == s.locs[j]))
              && (last ==>
                    && r.s.locs[reg + n] == Handle(LIST, |s.heap|) && |r.s.heap| == |s.heap| + 1
                    && r.s.heap[|s.heap|].ListThing?
                    && var rest := r.s.heap[|s.heap|].items;
                       |rest| == |items| - n && forall j | 0 <= j < |rest| :: rest[j] == Taken(items[n..][j], flags))
  {
    hide Taken, GetMutFlags;
    var items, flags := Items(s, reg), GetMutFlags(s.locs[reg]);
    var n := if last then count - 1 else count;
    assert WfObj(s.locs[reg], s);
    if |items| >= count {
      forall j: nat | j < |s.locs|
        ensures Spread(s, items, flags, reg, n).locs[j]
             == if reg <= j < reg + n then Taken(items[j - reg], flags) else s.locs[j]
      {
        SpreadLaw(s, items, flags, reg, n, j);
      }
      RestLaw(items, flags, n);
    }
  }

  /* Assignments. */

  /** The mutability of a value that was assigned: a fixed variable makes it immutable
      unless it was mutable already, and immutable values stay so. */
  predicate AssignedState(value: Object, fixed: bool, p: Object) {
    && SameValue(value, p)
    && (HasMutState(p) ==> (IsImmut(p) <==> IsImmut(value) || (fixed && !IsMut(value))) && (IsMut(p) <==> !IsImmut(p)))
  }

  /** A variable gets the value; through a reference it is the variable behind it that gets
      it, flags and all, and the reference still leads there. */
  lemma AssignLaw(s: State, dest: nat, src: nat, deref: bool)
    requires Ok(s) && dest < |s.locs| && src < |s.locs|
    ensures var r, d := AssignTo(s, dest, src, deref), s.locs[dest];
            var value := if deref then Deref(s, s.locs[src]) else s.locs[src];
            if Type(d) == REF && IsFixed(s.locs[d.as_]) then r == Failed(ModFixedVariable)
            else
              && r.Done? && r.s.heap == s.heap && r.s.iters == s.iters && |r.s.locs| == |s.locs|
              && (if Type(d) == REF && d.as_ != dest
                  then r.s.locs[d.as_] == value && SameValue(d, r.s.locs[dest])
                  else AssignedState(value, Type(d) != REF && IsFixed(d), r.s.locs[dest]))
              && forall i | 0 <= i < |s.locs| && i != dest :: (Type(d) == REF && i == d.as_) || r.s.locs[i] == s.locs[i]
  {
  }

  /* Registers. */

  /** OP_VAR and OP_FIX change the registers of the declaration and no others: all of them
      become variables or fixed, and mutable or immutable with that unless their value
      was decided before. */
  lemma {:induction false} DeclareLaw(s: State, reg: nat, count: nat, fixed: bool, j: nat)
    requires reg + count <= |s.locs| && j < |s.locs|
    ensures var o, p := s.locs[j], DeclareAll(s, reg, count, fixed).locs[j];
            if reg <= j < reg + count
            then && SameValue(o, p) && IsFixed(p) == fixed
                 && (HasMutState(p) ==> IsImmut(p) == if fixed then !IsMut(o) else IsImmut(o))
            else p == o
    decreases count
  {
    hide SameValue, IsImmut, IsMut, IsFixed, HasMutState;
    if count > 0 {
      DeclareLaw(s, reg, count - 1, fixed, j);
      if j == reg + count - 1 { DeclaredOne(s.locs[j], fixed); }
    }
  }

  lemma DeclaredOne(o: Object, fixed: bool)
    ensures var p := Declared(o, fixed);
            && SameValue(o, p) && IsFixed(p) == fixed
            && (HasMutState(p) ==> IsImmut(p) == if fixed then !IsMut(o) else IsImmut(o))
  {
    DeclaredMeans(o);
  }

  /** Copying leaves the source, moving makes it invalid. */
  lemma CopyAndMove(s: State, dest: nat, src: nat, deref: bool)
    requires Ok(s) && dest < |s.locs| && src < |s.locs|
    ensures var r := Step(s, Copy(dest, src, deref));
            && r.Done? && OnlyChanged(s, r.s, dest)
            && r.s.locs[dest] == if deref && Type(s.locs[src]) == REF then s.locs[s.locs[src].as_] else s.locs[src]
    ensures var r := Step(s, Move(dest, src));
            && r.Done? && |r.s.locs| == |s.locs| && r.s.locs[dest] == s.locs[src]
            && (dest != src ==> Type(r.s.locs[src]) == INVALID)
            && forall i | 0 <= i < |s.locs| && i != dest && i != src :: r.s.locs[i] == s.locs[i]
  {
    assert WfObj(s.locs[src], s);
  }

  /* Lists. */

  /** A literal starts as a new, empty list or table. */
  lemma NewLaw(s: State, dest: nat)
    requires Ok(s) && dest < |s.locs|
    ensures var r := Step(s, NewList(dest));
            r.Done? && r.s.heap == s.heap + [ListThing([])] && r.s.locs == s.locs[dest := Handle(LIST, |s.heap|)]
    ensures var r := Step(s, NewTable(dest));
            r.Done? && r.s.heap == s.heap + [TableThing([])] && r.s.locs == s.locs[dest := Handle(TABLE, |s.heap|)]
  {
  }

  /** OP_EXT_LIST puts the registers behind the elements there are, in order; `clear` takes
      all elements away. */
  lemma ExtendAndClear(s: State, list: nat, start: nat, count: nat)
    requires Ok(s) && Legal(s, ExtList(list, start, count))
    ensures var r, n := Step(s, ExtList(list, start, count)), |Items(s, list)|;
            && r.Done? && r.s.locs == s.locs && |r.s.heap| == |s.heap|
            && var t := r.s.heap[s.locs[list].as_];
               && t.ListThing? && |t.items| == n + count
               && forall k | 0 <= k < n + count :: t.items[k] == if k < n then Items(s, list)[k] else s.locs[start..][k - n]
    ensures var r := Step(s, Clear(list));
            r.Done? && r.s.locs == s.locs && |r.s.heap| == |s.heap| && r.s.heap[s.locs[list].as_] == ListThing([])
  {
    hide IsImmut;
    assert WfObj(s.locs[list], s);
  }

  /** Appending puts a value behind the others, and popping takes it from there. */
  lemma AppendThenPop(s: State, obj: nat, value: nat, dest: nat)
    requires Ok(s) && Legal(s, Append(obj, value)) && !IsImmut(s.locs[obj]) && dest < |s.locs|
    ensures var r := Step(s, Append(obj, value));
            && r.Done? && r.s.locs == s.locs && Ok(r.s) && Legal(r.s, Pop(dest, obj))
            && |Items(r.s, obj)| == |Items(s, obj)| + 1 && Items(s, obj) <= Items(r.s, obj)
            && Items(r.s, obj)[|Items(s, obj)|] == s.locs[value]
            && var p := Step(r.s, Pop(dest, obj));
               p.Done? && p.s.locs == s.locs[dest := s.locs[value]] && p.s.heap == s.heap
  {
    hide IsImmut;
    assert WfObj(s.locs[obj], s) && WfObj(s.locs[value], s);
    var r, items, a := Step(s, Append(obj, value)), Items(s, obj), s.locs[obj].as_;
    assert WfThing(s.heap[a], s) && s.heap[a] == ListThing(items);
    SetThingOk(s, a, ListThing(items + [s.locs[value]]));
    assert Items(r.s, obj) == items + [s.locs[value]];
    assert (items + [s.locs[value]])[..|items|] == items;
  }
}
