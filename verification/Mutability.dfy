/** Mutability of collections over whole runs (src/vm.cpp: the copying, indexing,
    iterating and declaring instructions; src/object.cpp: setIndex and iterators).
    Mutability is a property of handles, not of the list or table behind them. A list
    that is only held by immutable handles can never change again. */
module Mutability {
  import opened Flags
  import opened Syntax

  datatype Entry = Entry(key: Object, value: Object)

  /** What a list or table handle points to. A table is the order it iterates in. */
  datatype Thing =
    | ListThing(items: seq<Object>)
    | TableThing(entries: seq<Entry>)

  /** An iterator remembers the flags of the handle it was made from. */
  datatype Iter = Iter(addr: nat, flags: bv8, pos: nat)

  /** `locs` are the places for handles: registers, global registers and the own
      objects of closed cells. */
  datatype State = State(locs: seq<Object>, heap: seq<Thing>, iters: seq<Iter>)

  datatype Error =
    | NotCollection | NotIterable | NotIndex | OutOfBounds | KeyNotFound | ModImmutValue
    | ModFixedVariable | ImmutToMut | UnpackTable | UnpackTooFew | UnpackTooMany

  datatype Outcome = Done(s: State) | Failed(error: Error)

  datatype Op =
    | Load(dest: nat, o: Object)
    | NewList(dest: nat)
    | NewTable(dest: nat)
    | ExtList(list: nat, start: nat, count: nat)
    | Copy(dest: nat, src: nat, deref: bool)
    | Move(dest: nat, src: nat)
    | Assign(dest: nat, src: nat, deref: bool)
    | MakeRef(dest: nat, loc: nat)
    | GetIndex(dest: nat, obj: nat, index: nat, at: nat)
    | SetIndex(obj: nat, index: nat, value: nat, at: nat)
    | StartIter(varLoc: nat, iterable: nat)
    | UpdateIter(varLoc: nat, iterLoc: nat)
    | Unpack(reg: nat, count: nat, last: bool, ignore: bool)
    | Declare(reg: nat, count: nat, fixed: bool)
    | Immut(reg: nat)
    | Mut(reg: nat)
    | Append(obj: nat, value: nat)
    | Pop(dest: nat, obj: nat)
    | Clear(obj: nat)

  function Handle(kind: bv8, addr: int): Object {
    Object(kind, addr, false)
  }

  predicate IsList(o: Object) {
    Type(o) == LIST
  }

  predicate IsTable(o: Object) {
    Type(o) == TABLE
  }

  predicate PointsAt(o: Object) {
    IsList(o) || IsTable(o)
  }

  /* Addresses are used as what they are. */

  predicate WfObj(o: Object, s: State) {
    && (IsList(o) ==> 0 <= o.as_ < |s.heap| && s.heap[o.as_].ListThing?)
    && (IsTable(o) ==> 0 <= o.as_ < |s.heap| && s.heap[o.as_].TableThing?)
    && (Type(o) == REF ==> 0 <= o.as_ < |s.locs|)
    && (Type(o) == ITER ==> 0 <= o.as_ < |s.iters|)
  }

  predicate Ok(s: State) {
    && (forall i | 0 <= i < |s.locs| :: WfObj(s.locs[i], s))
    && (forall a | 0 <= a < |s.heap| :: WfThing(s.heap[a], s))
    && (forall i | 0 <= i < |s.iters| :: s.iters[i].addr < |s.heap|)
  }

  predicate WfThing(t: Thing, s: State) {
    match t
    case ListThing(items) => forall k | 0 <= k < |items| :: WfObj(items[k], s)
    case TableThing(entries) => forall k | 0 <= k < |entries| :: WfObj(entries[k].key, s) && WfObj(entries[k].value, s)
  }

  /* One instruction. */

  function SetLoc(s: State, i: nat, o: Object): State
    requires i < |s.locs|
  {
    s.(locs := s.locs[i := o])
  }

  function SetThing(s: State, a: nat, t: Thing): State
    requires a < |s.heap|
  {
    s.(heap := s.heap[a := t])
  }

  function Allocate(s: State, t: Thing): State {
    s.(heap := s.heap + [t])
  }

  /** Handles found in a collection remember that they came through an immutable one. */
  function Seen(o: Object, immut: bool): Object {
    o.(view := o.view || immut)
  }

  /** An element as an iterator hands it out. */
  function Taken(o: Object, flags: bv8): Object {
    SetMutFlags(Seen(o, flags == MUT_FLAGS), flags)
  }

  /** A pair of a table, for the iteration variable. */
  function Pair(e: Entry): Thing {
    ListThing([MakeImmut(e.key), e.value])
  }

  function Deref(s: State, o: Object): Object
    requires WfObj(o, s)
  {
    if Type(o) == REF then s.locs[o.as_] else o
  }

  /** OP_GET_LOCAL, OP_SET_LOCAL, OP_SET_GLOBAL, and OP_SET_CELL, which does not look
      through a reference in its source. */
  function AssignTo(s: State, dest: nat, src: nat, deref: bool): Outcome
    requires Ok(s) && dest < |s.locs| && src < |s.locs|
  {
    var d, value := s.locs[dest], if deref then Deref(s, s.locs[src]) else s.locs[src];
    if Type(d) == REF then
      var fixed := IsFixed(s.locs[d.as_]);
      if fixed then Failed(ModFixedVariable)
      else
        var s1 := SetLoc(s, d.as_, value);
        Done(SetLoc(s1, dest, Stored(s1.locs[dest], fixed)))
    else
      Done(SetLoc(s, dest, Stored(value, IsFixed(d))))
  }

  /** `at` is where a table finds the key; lists look at the index only. */
  function Find(s: State, o: Object, index: Object, at: nat): (r: (Object, bool, Error))
    requires Ok(s) && WfObj(o, s) && PointsAt(o)
  {
    if IsList(o) then
      var items := s.heap[o.as_].items;
      if Type(index) != INT then (o, false, NotIndex)
      else if index.as_ < 0 || index.as_ >= |items| then (o, false, OutOfBounds)
      else (items[index.as_], true, OutOfBounds)
    else
      var entries := s.heap[o.as_].entries;
      if at < |entries| then (entries[at].value, true, KeyNotFound) else (o, false, KeyNotFound)
  }

  function GetIndexTo(s: State, dest: nat, obj: nat, index: nat, at: nat): Outcome
    requires Ok(s) && dest < |s.locs| && obj < |s.locs| && index < |s.locs|
  {
    var o := s.locs[obj];
    if !PointsAt(o) then Failed(NotCollection)
    else
      var (found, ok, error) := Find(s, o, s.locs[index], at);
      if !ok then Failed(error)
      else Done(SetLoc(s, dest, if IsImmut(o) then MakeImmut(Seen(found, true)) else found))
  }

  function SetEntry(entries: seq<Entry>, at: nat, key: Object, value: Object): seq<Entry> {
    if at < |entries| then entries[at := Entry(entries[at].key, value)] else entries + [Entry(key, value)]
  }

  function SetIndexOf(s: State, obj: nat, index: nat, value: nat, at: nat): Outcome
    requires Ok(s) && obj < |s.locs| && index < |s.locs| && value < |s.locs|
  {
    var o, i := s.locs[obj], s.locs[index];
    if !PointsAt(o) then Failed(NotCollection)
    else if IsImmut(o) then Failed(ModImmutValue)
    else if IsList(o) then
      var items := s.heap[o.as_].items;
      if Type(i) != INT then Failed(NotIndex)
      else if i.as_ < 0 || i.as_ >= |items| then Failed(OutOfBounds)
      else Done(SetThing(s, o.as_, ListThing(items[i.as_ := s.locs[value]])))
    else
      Done(SetThing(s, o.as_, TableThing(SetEntry(s.heap[o.as_].entries, at, i, s.locs[value]))))
  }

  function Size(t: Thing): nat {
    if t.ListThing? then |t.items| else |t.entries|
  }

  /** The iterator's current element goes into a register. */
  function Deliver(s: State, it: Iter, varLoc: nat): State
    requires varLoc < |s.locs| && it.addr < |s.heap| && it.pos < Size(s.heap[it.addr])
  {
    match s.heap[it.addr]
    case ListThing(items) => SetLoc(s, varLoc, Taken(items[it.pos], it.flags))
    case TableThing(entries) =>
      SetLoc(Allocate(s, Pair(entries[it.pos])), varLoc, Taken(Handle(LIST, |s.heap|), it.flags))
  }

  function Start(s: State, varLoc: nat, iterable: nat): Outcome
    requires Ok(s) && varLoc < |s.locs| && iterable < |s.locs|
  {
    var o := s.locs[iterable];
    if !PointsAt(o) then Failed(NotIterable)
    else
      var it := Iter(o.as_, GetMutFlags(o), 0);
      if Size(s.heap[o.as_]) == 0 then Done(s)
      else
        var s1 := Deliver(s, it, varLoc);
        Done(SetLoc(s1.(iters := s1.iters + [it]), iterable, Handle(ITER, |s1.iters|)))
  }

  function Update(s: State, varLoc: nat, iterLoc: nat): Outcome
    requires Ok(s) && varLoc < |s.locs| && iterLoc < |s.locs| && Type(s.locs[iterLoc]) == ITER
  {
    var i := s.locs[iterLoc].as_;
    var it := s.iters[i].(pos := s.iters[i].pos + 1);
    var s1 := s.(iters := s.iters[i := it]);
    if it.pos >= Size(s.heap[it.addr]) then Done(s1) else Done(Deliver(s1, it, varLoc))
  }

  /** The elements from `from` on, as an iterator hands them out. */
  function Rest(items: seq<Object>, flags: bv8, from: nat): seq<Object>
    requires from <= |items|
    decreases |items| - from
  {
    if from == |items| then [] else [Taken(items[from], flags)] + Rest(items, flags, from + 1)
  }

  /** `n` elements into consecutive registers. */
  function Spread(s: State, items: seq<Object>, flags: bv8, reg: nat, n: nat): (s': State)
    requires reg + n <= |s.locs| && n <= |items|
    ensures |s'.locs| == |s.locs| && s'.heap == s.heap && s'.iters == s.iters
  {
    if n == 0 then s
    else SetLoc(Spread(s, items, flags, reg, n - 1), reg + n - 1, Taken(items[n - 1], flags))
  }

  /** OP_UNPACK; only emitted for two variables and more. With `last`, the last variable
      gets a list of all values that are left. */
  function UnpackAt(s: State, reg: nat, count: nat, last: bool, ignore: bool): Outcome
    requires Ok(s) && 1 < count && reg + count <= |s.locs|
  {
    var o := s.locs[reg];
    if !PointsAt(o) then Failed(NotCollection)
    else if IsTable(o) then Failed(UnpackTable)
    else
      var items, flags := s.heap[o.as_].items, GetMutFlags(o);
      if |items| < count then Failed(UnpackTooFew)
      else if !last && !ignore && |items| > count then Failed(UnpackTooMany)
      else
        var n := if last then count - 1 else count;
        var s1 := Spread(s, items, flags, reg, n);
        if !last then Done(s1)
        else Done(SetLoc(Allocate(s1, ListThing(Rest(items, flags, n))), reg + n, Handle(LIST, |s1.heap|)))
  }

  function Declared(o: Object, fixed: bool): Object {
    if fixed then DeclaredFix(o) else DeclaredVar(o)
  }

  function DeclareAll(s: State, reg: nat, count: nat, fixed: bool): (s': State)
    requires reg + count <= |s.locs|
    ensures |s'.locs| == |s.locs| && s'.heap == s.heap && s'.iters == s.iters
  {
    if count == 0 then s
    else
      var s1 := DeclareAll(s, reg, count - 1, fixed);
      SetLoc(s1, reg + count - 1, Declared(s1.locs[reg + count - 1], fixed))
  }

  /** The list methods append, pop and clear. */
  function ChangeList(s: State, obj: nat, items: seq<Object>): Outcome
    requires Ok(s) && obj < |s.locs| && IsList(s.locs[obj])
  {
    if IsImmut(s.locs[obj]) then Failed(ModImmutValue)
    else Done(SetThing(s, s.locs[obj].as_, ListThing(items)))
  }

  function Items(s: State, loc: nat): seq<Object>
    requires Ok(s) && loc < |s.locs| && IsList(s.locs[loc])
  {
    s.heap[s.locs[loc].as_].items
  }

  /** What the compiler and the run-time checks guarantee when `op` is executed. In
      particular OP_EXT_LIST, which looks at no flag, only extends the list that was
      just made for a literal. */
  predicate Legal(s: State, op: Op) {
    var n := |s.locs|;
    match op
    case Load(dest, o) => dest < n && !PointsAt(o) && Type(o) != REF && Type(o) != ITER && !o.view
    case NewList(dest) => dest < n
    case NewTable(dest) => dest < n
    case ExtList(list, start, count) => list < n && start + count <= n && IsList(s.locs[list]) && !IsImmut(s.locs[list])
    case Copy(dest, src, _) => dest < n && src < n
    case Move(dest, src) => dest < n && src < n
    case Assign(dest, src, _) => dest < n && src < n
    case MakeRef(dest, loc) => dest < n && loc < n
    case GetIndex(dest, obj, index, _) => dest < n && obj < n && index < n
    case SetIndex(obj, index, value, _) => obj < n && index < n && value < n
    case StartIter(varLoc, iterable) => varLoc < n && iterable < n
    case UpdateIter(varLoc, iterLoc) => varLoc < n && iterLoc < n && Type(s.locs[iterLoc]) == ITER
    case Unpack(reg, count, _, _) => 1 < count && reg + count <= n
    case Declare(reg, count, _) => reg + count <= n
    case Immut(reg) => reg < n
    case Mut(reg) => reg < n
    case Append(obj, value) => obj < n && value < n && IsList(s.locs[obj])
    case Pop(dest, obj) => dest < n && obj < n && IsList(s.locs[obj]) && Ok(s) && Items(s, obj) != []
    case Clear(obj) => obj < n && IsList(s.locs[obj])
  }

  function Step(s: State, op: Op): Outcome
    requires Ok(s) && Legal(s, op)
  {
    match op
    case Load(dest, o) => Done(SetLoc(s, dest, o))
    case NewList(dest) => Done(SetLoc(Allocate(s, ListThing([])), dest, Handle(LIST, |s.heap|)))
    case NewTable(dest) => Done(SetLoc(Allocate(s, TableThing([])), dest, Handle(TABLE, |s.heap|)))
    case ExtList(list, start, count) =>
      Done(SetThing(s, s.locs[list].as_, ListThing(Items(s, list) + s.locs[start..start + count])))
    case Copy(dest, src, deref) => Done(SetLoc(s, dest, if deref then Deref(s, s.locs[src]) else s.locs[src]))
    case Move(dest, src) =>
      if dest == src then Done(s)
      else Done(SetLoc(SetLoc(s, dest, s.locs[src]), src, Handle(INVALID, 0)))
    case Assign(dest, src, deref) => AssignTo(s, dest, src, deref)
    case MakeRef(dest, loc) => Done(SetLoc(s, dest, Handle(REF, loc)))
    case GetIndex(dest, obj, index, at) => GetIndexTo(s, dest, obj, index, at)
    case SetIndex(obj, index, value, at) => SetIndexOf(s, obj, index, value, at)
    case StartIter(varLoc, iterable) => Start(s, varLoc, iterable)
    case UpdateIter(varLoc, iterLoc) => Update(s, varLoc, iterLoc)
    case Unpack(reg, count, last, ignore) => UnpackAt(s, reg, count, last, ignore)
    case Declare(reg, count, fixed) => Done(DeclareAll(s, reg, count, fixed))
    case Immut(reg) => Done(SetLoc(s, reg, MakeImmut(s.locs[reg])))
    case Mut(reg) =>
      if IsImmut(s.locs[reg]) then Failed(ImmutToMut) else Done(SetLoc(s, reg, MakeMut(s.locs[reg])))
    case Append(obj, value) => ChangeList(s, obj, Items(s, obj) + [s.locs[value]])
    case Pop(dest, obj) =>
      var items := Items(s, obj);
      var r := ChangeList(s, obj, items[..|items| - 1]);
      if r.Failed? then r else Done(SetLoc(r.s, dest, items[|items| - 1]))
    case Clear(obj) => ChangeList(s, obj, [])
  }

  /* Immutability never washes off. */

  /** A handle taken out of an immutable collection is immutable, wherever it went. */
  predicate Held(o: Object) {
    o.view && HasMutState(o) ==> IsImmut(o)
  }

  /** Handles to the guarded lists and tables are immutable. */
  predicate Shielded(o: Object, P: set<nat>) {
    PointsAt(o) && o.as_ in P ==> IsImmut(o)
  }

  predicate Good(o: Object, s: State, P: set<nat>) {
    WfObj(o, s) && Held(o) && Shielded(o, P)
  }

  /** Inside a guarded collection elements may be mutable: nobody can get at them.
      The keys of tables are made immutable when they are handed out. */
  predicate GoodThing(t: Thing, s: State, P: set<nat>, guarded: bool) {
    match t
    case ListThing(items) =>
      forall k | 0 <= k < |items| :: WfObj(items[k], s) && Held(items[k]) && (guarded || Shielded(items[k], P))
    case TableThing(entries) =>
      forall k | 0 <= k < |entries| :: GoodEntry(entries[k], s, P, guarded)
  }

  predicate GoodEntry(e: Entry, s: State, P: set<nat>, guarded: bool) {
    WfObj(e.key, s) && Held(e.key) && WfObj(e.value, s) && Held(e.value) && (guarded || Shielded(e.value, P))
  }

  predicate GoodIter(it: Iter, s: State, P: set<nat>) {
    it.addr < |s.heap| && it.flags & MUT_FLAGS == it.flags && (it.addr in P ==> it.flags == MUT_FLAGS)
  }

  /** The guard `P` holds: its lists and tables are only reached through immutable handles. */
  ghost predicate Guarded(s: State, P: set<nat>) {
    && (forall i | 0 <= i < |s.locs| :: Good(s.locs[i], s, P))
    && (forall a | 0 <= a < |s.heap| :: GoodThing(s.heap[a], s, P, a in P))
    && (forall i | 0 <= i < |s.iters| :: GoodIter(s.iters[i], s, P))
    && (forall a | a in P :: a < |s.heap|)
  }

  lemma GuardedOk(s: State, P: set<nat>)
    requires Guarded(s, P)
    ensures Ok(s)
  {
    hide Held, Shielded, WfObj;
    forall i | 0 <= i < |s.locs| ensures WfObj(s.locs[i], s) {
      assert Good(s.locs[i], s, P);
    }
    forall a | 0 <= a < |s.heap| ensures WfThing(s.heap[a], s) {
      assert GoodThing(s.heap[a], s, P, a in P);
    }
    forall i | 0 <= i < |s.iters| ensures s.iters[i].addr < |s.heap| {
      assert GoodIter(s.iters[i], s, P);
    }
  }

  /** Everything addressed before is still there. */
  predicate Grown(s: State, s': State) {
    && |s.locs| == |s'.locs| && |s.heap| <= |s'.heap| && |s.iters| <= |s'.iters|
    && (forall a | 0 <= a < |s.heap| :: s.heap[a].ListThing? == s'.heap[a].ListThing?)
  }

  predicate Wider(s: State, P: set<nat>, P': set<nat>) {
    P <= P' && forall a | a in P' && a !in P :: a >= |s.heap|
  }

  lemma GoodMoves(o: Object, s: State, s': State, P: set<nat>, P': set<nat>)
    requires Good(o, s, P) && Grown(s, s') && Wider(s, P, P')
    ensures Good(o, s', P')
  {
  }

  lemma GoodThingMoves(t: Thing, s: State, s': State, P: set<nat>, P': set<nat>, guarded: bool)
    requires GoodThing(t, s, P, guarded) && Grown(s, s') && Wider(s, P, P')
    ensures GoodThing(t, s', P', guarded)
  {
    match t
    case ListThing(items) =>
      forall k | 0 <= k < |items| ensures WfObj(items[k], s') && (guarded || Shielded(items[k], P')) {
        assert WfObj(items[k], s);
      }
    case TableThing(entries) =>
      forall k | 0 <= k < |entries| ensures GoodEntry(entries[k], s', P', guarded) {
        assert GoodEntry(entries[k], s, P, guarded);
      }
  }

  lemma SetLocKeeps(s: State, P: set<nat>, i: nat, o: Object)
    requires Guarded(s, P) && i < |s.locs| && Good(o, s, P)
    ensures Guarded(SetLoc(s, i, o), P)
  {
    hide Good, GoodThing;
    var s' := SetLoc(s, i, o);
    forall j | 0 <= j < |s.locs| ensures Good(s'.locs[j], s', P) {
      GoodMoves(if j == i then o else s.locs[j], s, s', P, P);
    }
    forall a | 0 <= a < |s.heap| ensures GoodThing(s'.heap[a], s', P, a in P) {
      GoodThingMoves(s.heap[a], s, s', P, P, a in P);
    }
    forall j | 0 <= j < |s.iters| ensures GoodIter(s'.iters[j], s', P) {
      assert GoodIter(s.iters[j], s, P);
    }
  }

  lemma SetThingKeeps(s: State, P: set<nat>, i: nat, t: Thing)
    requires Guarded(s, P) && i < |s.heap| && i !in P
    requires GoodThing(t, s, P, false) && t.ListThing? == s.heap[i].ListThing?
    ensures Guarded(SetThing(s, i, t), P)
  {
    hide Good, GoodThing;
    var s' := SetThing(s, i, t);
    forall j | 0 <= j < |s.locs| ensures Good(s'.locs[j], s', P) {
      GoodMoves(s.locs[j], s, s', P, P);
    }
    forall a | 0 <= a < |s.heap| ensures GoodThing(s'.heap[a], s', P, a in P) {
      GoodThingMoves(if a == i then t else s.heap[a], s, s', P, P, a in P);
    }
    forall j | 0 <= j < |s.iters| ensures GoodIter(s'.iters[j], s', P) {
      assert GoodIter(s.iters[j], s, P);
    }
  }

  /** A new list or table; `guarded` takes it under the guard. */
  lemma AllocateKeeps(s: State, P: set<nat>, t: Thing, guarded: bool)
    requires Guarded(s, P) && GoodThing(t, s, P, guarded)
    ensures Guarded(Allocate(s, t), if guarded then P + {|s.heap|} else P)
  {
    hide Good, GoodThing;
    var s', P' := Allocate(s, t), if guarded then P + {|s.heap|} else P;
    assert Grown(s, s') && Wider(s, P, P');
    forall j | 0 <= j < |s.locs| ensures Good(s'.locs[j], s', P') {
      GoodMoves(s.locs[j], s, s', P, P');
    }
    forall a | 0 <= a < |s'.heap| ensures GoodThing(s'.heap[a], s', P', a in P') {
      if a < |s.heap| {
        GoodThingMoves(s.heap[a], s, s', P, P', a in P);
      } else {
        GoodThingMoves(t, s, s', P, P', guarded);
      }
    }
    forall j | 0 <= j < |s.iters| ensures GoodIter(s'.iters[j], s', P') {
      assert GoodIter(s.iters[j], s, P);
    }
  }

  lemma SetIterKeeps(s: State, P: set<nat>, iters: seq<Iter>)
    requires Guarded(s, P) && |iters| >= |s.iters|
    requires forall j | 0 <= j < |iters| :: GoodIter(iters[j], s, P)
    ensures Guarded(s.(iters := iters), P)
  {
    hide Good, GoodThing;
    var s' := s.(iters := iters);
    forall j | 0 <= j < |s.locs| ensures Good(s'.locs[j], s', P) {
      GoodMoves(s.locs[j], s, s', P, P);
    }
    forall a | 0 <= a < |s.heap| ensures GoodThing(s'.heap[a], s', P, a in P) {
      GoodThingMoves(s.heap[a], s, s', P, P, a in P);
    }
    forall j | 0 <= j < |iters| ensures GoodIter(s'.iters[j], s', P) {
      assert GoodIter(iters[j], s, P);
    }
  }

  /* Handles on their way. */

  lemma KeepsGood(o: Object, p: Object, s: State, P: set<nat>)
    requires Good(o, s, P) && Keeps(o, p)
    ensures Good(p, s, P)
  {
    hide Keeps, IsImmut, Type;
    KeepsParts(o, p);
  }

  lemma KeepsParts(o: Object, p: Object)
    requires Keeps(o, p)
    ensures Type(o) == Type(p) && o.as_ == p.as_ && o.view == p.view && (IsImmut(o) ==> IsImmut(p))
  {
  }

  lemma MutGood(o: Object, s: State, P: set<nat>)
    requires Good(o, s, P) && !IsImmut(o)
    ensures Good(MakeMut(o), s, P)
  {
    hide IsImmut, MakeMut, Type;
    MarkedMeans(o);
  }

  /** Elements of an immutable collection come out immutable. */
  lemma FromImmut(o: Object, s: State, P: set<nat>)
    requires WfObj(o, s) && Held(o)
    ensures Good(MakeImmut(Seen(o, true)), s, P)
  {
    MarkedMeans(Seen(o, true));
  }

  lemma PointsHasState(o: Object)
    requires PointsAt(o)
    ensures HasMutState(o)
  {
  }

  lemma TakenGood(o: Object, flags: bv8, s: State, P: set<nat>)
    requires WfObj(o, s) && Held(o) && flags & MUT_FLAGS == flags && (flags == MUT_FLAGS || Shielded(o, P))
    ensures Good(Taken(o, flags), s, P)
    ensures flags == MUT_FLAGS && HasMutState(o) ==> IsImmut(Taken(o, flags))
  {
    var p := Seen(o, flags == MUT_FLAGS);
    SeenSame(o, flags == MUT_FLAGS);
    TakenMeans(p, flags);
    hide Keeps, IsImmut, Type, SetMutFlags;
    KeepsParts(p, SetMutFlags(p, flags));
  }

  lemma SeenSame(o: Object, immut: bool)
    ensures var p := Seen(o, immut); Type(p) == Type(o) && p.as_ == o.as_ && IsImmut(p) == IsImmut(o) && p.view == (o.view || immut)
  {
  }

  /* Each instruction keeps the guard. */

  /** What the guarded addresses hold is the same. */
  ghost predicate Frozen(s: State, s': State, P: set<nat>) {
    forall a | a in P :: a < |s.heap| && a < |s'.heap| && s'.heap[a] == s.heap[a]
  }

  ghost predicate Kept(s: State, r: Outcome, P: set<nat>, P': set<nat>) {
    r.Done? ==> Guarded(r.s, P') && Frozen(s, r.s, P)
  }

  lemma AssignKeeps(s: State, P: set<nat>, dest: nat, src: nat, deref: bool)
    requires Guarded(s, P) && Ok(s) && dest < |s.locs| && src < |s.locs|
    ensures Kept(s, AssignTo(s, dest, src, deref), P, P)
  {
    hide Guarded, Stored, Keeps, Type, IsFixed, Ok;
    LocGood(s, P, dest);
    LocGood(s, P, src);
    var d, value := s.locs[dest], if deref then Deref(s, s.locs[src]) else s.locs[src];
    if Type(s.locs[src]) == REF {
      LocGood(s, P, s.locs[src].as_);
    }
    if Type(d) == REF {
      LocGood(s, P, d.as_);
      SetLocKeeps(s, P, d.as_, value);
      var s1 := SetLoc(s, d.as_, value);
      LocGood(s1, P, dest);
      StoredMeans(s1.locs[dest], false);
      KeepsGood(s1.locs[dest], Stored(s1.locs[dest], false), s1, P);
      SetLocKeeps(s1, P, dest, Stored(s1.locs[dest], false));
    } else {
      StoredMeans(value, IsFixed(d));
      KeepsGood(value, Stored(value, IsFixed(d)), s, P);
      SetLocKeeps(s, P, dest, Stored(value, IsFixed(d)));
    }
    var r := AssignTo(s, dest, src, deref);
    if r.Done? {
      HeapFrozen(s, r.s, P);
    }
  }

  lemma LocGood(s: State, P: set<nat>, i: nat)
    requires Guarded(s, P) && i < |s.locs|
    ensures Good(s.locs[i], s, P)
  {
  }

  lemma HeapFrozen(s: State, s': State, P: set<nat>)
    requires Guarded(s, P) && |s'.heap| >= |s.heap|
    requires forall a | 0 <= a < |s.heap| :: s'.heap[a] == s.heap[a]
    ensures Frozen(s, s', P)
  {
  }

  lemma FindGood(s: State, P: set<nat>, o: Object, index: Object, at: nat)
    requires Guarded(s, P) && Ok(s) && Good(o, s, P) && PointsAt(o)
    ensures var r := Find(s, o, index, at);
            r.1 ==> WfObj(r.0, s) && Held(r.0) && (IsImmut(o) || Shielded(r.0, P))
  {
    hide IsImmut, Held, Type, Shielded;
    assert o.as_ in P ==> IsImmut(o) by {
      ShieldedPoint(o, P);
    }
    assert GoodThing(s.heap[o.as_], s, P, o.as_ in P);
    if IsTable(o) && at < |s.heap[o.as_].entries| {
      assert GoodEntry(s.heap[o.as_].entries[at], s, P, o.as_ in P);
    }
  }

  lemma ShieldedPoint(o: Object, P: set<nat>)
    requires Shielded(o, P) && PointsAt(o)
    ensures o.as_ in P ==> IsImmut(o)
  {
  }

  lemma GetIndexKeeps(s: State, P: set<nat>, dest: nat, obj: nat, index: nat, at: nat)
    requires Guarded(s, P) && Ok(s) && dest < |s.locs| && obj < |s.locs| && index < |s.locs|
    ensures Kept(s, GetIndexTo(s, dest, obj, index, at), P, P)
  {
    hide Guarded, IsImmut, Held, Shielded, Type, Find, Ok;
    LocGood(s, P, obj);
    var o := s.locs[obj];
    if PointsAt(o) {
      FindGood(s, P, o, s.locs[index], at);
      var r := Find(s, o, s.locs[index], at);
      if r.1 {
        var found := if IsImmut(o) then MakeImmut(Seen(r.0, true)) else r.0;
        if IsImmut(o) {
          FromImmut(r.0, s, P);
        }
        SetLocKeeps(s, P, dest, found);
        HeapFrozen(s, SetLoc(s, dest, found), P);
      }
    }
  }

  lemma SetIndexKeeps(s: State, P: set<nat>, obj: nat, index: nat, value: nat, at: nat)
    requires Guarded(s, P) && Ok(s) && obj < |s.locs| && index < |s.locs| && value < |s.locs|
    ensures Kept(s, SetIndexOf(s, obj, index, value, at), P, P)
  {
    hide Guarded, IsImmut, Held, Shielded, Type, Ok;
    LocGood(s, P, obj);
    LocGood(s, P, index);
    LocGood(s, P, value);
    var o, r := s.locs[obj], SetIndexOf(s, obj, index, value, at);
    if r.Done? {
      ShieldedPoint(o, P);
      ThingGood(s, P, o.as_);
      var t := r.s.heap[o.as_];
      assert GoodThing(t, s, P, false) by {
        if t.TableThing? {
          forall k | 0 <= k < |t.entries| ensures GoodEntry(t.entries[k], s, P, false) {
            if k < |s.heap[o.as_].entries| {
              assert GoodEntry(s.heap[o.as_].entries[k], s, P, false);
            }
          }
        }
      }
      SetThingKeeps(s, P, o.as_, t);
      UpdateFrozen(s, P, o.as_, t);
    }
  }

  lemma ThingGood(s: State, P: set<nat>, a: nat)
    requires Guarded(s, P) && a < |s.heap|
    ensures GoodThing(s.heap[a], s, P, a in P)
  {
  }

  lemma UpdateFrozen(s: State, P: set<nat>, i: nat, t: Thing)
    requires Guarded(s, P) && i < |s.heap| && i !in P
    ensures Frozen(s, SetThing(s, i, t), P)
  {
  }

  lemma ExtendKeeps(s: State, P: set<nat>, list: nat, items: seq<Object>)
    requires Guarded(s, P) && Ok(s) && list < |s.locs| && IsList(s.locs[list]) && !IsImmut(s.locs[list])
    requires forall k | 0 <= k < |items| :: Good(items[k], s, P)
    ensures var s' := SetThing(s, s.locs[list].as_, ListThing(items)); Guarded(s', P) && Frozen(s, s', P)
  {
    hide Guarded, IsImmut, Held, Shielded, Type, Ok;
    LocGood(s, P, list);
    var o := s.locs[list];
    ShieldedPoint(o, P);
    forall k | 0 <= k < |items| ensures WfObj(items[k], s) && Held(items[k]) && Shielded(items[k], P) {
      assert Good(items[k], s, P);
    }
    SetThingKeeps(s, P, o.as_, ListThing(items));
    UpdateFrozen(s, P, o.as_, ListThing(items));
  }

  /** A list that may still change holds nothing but shielded handles. */
  lemma ItemsGood(s: State, P: set<nat>, list: nat)
    requires Guarded(s, P) && Ok(s) && list < |s.locs| && IsList(s.locs[list]) && !IsImmut(s.locs[list])
    ensures forall k | 0 <= k < |Items(s, list)| :: Good(Items(s, list)[k], s, P)
  {
    hide IsImmut, Held, Type, Shielded, Ok;
    LocGood(s, P, list);
    ShieldedPoint(s.locs[list], P);
    ThingGood(s, P, s.locs[list].as_);
  }

  lemma SameKinds(s: State, list: nat, t: Thing)
    requires Ok(s) && list < |s.locs| && IsList(s.locs[list]) && t.ListThing?
    ensures 0 <= s.locs[list].as_ < |s.heap| && Grown(s, SetThing(s, s.locs[list].as_, t))
  {
  }

  lemma ListThere(s: State, list: nat)
    requires Ok(s) && list < |s.locs| && IsList(s.locs[list])
    ensures 0 <= s.locs[list].as_ < |s.heap| && s.heap[s.locs[list].as_].ListThing?
  {
  }

  lemma ListMethodsKeep(s: State, P: set<nat>, op: Op)
    requires Guarded(s, P) && Ok(s) && Legal(s, op) && (op.ExtList? || op.Append? || op.Pop? || op.Clear?)
    ensures Kept(s, Step(s, op), P, P)
  {
    hide Guarded, IsImmut, Good, Ok, Type;
    var list := if op.ExtList? then op.list else op.obj;
    if !IsImmut(s.locs[list]) {
      ItemsGood(s, P, list);
      forall i | 0 <= i < |s.locs| ensures Good(s.locs[i], s, P) {
        LocGood(s, P, i);
      }
      var items := Items(s, list);
      match op
      case ExtList(_, start, count) => ExtendKeeps(s, P, list, items + s.locs[start..start + count]);
      case Append(_, value) => ExtendKeeps(s, P, list, items + [s.locs[value]]);
      case Clear(_) => ExtendKeeps(s, P, list, []);
      case Pop(dest, _) =>
        ExtendKeeps(s, P, list, items[..|items| - 1]);
        SameKinds(s, list, ListThing(items[..|items| - 1]));
        var s1 := SetThing(s, s.locs[list].as_, ListThing(items[..|items| - 1]));
        GoodMoves(items[|items| - 1], s, s1, P, P);
        SetLocKeeps(s1, P, dest, items[|items| - 1]);
    }
  }

  /* Iterators. The pair handed out for an entry of a guarded table may hold a mutable
     value, so the pair comes under the guard as well. */

  ghost function DeliverGuard(s: State, P: set<nat>, it: Iter): set<nat>
    requires it.addr < |s.heap|
  {
    if s.heap[it.addr].TableThing? && it.flags == MUT_FLAGS then P + {|s.heap|} else P
  }

  lemma DeliverKeeps(s: State, P: set<nat>, it: Iter, varLoc: nat)
    requires Guarded(s, P) && GoodIter(it, s, P) && varLoc < |s.locs| && it.pos < Size(s.heap[it.addr])
    ensures var s' := Deliver(s, it, varLoc);
            Guarded(s', DeliverGuard(s, P, it)) && Frozen(s, s', P) && Grown(s, s')
            && |s'.locs| == |s.locs| && s'.iters == s.iters
  {
    hide Guarded, IsImmut, Held, Type, Shielded, WfObj, Taken;
    ThingGood(s, P, it.addr);
    HeapFrozen(s, Deliver(s, it, varLoc), P);
    match s.heap[it.addr]
    case ListThing(items) =>
      TakenGood(items[it.pos], it.flags, s, P);
      SetLocKeeps(s, P, varLoc, Taken(items[it.pos], it.flags));
    case TableThing(entries) =>
      var e, guarded := entries[it.pos], it.flags == MUT_FLAGS;
      assert GoodEntry(e, s, P, it.addr in P);
      PairGood(e, s, P, guarded);
      AllocateKeeps(s, P, Pair(e), guarded);
      var s1, P' := Allocate(s, Pair(e)), DeliverGuard(s, P, it);
      FreshHandle(s, P, LIST, Pair(e));
      TakenGood(Handle(LIST, |s.heap|), it.flags, s1, P');
      SetLocKeeps(s1, P', varLoc, Taken(Handle(LIST, |s.heap|), it.flags));
  }

  lemma KeyGood(o: Object, s: State, P: set<nat>)
    requires WfObj(o, s)
    ensures Good(MakeImmut(o), s, P)
  {
    MarkedMeans(o);
  }

  lemma PairGood(e: Entry, s: State, P: set<nat>, guarded: bool)
    requires WfObj(e.key, s) && WfObj(e.value, s) && Held(e.value) && (guarded || Shielded(e.value, P))
    ensures GoodThing(Pair(e), s, P, guarded)
  {
    hide IsImmut, Held, MakeImmut, Type, Shielded, WfObj;
    KeyGood(e.key, s, P);
  }

  lemma FreshHandle(s: State, P: set<nat>, kind: bv8, t: Thing)
    requires Guarded(s, P) && ((kind == LIST && t.ListThing?) || (kind == TABLE && t.TableThing?))
    ensures var o := Handle(kind, |s.heap|);
            WfObj(o, Allocate(s, t)) && Held(o) && Type(o) == kind && (Guarded(s, P) ==> Shielded(o, P))
  {
  }

  lemma StartKeeps(s: State, P: set<nat>, varLoc: nat, iterable: nat) returns (P': set<nat>)
    requires Guarded(s, P) && Ok(s) && varLoc < |s.locs| && iterable < |s.locs|
    ensures Wider(s, P, P') && Kept(s, Start(s, varLoc, iterable), P, P')
  {
    hide Guarded, IsImmut, Held, Type, Shielded, Ok, Deliver;
    P' := P;
    LocGood(s, P, iterable);
    var o := s.locs[iterable];
    if PointsAt(o) {
      var it := Iter(o.as_, GetMutFlags(o), 0);
      IterGood(s, P, o);
      if Size(s.heap[o.as_]) == 0 {
        HeapFrozen(s, s, P);
      } else {
        P' := DeliverGuard(s, P, it);
        DeliverKeeps(s, P, it, varLoc);
        var s1 := Deliver(s, it, varLoc);
        IterHandle(s, s1, P, P', it, iterable);
      }
    }
  }

  lemma IterGood(s: State, P: set<nat>, o: Object)
    requires Guarded(s, P) && Good(o, s, P) && PointsAt(o)
    ensures GoodIter(Iter(o.as_, GetMutFlags(o), 0), s, P)
  {
    FlagsFit(o);
    PointsHasState(o);
    ShieldedPoint(o, P);
    hide GetMutFlags, HasMutState, IsImmut;
  }

  lemma IterHandle(s: State, s1: State, P: set<nat>, P': set<nat>, it: Iter, iterable: nat)
    requires Guarded(s1, P') && GoodIter(it, s, P) && Grown(s, s1) && Wider(s, P, P') && iterable < |s1.locs|
    requires Frozen(s, s1, P)
    ensures var s2 := SetLoc(s1.(iters := s1.iters + [it]), iterable, Handle(ITER, |s1.iters|));
            Guarded(s2, P') && Frozen(s, s2, P)
  {
    hide Good, GoodThing;
    var iters := s1.iters + [it];
    forall j | 0 <= j < |iters| ensures GoodIter(iters[j], s1, P') {
      if j < |s1.iters| {
        assert GoodIter(s1.iters[j], s1, P');
      }
    }
    SetIterKeeps(s1, P', iters);
    PlainGood(Handle(ITER, |s1.iters|), s1.(iters := iters), P');
    SetLocKeeps(s1.(iters := iters), P', iterable, Handle(ITER, |s1.iters|));
  }

  lemma PlainGood(o: Object, s: State, P: set<nat>)
    requires !PointsAt(o) && !o.view
    requires Type(o) == REF ==> 0 <= o.as_ < |s.locs|
    requires Type(o) == ITER ==> 0 <= o.as_ < |s.iters|
    ensures Good(o, s, P)
  {
  }

  lemma UpdateKeeps(s: State, P: set<nat>, varLoc: nat, iterLoc: nat) returns (P': set<nat>)
    requires Guarded(s, P) && Ok(s) && varLoc < |s.locs| && iterLoc < |s.locs| && Type(s.locs[iterLoc]) == ITER
    ensures Wider(s, P, P') && Kept(s, Update(s, varLoc, iterLoc), P, P')
  {
    hide Good, GoodThing, Type, Deliver;
    var i := s.locs[iterLoc].as_;
    var it := s.iters[i].(pos := s.iters[i].pos + 1);
    var s1 := s.(iters := s.iters[i := it]);
    forall j | 0 <= j < |s.iters| ensures GoodIter(s1.iters[j], s, P) {
      assert GoodIter(s.iters[j], s, P);
    }
    SetIterKeeps(s, P, s1.iters);
    P' := P;
    if it.pos < Size(s.heap[it.addr]) {
      P' := DeliverGuard(s1, P, it);
      DeliverKeeps(s1, P, it, varLoc);
    }
  }

  /* Unpacking. */

  lemma {:induction false} SpreadKeeps(s: State, P: set<nat>, items: seq<Object>, flags: bv8, reg: nat, n: nat)
    requires Guarded(s, P) && reg + n <= |s.locs| && n <= |items| && flags & MUT_FLAGS == flags
    requires forall k | 0 <= k < |items| :: WfObj(items[k], s) && Held(items[k]) && (flags == MUT_FLAGS || Shielded(items[k], P))
    ensures var s' := Spread(s, items, flags, reg, n);
            Guarded(s', P) && s'.heap == s.heap && s'.iters == s.iters
    decreases n
  {
    hide Guarded, Good, Held, Type, Shielded, Taken;
    if n > 0 {
      SpreadKeeps(s, P, items, flags, reg, n - 1);
      var s1 := Spread(s, items, flags, reg, n - 1);
      TakenGood(items[n - 1], flags, s, P);
      assert Grown(s, s1);
      GoodMoves(Taken(items[n - 1], flags), s, s1, P, P);
      SetLocKeeps(s1, P, reg + n - 1, Taken(items[n - 1], flags));
    }
  }

  lemma {:induction false} RestGood(s: State, P: set<nat>, items: seq<Object>, flags: bv8, from: nat)
    requires flags & MUT_FLAGS == flags && from <= |items|
    requires forall k | 0 <= k < |items| :: WfObj(items[k], s) && Held(items[k]) && (flags == MUT_FLAGS || Shielded(items[k], P))
    ensures forall k | 0 <= k < |Rest(items, flags, from)| :: Good(Rest(items, flags, from)[k], s, P)
    decreases |items| - from
  {
    hide Good, Held, Type, Shielded, Taken, WfObj;
    if from < |items| {
      TakenGood(items[from], flags, s, P);
      RestGood(s, P, items, flags, from + 1);
    }
  }

  lemma UnpackKeeps(s: State, P: set<nat>, reg: nat, count: nat, last: bool, ignore: bool)
    requires Guarded(s, P) && Ok(s) && 1 < count && reg + count <= |s.locs|
    ensures Kept(s, UnpackAt(s, reg, count, last, ignore), P, P)
  {
    hide Guarded, Held, Type, Shielded, Taken, Ok, GetMutFlags, IsImmut, GoodThing, Rest, Spread;
    LocGood(s, P, reg);
    var o, r := s.locs[reg], UnpackAt(s, reg, count, last, ignore);
    if r.Done? {
      var items, flags := s.heap[o.as_].items, GetMutFlags(o);
      ItemsHeld(s, P, o);
      var n := if last then count - 1 else count;
      SpreadKeeps(s, P, items, flags, reg, n);
      var s1 := Spread(s, items, flags, reg, n);
      HeapFrozen(s, s1, P);
      if last {
        RestGood(s, P, items, flags, n);
        var rest := Rest(items, flags, n);
        RestThing(s, s1, P, rest);
        AllocateKeeps(s1, P, ListThing(rest), false);
        FreshHandle(s1, P, LIST, ListThing(rest));
        SetLocKeeps(Allocate(s1, ListThing(rest)), P, reg + n, Handle(LIST, |s1.heap|));
        HeapFrozen(s, r.s, P);
      }
    }
  }

  lemma RestThing(s: State, s1: State, P: set<nat>, rest: seq<Object>)
    requires forall k | 0 <= k < |rest| :: Good(rest[k], s, P)
    requires |s1.locs| == |s.locs| && s1.heap == s.heap && s1.iters == s.iters
    ensures GoodThing(ListThing(rest), s1, P, false)
  {
    hide Held, Shielded, Type;
    forall k | 0 <= k < |rest| ensures WfObj(rest[k], s1) && Held(rest[k]) && Shielded(rest[k], P) {
      assert Good(rest[k], s, P);
    }
  }

  lemma ItemsHeld(s: State, P: set<nat>, o: Object)
    requires Guarded(s, P) && Good(o, s, P) && IsList(o)
    ensures GetMutFlags(o) & MUT_FLAGS == GetMutFlags(o)
    ensures var items := s.heap[o.as_].items;
            forall k | 0 <= k < |items| ::
              WfObj(items[k], s) && Held(items[k]) && (GetMutFlags(o) == MUT_FLAGS || Shielded(items[k], P))
  {
    FlagsFit(o);
    PointsHasState(o);
    ShieldedPoint(o, P);
    ThingGood(s, P, o.as_);
    hide GetMutFlags, HasMutState, IsImmut, Held, Shielded;
  }

  lemma {:induction false} DeclareKeeps(s: State, P: set<nat>, reg: nat, count: nat, fixed: bool)
    requires Guarded(s, P) && reg + count <= |s.locs|
    ensures var s' := DeclareAll(s, reg, count, fixed); Guarded(s', P) && s'.heap == s.heap
    decreases count
  {
    hide Guarded, Good, DeclaredVar, DeclaredFix;
    if count > 0 {
      DeclareKeeps(s, P, reg, count - 1, fixed);
      var s1 := DeclareAll(s, reg, count - 1, fixed);
      var o := s1.locs[reg + count - 1];
      LocGood(s1, P, reg + count - 1);
      DeclaredMeans(o);
      KeepsGood(o, Declared(o, fixed), s1, P);
      SetLocKeeps(s1, P, reg + count - 1, Declared(o, fixed));
    }
  }

  lemma FreshKeeps(s: State, P: set<nat>, dest: nat, kind: bv8, t: Thing)
    requires Guarded(s, P) && dest < |s.locs|
    requires (kind == LIST && t == ListThing([])) || (kind == TABLE && t == TableThing([]))
    ensures var s' := SetLoc(Allocate(s, t), dest, Handle(kind, |s.heap|)); Guarded(s', P) && Frozen(s, s', P)
  {
    hide Guarded, Held, Shielded, Type, WfObj;
    AllocateKeeps(s, P, t, false);
    FreshHandle(s, P, kind, t);
    SetLocKeeps(Allocate(s, t), P, dest, Handle(kind, |s.heap|));
    HeapFrozen(s, SetLoc(Allocate(s, t), dest, Handle(kind, |s.heap|)), P);
  }

  /** The instructions that touch registers only. */
  lemma RegistersKeep(s: State, P: set<nat>, op: Op)
    requires Guarded(s, P) && Ok(s) && Legal(s, op)
    requires op.Load? || op.Copy? || op.Move? || op.MakeRef? || op.Declare? || op.Immut? || op.Mut?
    ensures Kept(s, Step(s, op), P, P)
  {
    hide Guarded, Good, Ok, MakeImmut, MakeMut, IsImmut, Type, Declared;
    forall i | 0 <= i < |s.locs| ensures Good(s.locs[i], s, P) {
      LocGood(s, P, i);
    }
    var r := Step(s, op);
    match op {
      case Load(dest, o) =>
        PlainGood(o, s, P);
        SetLocKeeps(s, P, dest, o);
      case Copy(dest, src, deref) =>
        DerefGood(s, P, src);
        SetLocKeeps(s, P, dest, if deref then Deref(s, s.locs[src]) else s.locs[src]);
      case Move(dest, src) =>
        if dest != src {
          var none := Handle(INVALID, 0);
          PlainInvalid();
          SetLocKeeps(s, P, dest, s.locs[src]);
          PlainGood(none, SetLoc(s, dest, s.locs[src]), P);
          SetLocKeeps(SetLoc(s, dest, s.locs[src]), P, src, none);
        }
      case MakeRef(dest, loc) =>
        PlainRef(loc);
        PlainGood(Handle(REF, loc), s, P);
        SetLocKeeps(s, P, dest, Handle(REF, loc));
      case Declare(reg, count, fixed) =>
        DeclareKeeps(s, P, reg, count, fixed);
      case Immut(reg) =>
        MarkedMeans(s.locs[reg]);
        KeepsGood(s.locs[reg], MakeImmut(s.locs[reg]), s, P);
        SetLocKeeps(s, P, reg, MakeImmut(s.locs[reg]));
      case Mut(reg) =>
        if !IsImmut(s.locs[reg]) {
          MutGood(s.locs[reg], s, P);
          SetLocKeeps(s, P, reg, MakeMut(s.locs[reg]));
        }
    }
    if r.Done? {
      HeapFrozen(s, r.s, P);
    }
  }

  lemma DerefGood(s: State, P: set<nat>, src: nat)
    requires Guarded(s, P) && src < |s.locs|
    ensures WfObj(s.locs[src], s) && Good(Deref(s, s.locs[src]), s, P)
  {
    hide Guarded;
    LocGood(s, P, src);
    if Type(s.locs[src]) == REF {
      LocGood(s, P, s.locs[src].as_);
    }
  }

  lemma PlainInvalid()
    ensures !PointsAt(Handle(INVALID, 0)) && Type(Handle(INVALID, 0)) == INVALID
  {
  }

  lemma PlainRef(loc: nat)
    ensures !PointsAt(Handle(REF, loc)) && Type(Handle(REF, loc)) == REF
  {
  }

  /** One step under the guard: the guard goes on, at most growing by new things, and
      what it guards is left alone. */
  lemma StepKeeps(s: State, P: set<nat>, op: Op) returns (P': set<nat>)
    requires Guarded(s, P) && Ok(s) && Legal(s, op)
    ensures Wider(s, P, P') && Kept(s, Step(s, op), P, P')
  {
    hide Guarded, Ok, Start, Update, UnpackAt, AssignTo, GetIndexTo, SetIndexOf;
    P' := P;
    match op {
      case NewList(dest) => FreshKeeps(s, P, dest, LIST, ListThing([]));
      case NewTable(dest) => FreshKeeps(s, P, dest, TABLE, TableThing([]));
      case Assign(dest, src, deref) => AssignKeeps(s, P, dest, src, deref);
      case GetIndex(dest, obj, index, at) => GetIndexKeeps(s, P, dest, obj, index, at);
      case SetIndex(obj, index, value, at) => SetIndexKeeps(s, P, obj, index, value, at);
      case StartIter(varLoc, iterable) => P' := StartKeeps(s, P, varLoc, iterable);
      case UpdateIter(varLoc, iterLoc) => P' := UpdateKeeps(s, P, varLoc, iterLoc);
      case Unpack(reg, count, last, ignore) => UnpackKeeps(s, P, reg, count, last, ignore);
      case ExtList(_, _, _) => ListMethodsKeep(s, P, op);
      case Append(_, _) => ListMethodsKeep(s, P, op);
      case Pop(_, _) => ListMethodsKeep(s, P, op);
      case Clear(_) => ListMethodsKeep(s, P, op);
      case _ => RegistersKeep(s, P, op);
    }
  }

  /* Whole runs. */

  /** Nothing in particular is guarded. */
  ghost predicate Sound(s: State) {
    Guarded(s, {})
  }

  lemma GuardedSound(s: State, P: set<nat>)
    requires Guarded(s, P)
    ensures Sound(s) && Ok(s)
  {
    hide Held, WfObj;
    GuardedOk(s, P);
    forall i | 0 <= i < |s.locs| ensures Good(s.locs[i], s, {}) {
      assert Good(s.locs[i], s, P);
    }
    forall a | 0 <= a < |s.heap| ensures GoodThing(s.heap[a], s, {}, false) {
      assert GoodThing(s.heap[a], s, P, a in P);
      if s.heap[a].TableThing? {
        forall k | 0 <= k < |s.heap[a].entries| ensures GoodEntry(s.heap[a].entries[k], s, {}, false) {
          assert GoodEntry(s.heap[a].entries[k], s, P, a in P);
        }
      }
    }
    forall i | 0 <= i < |s.iters| ensures GoodIter(s.iters[i], s, {}) {
      assert GoodIter(s.iters[i], s, P);
    }
  }

  lemma StepSound(s: State, op: Op)
    requires Sound(s) && Ok(s) && Legal(s, op)
    ensures Step(s, op).Done? ==> Sound(Step(s, op).s)
  {
    hide Guarded, Step, Legal;
    var P := StepKeeps(s, {}, op);
    if Step(s, op).Done? {
      GuardedSound(Step(s, op).s, P);
    }
  }

  datatype Ending = Finished(s: State) | Stopped(s: State, error: Error, rest: seq<Op>) | Illegal

  /** Instructions are executed until one fails. */
  function Run(s: State, ops: seq<Op>): Ending
    requires Sound(s)
    decreases ops
  {
    GuardedSound(s, {});
    if ops == [] then Finished(s)
    else if !Legal(s, ops[0]) then Illegal
    else
      StepSound(s, ops[0]);
      var r := Step(s, ops[0]);
      if r.Failed? then Stopped(s, r.error, ops) else Run(r.s, ops[1..])
  }

  lemma HeapOnlyGrows(s: State, op: Op)
    requires Ok(s) && Legal(s, op) && Step(s, op).Done?
    ensures |s.heap| <= |Step(s, op).s.heap|
  {
  }

  /** A list or table behind immutable handles only is the same after any run, and it
      still has no other handles. */
  lemma {:induction false} RunKeeps(s: State, P: set<nat>, ops: seq<Op>) returns (P': set<nat>)
    requires Guarded(s, P) && Sound(s)
    ensures Wider(s, P, P')
    ensures var e := Run(s, ops); e != Illegal ==> Guarded(e.s, P') && Frozen(s, e.s, P)
    decreases ops
  {
    hide Guarded, Ok, Step, Legal, Sound;
    GuardedSound(s, P);
    HeapFrozen(s, s, P);
    P' := P;
    if ops != [] && Legal(s, ops[0]) {
      var r := Step(s, ops[0]);
      if r.Done? {
        var P1 := StepKeeps(s, P, ops[0]);
        StepSound(s, ops[0]);
        P' := RunKeeps(r.s, P1, ops[1..]);
        HeapOnlyGrows(s, ops[0]);
      }
    }
  }

  /** Every attempt to change a guarded collection, or to make a handle to it mutable, fails. */
  lemma GuardedRefuses(s: State, P: set<nat>, op: Op)
    requires Guarded(s, P) && Ok(s) && Legal(s, op)
    requires op.SetIndex? || op.Append? || op.Clear? || op.Pop?
    requires PointsAt(s.locs[op.obj]) && s.locs[op.obj].as_ in P
    ensures Step(s, op) == Failed(ModImmutValue)
  {
    hide Type, Ok;
    LocGood(s, P, op.obj);
    ShieldedPoint(s.locs[op.obj], P);
  }

  lemma GuardedStaysImmut(s: State, P: set<nat>, reg: nat)
    requires Guarded(s, P) && Ok(s) && reg < |s.locs| && PointsAt(s.locs[reg]) && s.locs[reg].as_ in P
    ensures Step(s, Mut(reg)) == Failed(ImmutToMut)
  {
    LocGood(s, P, reg);
    ShieldedPoint(s.locs[reg], P);
  }

  /** `o` leads to address `a`. */
  predicate Leads(o: Object, a: int) {
    PointsAt(o) && o.as_ == a
  }

  /** The register is the only way to its list or table, as it is for a literal. */
  predicate SoleHandle(s: State, reg: nat) {
    && reg < |s.locs| && PointsAt(s.locs[reg])
    && (forall i | 0 <= i < |s.locs| && i != reg :: !Leads(s.locs[i], s.locs[reg].as_))
    && (forall b, k | 0 <= b < |s.heap| && s.heap[b].ListThing? && 0 <= k < |s.heap[b].items| ::
          !Leads(s.heap[b].items[k], s.locs[reg].as_))
    && (forall b, k | 0 <= b < |s.heap| && s.heap[b].TableThing? && 0 <= k < |s.heap[b].entries| ::
          !Leads(s.heap[b].entries[k].value, s.locs[reg].as_))
    && (forall i | 0 <= i < |s.iters| :: s.iters[i].addr != s.locs[reg].as_)
  }

  /** Once its only handle is immutable, a collection is guarded. */
  lemma SoleGuarded(s: State, reg: nat)
    requires Sound(s) && SoleHandle(s, reg) && IsImmut(s.locs[reg])
    ensures s.locs[reg].as_ >= 0 && Guarded(s, {s.locs[reg].as_})
  {
    hide IsImmut, Held, Type;
    LocGood(s, {}, reg);
    var P := {s.locs[reg].as_ as nat};
    forall i | 0 <= i < |s.locs| ensures Good(s.locs[i], s, P) {
      LocGood(s, {}, i);
    }
    forall b | 0 <= b < |s.heap| ensures GoodThing(s.heap[b], s, P, b in P) {
      ThingGood(s, {}, b);
      if s.heap[b].TableThing? {
        forall k | 0 <= k < |s.heap[b].entries| ensures GoodEntry(s.heap[b].entries[k], s, P, b in P) {
          assert GoodEntry(s.heap[b].entries[k], s, {}, false);
        }
      }
    }
    forall i | 0 <= i < |s.iters| ensures GoodIter(s.iters[i], s, P) {
      assert GoodIter(s.iters[i], s, {});
    }
  }

  /** `immut [...]` and `fix x = [...]`: from then on no run changes the list, however
      its handle is passed around. */
  lemma FrozenForever(s: State, reg: nat, ops: seq<Op>)
    requires Sound(s) && SoleHandle(s, reg) && IsImmut(s.locs[reg])
    requires Run(s, ops) != Illegal
    ensures 0 <= s.locs[reg].as_ < |s.heap| && s.locs[reg].as_ < |Run(s, ops).s.heap|
    ensures Run(s, ops).s.heap[s.locs[reg].as_] == s.heap[s.locs[reg].as_]
    ensures forall i | 0 <= i < |Run(s, ops).s.locs| && Leads(Run(s, ops).s.locs[i], s.locs[reg].as_) ::
              IsImmut(Run(s, ops).s.locs[i])
  {
    hide Run, Held, IsImmut, Type;
    SoleGuarded(s, reg);
    var a: nat := s.locs[reg].as_;
    var P := RunKeeps(s, {a}, ops);
    assert a in {a};
    var e := Run(s, ops);
    forall i | 0 <= i < |e.s.locs| && Leads(e.s.locs[i], a) ensures IsImmut(e.s.locs[i]) {
      LocGood(e.s, P, i);
      ShieldedPoint(e.s.locs[i], P);
    }
  }

  /** A list literal is only known to the register it was built in. */
  lemma LiteralSole(s: State, dest: nat, start: nat, count: nat)
    requires Sound(s) && Ok(s) && dest < |s.locs| && start + count <= |s.locs| && !(start <= dest < start + count)
    ensures var s1 := Step(s, NewList(dest)).s;
            && Sound(s1) && Ok(s1) && SoleHandle(s1, dest) && Legal(s1, ExtList(dest, start, count))
            && var s2 := Step(s1, ExtList(dest, start, count)).s;
               Sound(s2) && SoleHandle(s2, dest) && s2.heap[|s.heap|].items == s.locs[start..start + count]
  {
    hide Held, Guarded, Ok;
    StepSound(s, NewList(dest));
    var s1 := Step(s, NewList(dest)).s;
    GuardedSound(s1, {});
    NewSole(s, dest);
    StepSound(s1, ExtList(dest, start, count));
    var s2 := Step(s1, ExtList(dest, start, count)).s;
    ExtendSole(s1, dest, s1.locs[start..start + count]);
    assert [] + s1.locs[start..start + count] == s.locs[start..start + count];
  }

  lemma NewSole(s: State, dest: nat)
    requires Ok(s) && dest < |s.locs|
    ensures SoleHandle(SetLoc(Allocate(s, ListThing([])), dest, Handle(LIST, |s.heap|)), dest)
  {
    hide Type;
    var s1 := SetLoc(Allocate(s, ListThing([])), dest, Handle(LIST, |s.heap|));
    assert PointsAt(s1.locs[dest]) by {
      HandlePoints(|s.heap|);
    }
    forall i | 0 <= i < |s1.locs| && i != dest ensures !Leads(s1.locs[i], |s.heap|) {
      assert WfObj(s.locs[i], s);
    }
    forall b, k | 0 <= b < |s1.heap| && s1.heap[b].ListThing? && 0 <= k < |s1.heap[b].items|
      ensures !Leads(s1.heap[b].items[k], |s.heap|)
    {
      assert WfThing(s.heap[b], s);
      assert WfObj(s.heap[b].items[k], s);
    }
    forall b, k | 0 <= b < |s1.heap| && s1.heap[b].TableThing? && 0 <= k < |s1.heap[b].entries|
      ensures !Leads(s1.heap[b].entries[k].value, |s.heap|)
    {
      assert WfThing(s.heap[b], s);
      assert WfObj(s.heap[b].entries[k].value, s);
    }
  }

  lemma HandlePoints(a: nat)
    ensures PointsAt(Handle(LIST, a)) && !IsImmut(Handle(LIST, a))
  {
  }

  lemma ExtendSole(s: State, dest: nat, more: seq<Object>)
    requires Ok(s) && SoleHandle(s, dest) && IsList(s.locs[dest])
    requires forall k | 0 <= k < |more| :: !Leads(more[k], s.locs[dest].as_)
    ensures var s2 := SetThing(s, s.locs[dest].as_, ListThing(Items(s, dest) + more)); SoleHandle(s2, dest)
  {
    hide Type;
  }

  /** The immutable handle that `immut` and `fix` leave behind. */
  lemma MadeImmut(s: State, reg: nat)
    requires Sound(s) && SoleHandle(s, reg)
    ensures var s1 := Step(s, Immut(reg)).s; Sound(s1) && SoleHandle(s1, reg) && IsImmut(s1.locs[reg])
    ensures !IsMut(s.locs[reg]) ==>
              var s1 := Step(s, Declare(reg, 1, true)).s; Sound(s1) && SoleHandle(s1, reg) && IsImmut(s1.locs[reg])
  {
    hide IsImmut, IsMut, Type, MakeImmut, DeclaredFix, HasMutState, Guarded, Ok, Keeps;
    GuardedSound(s, {});
    var o := s.locs[reg];
    PointsHasState(o);
    StepSound(s, Immut(reg));
    MarkedMeans(o);
    KeepsParts(o, MakeImmut(o));
    OtherFlags(s, reg, MakeImmut(o));
    if !IsMut(o) {
      StepSound(s, Declare(reg, 1, true));
      DeclaredMeans(o);
      KeepsParts(o, DeclaredFix(o));
      OtherFlags(s, reg, DeclaredFix(o));
      DeclareOne(s, reg);
    }
  }

  lemma DeclareOne(s: State, reg: nat)
    requires reg < |s.locs|
    ensures DeclareAll(s, reg, 1, true) == SetLoc(s, reg, DeclaredFix(s.locs[reg]))
  {
    assert DeclareAll(s, reg, 0, true) == s;
  }

  lemma OtherFlags(s: State, reg: nat, p: Object)
    requires SoleHandle(s, reg) && Type(p) == Type(s.locs[reg]) && p.as_ == s.locs[reg].as_
    ensures SoleHandle(SetLoc(s, reg, p), reg)
  {
    hide Type;
    var s1 := SetLoc(s, reg, p);
    forall i | 0 <= i < |s1.locs| && i != reg ensures !Leads(s1.locs[i], p.as_) {
      assert s1.locs[i] == s.locs[i];
    }
  }

  /** Handles that came out of an immutable collection, in any state a run gets to:
      they are immutable, and nothing can be assigned through them. */
  lemma ViewsNeverWrite(s: State, ops: seq<Op>, obj: nat, index: nat, value: nat, at: nat)
    requires Sound(s) && Run(s, ops) != Illegal
    requires var e := Run(s, ops).s; obj < |e.locs| && index < |e.locs| && value < |e.locs| && e.locs[obj].view && PointsAt(e.locs[obj])
    ensures IsImmut(Run(s, ops).s.locs[obj])
    ensures Ok(Run(s, ops).s) && Step(Run(s, ops).s, SetIndex(obj, index, value, at)) == Failed(ModImmutValue)
  {
    hide Run, Type, IsImmut, HasMutState, Ok;
    var P := RunKeeps(s, {}, ops);
    var e := Run(s, ops).s;
    GuardedSound(e, P);
    LocGood(e, P, obj);
    PointsHasState(e.locs[obj]);
  }

  /** Whatever is taken out of an immutable collection is marked as such. */
  lemma DerivedMarked(s: State, op: Op)
    requires Sound(s) && Ok(s) && Legal(s, op) && Step(s, op).Done?
    ensures op.GetIndex? && IsImmut(s.locs[op.obj]) ==> Step(s, op).s.locs[op.dest].view
    ensures op.StartIter? && op.varLoc != op.iterable && IsImmut(s.locs[op.iterable]) && Step(s, op).s != s ==>
              Step(s, op).s.locs[op.varLoc].view && Step(s, op).s.iters[|s.iters|].flags == MUT_FLAGS
    ensures op.UpdateIter? && s.iters[s.locs[op.iterLoc].as_].flags == MUT_FLAGS && Step(s, op).s.locs != s.locs ==>
              Step(s, op).s.locs[op.varLoc].view
    ensures op.Unpack? && IsImmut(s.locs[op.reg]) ==>
              forall j | op.reg <= j < op.reg + op.count && !(op.last && j == op.reg + op.count - 1) :: Step(s, op).s.locs[j].view
  {
    hide Type, Held, Ok, Guarded;
    match op
    case GetIndex(_, _, _, _) =>
    case StartIter(varLoc, iterable) =>
      FlagsFit(s.locs[iterable]);
      MarkedMeans(s.locs[iterable]);
    case UpdateIter(_, _) =>
    case Unpack(reg, count, last, ignore) => UnpackMarked(s, reg, count, last, ignore);
    case _ =>
  }

  lemma UnpackMarked(s: State, reg: nat, count: nat, last: bool, ignore: bool)
    requires Ok(s) && 1 < count && reg + count <= |s.locs| && UnpackAt(s, reg, count, last, ignore).Done?
    ensures IsImmut(s.locs[reg]) ==>
              forall j | reg <= j < reg + count && !(last && j == reg + count - 1) ::
                UnpackAt(s, reg, count, last, ignore).s.locs[j].view
  {
    if IsImmut(s.locs[reg]) {
      MarkedMeans(s.locs[reg]);
      hide Type, IsImmut, Spread, Rest;
      var n := if last then count - 1 else count;
      SpreadViews(s, s.heap[s.locs[reg].as_].items, reg, n);
    }
  }

  lemma {:induction false} SpreadViews(s: State, items: seq<Object>, reg: nat, n: nat)
    requires reg + n <= |s.locs| && n <= |items|
    ensures forall j | reg <= j < reg + n :: Spread(s, items, MUT_FLAGS, reg, n).locs[j].view
    decreases n
  {
    if n > 0 {
      SpreadViews(s, items, reg, n - 1);
      TakenMeans(Seen(items[n - 1], true), MUT_FLAGS);
    }
  }

  /* The interpreter does all this in place. */

  ghost predicate Matches(r: Outcome, before: State, after: State, error: Option<Error>) {
    if r.Done? then error == None && after == r.s else error == Some(r.error) && after == before
  }

  class Store {
    const locs: array<Object>
    var heap: seq<Thing>
    var iters: seq<Iter>

    ghost function View(): State
      reads this, locs
    {
      State(locs[..], heap, iters)
    }

    constructor (size: nat)
      ensures View() == State(seq(size, _ => Handle(INVALID, 0)), [], []) && fresh(locs)
      ensures Sound(View())
    {
      locs := new Object[size](_ => Handle(INVALID, 0));
      heap, iters := [], [];
      new;
      assert locs[..] == seq(size, _ => Handle(INVALID, 0));
    }

    /** The place an object stands for: a reference leads on to its variable. */
    method Target(i: nat) returns (j: nat)
      requires Ok(View()) && i < locs.Length
      ensures j == if Type(locs[i]) == REF then locs[i].as_ else i
      ensures j < locs.Length
    {
      assert WfObj(View().locs[i], View());
      j := if Type(locs[i]) == REF then locs[i].as_ else i;
    }

    method Assign(dest: nat, src: nat, deref: bool) returns (error: Option<Error>)
      requires Ok(View()) && dest < locs.Length && src < locs.Length
      modifies locs
      ensures Matches(AssignTo(old(View()), dest, src, deref), old(View()), View(), error)
    {
      error := None;
      var value := Target(src);
      if !deref {
        value := src;
      }
      var to := Target(dest);
      var fixed := IsFixed(locs[to]);
      if Type(locs[dest]) == REF {
        if fixed {
          return Some(ModFixedVariable);
        }
        locs[to] := locs[value];
      } else {
        locs[dest] := locs[value];
      }
      if fixed && !IsMut(locs[dest]) {
        locs[dest] := MakeImmut(locs[dest]);
      } else if !IsImmut(locs[dest]) {
        locs[dest] := MakeMut(locs[dest]);
      }
    }

    /** `at` is where a table finds the key. */
    method GetIndex(dest: nat, obj: nat, index: nat, at: nat) returns (error: Option<Error>)
      requires Ok(View()) && dest < locs.Length && obj < locs.Length && index < locs.Length
      modifies locs
      ensures Matches(GetIndexTo(old(View()), dest, obj, index, at), old(View()), View(), error)
    {
      hide IsImmut, Type, MakeImmut;
      error := None;
      assert WfObj(View().locs[obj], View());
      if !PointsAt(locs[obj]) {
        return Some(NotCollection);
      }
      var isImmut := IsImmut(locs[obj]);
      var found;
      if IsList(locs[obj]) {
        var i, items := locs[index], heap[locs[obj].as_].items;
        if Type(i) != INT {
          return Some(NotIndex);
        }
        if i.as_ < 0 || i.as_ >= |items| {
          return Some(OutOfBounds);
        }
        found := items[i.as_];
      } else {
        var entries := heap[locs[obj].as_].entries;
        if at >= |entries| {
          return Some(KeyNotFound);
        }
        found := entries[at].value;
      }
      locs[dest] := found;
      if isImmut {
        locs[dest] := MakeImmut(Seen(locs[dest], true));
      }
    }

    method SetIndex(obj: nat, index: nat, value: nat, at: nat) returns (error: Option<Error>)
      requires Ok(View()) && obj < locs.Length && index < locs.Length && value < locs.Length
      modifies this`heap
      ensures Matches(SetIndexOf(old(View()), obj, index, value, at), old(View()), View(), error)
    {
      hide IsImmut, Type;
      error := None;
      assert WfObj(View().locs[obj], View());
      if !PointsAt(locs[obj]) {
        return Some(NotCollection);
      }
      if IsImmut(locs[obj]) {
        return Some(ModImmutValue);
      }
      var a := locs[obj].as_;
      if IsList(locs[obj]) {
        var i, items := locs[index], heap[a].items;
        if Type(i) != INT {
          return Some(NotIndex);
        }
        if i.as_ < 0 || i.as_ >= |items| {
          return Some(OutOfBounds);
        }
        heap := heap[a := ListThing(items[i.as_ := locs[value]])];
      } else {
        var entries := heap[a].entries;
        if at < |entries| {
          entries := entries[at := Entry(entries[at].key, locs[value])];
        } else {
          entries := entries + [Entry(locs[index], locs[value])];
        }
        heap := heap[a := TableThing(entries)];
      }
    }

    /** OP_EXT_LIST, one element after the other. */
    method ExtList(list: nat, start: nat, count: nat)
      requires Ok(View()) && Legal(View(), Op.ExtList(list, start, count))
      modifies this`heap
      ensures Step(old(View()), Op.ExtList(list, start, count)) == Done(View())
    {
      hide Type, IsImmut, Ok;
      ghost var before, s := heap, View();
      assert 0 <= locs[list].as_ < |heap| && heap[locs[list].as_].ListThing? by {
        ListThere(s, list);
      }
      var a := locs[list].as_;
      for i := 0 to count
        invariant |heap| == |before| && forall b | 0 <= b < |heap| && b != a :: heap[b] == before[b]
        invariant heap[a] == ListThing(before[a].items + locs[start..start + i])
      {
        assert locs[start..start + i + 1] == locs[start..start + i] + [locs[start + i]];
        heap := heap[a := ListThing(heap[a].items + [locs[start + i]])];
      }
      assert heap == before[a := ListThing(Items(s, list) + s.locs[start..start + count])];
    }

    method Fresh(t: Thing) returns (o: Object)
      requires t.ListThing?
      modifies this`heap
      ensures o == Handle(LIST, old(|heap|)) && heap == old(heap) + [t]
    {
      o := Handle(LIST, |heap|);
      heap := heap + [t];
    }

    /** The element under the iterator, as its own mutability and the iterator's flags
        make it; tables hand out a new pair. */
    method Current(it: Iter, varLoc: nat)
      requires it.addr < |heap| && it.pos < Size(heap[it.addr]) && varLoc < locs.Length
      modifies this`heap, locs
      ensures View() == Deliver(old(View()), it, varLoc)
    {
      hide Type, IsImmut, SetMutFlags, MakeImmut;
      match heap[it.addr]
      case ListThing(items) =>
        locs[varLoc] := Seen(items[it.pos], it.flags == MUT_FLAGS);
        locs[varLoc] := SetMutFlags(locs[varLoc], it.flags);
      case TableThing(entries) =>
        var pair := [entries[it.pos].key, entries[it.pos].value];
        pair := pair[0 := MakeImmut(pair[0])];
        assert ListThing(pair) == Pair(entries[it.pos]);
        var list := Fresh(ListThing(pair));
        locs[varLoc] := Seen(list, it.flags == MUT_FLAGS);
        locs[varLoc] := SetMutFlags(locs[varLoc], it.flags);
        assert locs[..] == old(locs[..])[varLoc := Taken(list, it.flags)];
    }

    method StartIter(varLoc: nat, iterable: nat) returns (error: Option<Error>, started: bool)
      requires Ok(View()) && varLoc < locs.Length && iterable < locs.Length
      modifies this`heap, this`iters, locs
      ensures Matches(Start(old(View()), varLoc, iterable), old(View()), View(), error)
      ensures started <==> error == None && Size(old(heap)[old(locs[iterable]).as_]) != 0
    {
      hide Type, GetMutFlags, Deliver;
      error, started := None, false;
      assert WfObj(View().locs[iterable], View());
      if !PointsAt(locs[iterable]) {
        return Some(NotIterable), false;
      }
      var it := Iter(locs[iterable].as_, GetMutFlags(locs[iterable]), 0);
      if Size(heap[it.addr]) == 0 {
        return;
      }
      Current(it, varLoc);
      iters := iters + [it];
      locs[iterable] := Handle(ITER, |iters| - 1);
      started := true;
    }

    /** False after the last element. */
    method UpdateIter(varLoc: nat, iterLoc: nat) returns (more: bool)
      requires Ok(View()) && varLoc < locs.Length && iterLoc < locs.Length && Type(locs[iterLoc]) == ITER
      modifies this`heap, this`iters, locs
      ensures Update(old(View()), varLoc, iterLoc) == Done(View())
      ensures more <==> iters[old(locs[iterLoc]).as_].pos < Size(old(heap)[iters[old(locs[iterLoc]).as_].addr])
    {
      hide Type, Deliver;
      assert WfObj(View().locs[iterLoc], View());
      var i := locs[iterLoc].as_;
      assert View().iters[i].addr < |View().heap|;
      iters := iters[i := iters[i].(pos := iters[i].pos + 1)];
      more := iters[i].pos < Size(heap[iters[i].addr]);
      if more {
        Current(iters[i], varLoc);
      }
    }

    method Unpack(reg: nat, count: nat, last: bool, ignore: bool) returns (error: Option<Error>)
      requires Ok(View()) && 1 < count && reg + count <= locs.Length
      modifies this`heap, locs
      ensures Matches(UnpackAt(old(View()), reg, count, last, ignore), old(View()), View(), error)
    {
      hide Type, GetMutFlags, Taken, IsImmut;
      error := None;
      var obj := locs[reg];
      assert WfObj(View().locs[reg], View());
      if !PointsAt(obj) {
        return Some(NotCollection);
      }
      if IsTable(obj) {
        return Some(UnpackTable);
      }
      var items, flags := heap[obj.as_].items, GetMutFlags(obj);
      if |items| < count {
        return Some(UnpackTooFew);
      } else if !last && !ignore && |items| > count {
        return Some(UnpackTooMany);
      }
      var n := if last then count - 1 else count;
      ghost var s := View();
      for i := 0 to n
        invariant View() == Spread(s, items, flags, reg, i)
      {
        locs[reg + i] := Taken(items[i], flags);
      }
      if last {
        var list: seq<Object> := [];
        for i := n to |items|
          invariant View() == Spread(s, items, flags, reg, n)
          invariant list + Rest(items, flags, i) == Rest(items, flags, n)
        {
          list := list + [Taken(items[i], flags)];
        }
        assert list == Rest(items, flags, n);
        var o := Fresh(ListThing(list));
        locs[reg + n] := o;
      }
    }

    /** OP_VAR and OP_FIX. */
    method Declare(reg: nat, count: nat, fixed: bool)
      requires reg + count <= locs.Length
      modifies locs
      ensures View() == DeclareAll(old(View()), reg, count, fixed)
    {
      ghost var s := View();
      for i := 0 to count
        invariant View() == DeclareAll(s, reg, i, fixed)
      {
        hide Type, IsImmut, IsMut;
        if fixed {
          locs[reg + i] := MakeFixed(locs[reg + i]);
          if !IsMut(locs[reg + i]) {
            locs[reg + i] := MakeImmut(locs[reg + i]);
          }
        } else {
          locs[reg + i] := MakeVar(locs[reg + i]);
          if !IsImmut(locs[reg + i]) {
            locs[reg + i] := MakeMut(locs[reg + i]);
          }
        }
      }
    }
  }
}
