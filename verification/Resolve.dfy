/** Lexical addressing (src/compiler.cpp: resolveVariable, captureVariable): a name
    is resolved to a register of this function, a global, or an index into the
    cells of its closure, capturing through every function in between. */
module Resolve {
  import opened Words
  import opened Syntax
  import opened Source

  datatype VarType = Global | Cell | Local

  /** Where a closure finds one of its cells in the enclosing function. */
  datatype Capture = Capture(slot: nat, varType: VarType)

  /** One function being compiled: its scopes and what it captures. */
  datatype Frame = Frame(vars: seq<map<string, nat>>, captures: seq<Capture>, names: map<string, nat>)

  datatype VarInfo = Found(slot: nat, varType: VarType) | NotFound

  /** A register of the function at `depth`. */
  datatype Location = Location(depth: nat, reg: nat) | Nowhere

  function Outer(frames: seq<Frame>): seq<Frame>
    requires frames != []
  {
    frames[..|frames| - 1]
  }

  function Last(frames: seq<Frame>): Frame
    requires frames != []
  {
    frames[|frames| - 1]
  }

  /* The simple view: search the scopes of this function, then of the next. */

  function Naive(frames: seq<Frame>, name: string): Location
    decreases |frames|
  {
    if frames == [] then Nowhere
    else
      var k := Innermost(Last(frames).vars, name);
      if k >= 0 then Location(|frames| - 1, Last(frames).vars[k][name])
      else Naive(Outer(frames), name)
  }

  /* What the compiler does. */

  function CaptureName(f: Frame, name: string, info: VarInfo): (Frame, nat)
    requires info.Found?
  {
    if name in f.names then (f, f.names[name])
    else (f.(captures := f.captures + [Capture(info.slot, info.varType)], names := f.names[name := |f.captures|]),
          |f.captures|)
  }

  /** `info` is what the enclosing functions know about the name. */
  function FromOutside(outer: seq<Frame>, f: Frame, name: string, info: VarInfo, inModule: bool): (seq<Frame>, VarInfo) {
    if info.NotFound? || (!inModule && info.varType.Global?) then (outer + [f], info)
    else
      var (f', index) := CaptureName(f, name, info);
      (outer + [f'], Found(index, if inModule || info.varType.Local? then Cell else info.varType))
  }

  /** Resolving may add captures; frames are outermost first. */
  function ResolveName(frames: seq<Frame>, name: string, inModule: bool): (r: (seq<Frame>, VarInfo))
    ensures |r.0| == |frames|
    decreases |frames|
  {
    if frames == [] then (frames, NotFound)
    else
      var f := Last(frames);
      var k := Innermost(f.vars, name);
      if k >= 0 then (frames, Found(f.vars[k][name], if |frames| == 1 && k == 0 then Global else Local))
      else
        var (outer, info) := ResolveName(Outer(frames), name, inModule);
        FromOutside(outer, f, name, info, inModule)
  }

  lemma ResolveStep(frames: seq<Frame>, name: string, inModule: bool)
    requires frames != []
    ensures var f, k := Last(frames), Innermost(Last(frames).vars, name);
            var (outer, info) := ResolveName(Outer(frames), name, inModule);
            ResolveName(frames, name, inModule)
            == if k >= 0 then (frames, Found(f.vars[k][name], if |frames| == 1 && k == 0 then Global else Local))
               else FromOutside(outer, f, name, info, inModule)
    ensures |frames| == 1 ==> ResolveName(Outer(frames), name, inModule) == ([], NotFound)
  {
  }

  /** The variable an address stands for: cells lead outwards. */
  function Denotes(frames: seq<Frame>, slot: nat, varType: VarType): Location
    decreases |frames|
  {
    if frames == [] then Nowhere
    else
      match varType
      case Local => Location(|frames| - 1, slot)
      case Global => Location(0, slot)
      case Cell =>
        if slot >= |Last(frames).captures| then Nowhere
        else
          var c := Last(frames).captures[slot];
          Denotes(Outer(frames), c.slot, c.varType)
  }

  /** The captures so far are right: each stands for what its name means outside. */
  ghost predicate Consistent(frames: seq<Frame>)
    decreases |frames|
  {
    frames == [] ||
    (Consistent(Outer(frames)) &&
     forall n | n in Last(frames).names ::
       && Last(frames).names[n] < |Last(frames).captures|
       && Denotes(frames, Last(frames).names[n], Cell) == Naive(Outer(frames), n) != Nowhere)
  }

  /** The same variables, at least the same captures. */
  ghost predicate Grown(a: seq<Frame>, b: seq<Frame>) {
    |a| == |b| && forall i | 0 <= i < |a| :: FrameGrown(a[i], b[i])
  }

  ghost predicate FrameGrown(a: Frame, b: Frame) {
    b.vars == a.vars && |a.captures| <= |b.captures| && b.captures[..|a.captures|] == a.captures
  }

  lemma {:induction false} GrownNaive(a: seq<Frame>, b: seq<Frame>, name: string)
    requires Grown(a, b)
    ensures Naive(a, name) == Naive(b, name)
    decreases |a|
  {
    if a != [] {
      assert FrameGrown(Last(a), Last(b));
      GrownNaive(Outer(a), Outer(b), name);
    }
  }

  /** At least the same captures; the variables in scope may be others. */
  ghost predicate MoreCaptures(a: seq<Frame>, b: seq<Frame>) {
    |a| == |b| && forall i | 0 <= i < |a| :: CapturesKept(a[i], b[i])
  }

  ghost predicate CapturesKept(a: Frame, b: Frame) {
    |a.captures| <= |b.captures| && b.captures[..|a.captures|] == a.captures
  }

  /** An address keeps its meaning while more captures are added, whatever is declared
      or goes out of scope meanwhile. */
  lemma {:induction false} GrownDenotes(a: seq<Frame>, b: seq<Frame>, slot: nat, varType: VarType)
    requires MoreCaptures(a, b) && Denotes(a, slot, varType) != Nowhere
    ensures Denotes(b, slot, varType) == Denotes(a, slot, varType)
    decreases |a|
  {
    if varType.Cell? {
      assert CapturesKept(Last(a), Last(b));
      var c := Last(a).captures[slot];
      assert Last(b).captures[slot] == c;
      GrownDenotes(Outer(a), Outer(b), c.slot, c.varType);
    }
  }

  lemma GrownMore(a: seq<Frame>, b: seq<Frame>)
    requires Grown(a, b)
    ensures MoreCaptures(a, b)
  {
    forall i | 0 <= i < |a| ensures CapturesKept(a[i], b[i]) {
      assert FrameGrown(a[i], b[i]);
    }
  }

  lemma GrownAppend(a: seq<Frame>, b: seq<Frame>, f: Frame, g: Frame)
    requires Grown(a, b) && FrameGrown(f, g)
    ensures Grown(a + [f], b + [g]) && Outer(b + [g]) == b && Last(b + [g]) == g
  {
  }

  /** Resolving a name adds captures only, and the address it gives stands for the
      variable that searching the enclosing scopes by name would find; there is
      an address exactly when there is such a variable. */
  lemma {:induction false} ResolveSound(frames: seq<Frame>, name: string, inModule: bool)
    requires Consistent(frames)
    ensures var (frames', info) := ResolveName(frames, name, inModule);
            && Grown(frames, frames') && Consistent(frames')
            && (info.NotFound? <==> Naive(frames, name) == Nowhere)
            && (info.Found? ==> Denotes(frames', info.slot, info.varType) == Naive(frames, name))
    decreases |frames|
  {
    hide Consistent, Grown, Innermost, CaptureName;
    GrownSelf(frames);
    if frames != [] && Innermost(Last(frames).vars, name) < 0 {
      var f := Last(frames);
      OuterConsistent(frames);
      ResolveSound(Outer(frames), name, inModule);
      var (outer, info) := ResolveName(Outer(frames), name, inModule);
      assert frames == Outer(frames) + [f];
      GrownAppend(Outer(frames), outer, f, f);
      StillConsistent(frames, outer);
      GrownNaive(Outer(frames), outer, name);
      if info.Found? {
        if inModule || !info.varType.Global? {
          CaptureSound(frames, outer, name, info);
          GrownAppend(Outer(frames), outer, f, CaptureName(f, name, info).0);
        } else {
          GlobalEverywhere(outer, outer + [f], info.slot);
        }
      }
    }
  }

  /** A variable of the script's outermost scope. */
  predicate IsGlobal(frames: seq<Frame>, name: string) {
    var loc := Naive(frames, name);
    loc.Location? && loc.depth == 0 < |frames| && Innermost(frames[0].vars, name) == 0
  }

  /** Which kind of address a name gets: a register for a variable of the function itself;
      a global for one of the script's outermost scope, from inside functions only outside
      of modules; and a cell for everything else further out. */
  lemma {:induction false} KindExact(frames: seq<Frame>, name: string, inModule: bool)
    ensures var info, loc := ResolveName(frames, name, inModule).1, Naive(frames, name);
            info.Found? ==>
              && loc.Location?
              && (info.varType == Global <==> IsGlobal(frames, name) && (|frames| == 1 || !inModule))
              && (info.varType == Local <==> loc.depth == |frames| - 1 && !(IsGlobal(frames, name) && |frames| == 1))
    decreases |frames|
  {
    hide CaptureName;
    if frames != [] && Innermost(Last(frames).vars, name) < 0 {
      KindExact(Outer(frames), name, inModule);
      NaiveDepth(Outer(frames), name);
      assert |frames| > 1 ==> Outer(frames)[0] == frames[0];
    }
  }

  lemma {:induction false} NaiveDepth(frames: seq<Frame>, name: string)
    ensures Naive(frames, name).Location? ==> Naive(frames, name).depth < |frames|
    decreases |frames|
  {
    if frames != [] { NaiveDepth(Outer(frames), name); }
  }

  lemma OuterConsistent(frames: seq<Frame>)
    requires Consistent(frames) && frames != []
    ensures Consistent(Outer(frames))
  {
  }

  lemma GrownSelf(frames: seq<Frame>)
    ensures Grown(frames, frames)
  {
  }

  lemma GlobalEverywhere(a: seq<Frame>, b: seq<Frame>, slot: nat)
    requires b != [] && Denotes(a, slot, Global) != Nowhere
    ensures Denotes(a, slot, Global) == Denotes(b, slot, Global) == Location(0, slot)
  {
  }

  /** The innermost function's captures stay right while the outer ones grow. */
  lemma StillConsistent(frames: seq<Frame>, outer: seq<Frame>)
    requires frames != [] && Consistent(frames) && Grown(Outer(frames), outer) && Consistent(outer)
    ensures Consistent(outer + [Last(frames)])
  {
    var f := Last(frames);
    var b := outer + [f];
    assert Outer(b) == outer && Last(b) == f && frames == Outer(frames) + [f];
    forall n | n in f.names
      ensures f.names[n] < |f.captures| && Denotes(b, f.names[n], Cell) == Naive(outer, n) != Nowhere
    {
      GrownNaive(Outer(frames), outer, n);
      var c := f.captures[f.names[n]];
      GrownMore(Outer(frames), outer);
      GrownDenotes(Outer(frames), outer, c.slot, c.varType);
    }
  }

  lemma CaptureSound(frames: seq<Frame>, outer: seq<Frame>, name: string, info: VarInfo)
    requires frames != [] && Consistent(outer + [Last(frames)]) && info.Found?
    requires Naive(outer, name) == Denotes(outer, info.slot, info.varType) != Nowhere
    ensures var (f', index) := CaptureName(Last(frames), name, info);
            && FrameGrown(Last(frames), f') && Consistent(outer + [f'])
            && Denotes(outer + [f'], index, Cell) == Naive(outer, name)
  {
    var f := Last(frames);
    var a := outer + [f];
    assert Outer(a) == outer && Last(a) == f;
    var (f', index) := CaptureName(f, name, info);
    var b := outer + [f'];
    assert Outer(b) == outer && Last(b) == f';
    forall n | n in f'.names
      ensures f'.names[n] < |f'.captures| && Denotes(b, f'.names[n], Cell) == Naive(outer, n) != Nowhere
    {
      if n in f.names { assert Denotes(a, f.names[n], Cell) == Naive(outer, n); }
    }
  }

  /** Resolving a name again changes nothing: it reuses the cell index. */
  lemma {:induction false} ResolveTwice(frames: seq<Frame>, name: string, inModule: bool)
    ensures var (frames', info) := ResolveName(frames, name, inModule);
            ResolveName(frames', name, inModule) == (frames', info)
    decreases |frames|
  {
    if frames != [] && Innermost(Last(frames).vars, name) < 0 {
      var f := Last(frames);
      ResolveTwice(Outer(frames), name, inModule);
      var (outer, info) := ResolveName(Outer(frames), name, inModule);
      var (frames', _) := ResolveName(frames, name, inModule);
      assert Outer(frames') == outer && Last(frames').vars == f.vars;
      assert frames' == outer + [Last(frames')];
    }
  }

  /* Compiling a program: declarations and scopes come and go, names are resolved,
     functions begin and end. */

  datatype Event =
    | SetScopes(vars: seq<map<string, nat>>)  // of the innermost function
    | Resolve(name: string)
    | EnterFunction
    | LeaveFunction

  function StepEvent(frames: seq<Frame>, e: Event, inModule: bool): seq<Frame> {
    match e
    case SetScopes(vars) => if frames == [] then [] else Outer(frames) + [Last(frames).(vars := vars)]
    case Resolve(name) => ResolveName(frames, name, inModule).0
    case EnterFunction => frames + [Frame([map[]], [], map[])]
    case LeaveFunction => if frames == [] then [] else Outer(frames)
  }

  function RunEvents(frames: seq<Frame>, es: seq<Event>, inModule: bool): seq<Frame>
    decreases es
  {
    if es == [] then frames else RunEvents(StepEvent(frames, es[0], inModule), es[1..], inModule)
  }

  /** The functions up to depth `n` are still being compiled at every point. */
  ghost predicate Alive(frames: seq<Frame>, es: seq<Event>, inModule: bool, n: nat)
    decreases es
  {
    n <= |frames| && (es == [] || Alive(StepEvent(frames, es[0], inModule), es[1..], inModule, n))
  }

  /** Whatever is compiled in between: the captures made stand for the variables they
      were made for, and those of a function not yet left only get more. */
  lemma {:induction false} RunKeeps(frames: seq<Frame>, es: seq<Event>, inModule: bool, n: nat)
    requires Consistent(frames) && Alive(frames, es, inModule, n)
    ensures var final := RunEvents(frames, es, inModule);
            Consistent(final) && n <= |final| && MoreCaptures(frames[..n], final[..n])
    decreases es
  {
    hide Consistent, StepEvent;
    if es == [] {
      GrownSelf(frames[..n]);
      GrownMore(frames[..n], frames[..n]);
    } else {
      var mid := StepEvent(frames, es[0], inModule);
      EventKeeps(frames, es[0], inModule, n);
      RunKeeps(mid, es[1..], inModule, n);
      MoreTrans(frames[..n], mid[..n], RunEvents(frames, es, inModule)[..n]);
    }
  }

  lemma MoreTrans(a: seq<Frame>, b: seq<Frame>, c: seq<Frame>)
    requires MoreCaptures(a, b) && MoreCaptures(b, c)
    ensures MoreCaptures(a, c)
  {
    forall i | 0 <= i < |a| ensures CapturesKept(a[i], c[i]) {
      assert CapturesKept(a[i], b[i]) && CapturesKept(b[i], c[i]);
      assert c[i].captures[..|a[i].captures|] == c[i].captures[..|b[i].captures|][..|a[i].captures|];
    }
  }

  lemma EventKeeps(frames: seq<Frame>, e: Event, inModule: bool, n: nat)
    requires Consistent(frames) && n <= |frames| && n <= |StepEvent(frames, e, inModule)|
    ensures var mid := StepEvent(frames, e, inModule); Consistent(mid) && MoreCaptures(frames[..n], mid[..n])
  {
    hide ResolveName;
    var mid := StepEvent(frames, e, inModule);
    match e
    case Resolve(name) =>
      ResolveSound(frames, name, inModule);
      GrownMore(frames, mid);
    case LeaveFunction =>
      if frames != [] { OuterConsistent(frames); }
    case EnterFunction =>
      assert Outer(mid) == frames;
    case SetScopes(vars) =>
      if frames != [] {
        assert Outer(mid) == Outer(frames) && Last(mid) == Last(frames).(vars := vars);
        SameCaptures(frames, mid);
      }
  }

  lemma SameCaptures(frames: seq<Frame>, mid: seq<Frame>)
    requires frames != [] && |mid| == |frames| && Outer(mid) == Outer(frames)
    requires Last(mid).captures == Last(frames).captures && Last(mid).names == Last(frames).names && Consistent(frames)
    ensures Consistent(mid)
  {
    forall n | n in Last(mid).names
      ensures Last(mid).names[n] < |Last(mid).captures| && Denotes(mid, Last(mid).names[n], Cell) == Naive(Outer(mid), n) != Nowhere
    {
      assert Denotes(frames, Last(frames).names[n], Cell) == Naive(Outer(frames), n);
    }
  }

  /** A function captures each name once: its cells are numbered by first use. */
  ghost predicate OncePerName(f: Frame) {
    && (forall n | n in f.names :: f.names[n] < |f.captures|)
    && (forall n, m | n in f.names && m in f.names && f.names[n] == f.names[m] :: n == m)
    && |f.names| == |f.captures|
  }

  lemma CaptureOnce(f: Frame, name: string, info: VarInfo)
    requires OncePerName(f) && info.Found?
    ensures OncePerName(CaptureName(f, name, info).0)
  {
  }

  /* The compilers of nested functions, each pointing to the enclosing one. */

  class FunctionCompiler {
    const scopeCompiler: FunctionCompiler?
    const inModule: bool
    const depth: nat
    ghost const chain: seq<FunctionCompiler>  // outermost first, up to this one

    var vars: seq<map<string, nat>>
    var captures: seq<Capture>
    var captureNames: map<string, nat>

    ghost predicate Valid()
      decreases |chain|
    {
      && |chain| == depth + 1 && chain[depth] == this
      && (scopeCompiler == null <==> depth == 0)
      && (scopeCompiler != null ==>
            scopeCompiler.chain == chain[..depth] && scopeCompiler.inModule == inModule
            && this !in scopeCompiler.chain && scopeCompiler.Valid())
    }

    ghost function View(): Frame
      reads this
    {
      Frame(vars, captures, captureNames)
    }

    ghost function Frames(): (frames: seq<Frame>)
      reads chain
      ensures |frames| == |chain|
    {
      seq(|chain|, i requires 0 <= i < |chain| reads chain => chain[i].View())
    }

    constructor (comp: FunctionCompiler?, inModule: bool)
      requires comp != null ==> comp.Valid() && comp.inModule == inModule
      ensures Valid() && scopeCompiler == comp && this.inModule == inModule
      ensures vars == [map[]] && captures == [] && captureNames == map[]
    {
      scopeCompiler := comp;
      this.inModule := inModule;
      depth := if comp == null then 0 else comp.depth + 1;
      chain := if comp == null then [this] else comp.chain + [this];
      vars, captures, captureNames := [map[]], [], map[];
    }

    /** The innermost of this function's own scopes with the name. */
    method FindLocal(name: string) returns (k: int)
      ensures k == Innermost(vars, name)
    {
      k := |vars| - 1;
      while k >= 0
        invariant -1 <= k < |vars|
        invariant forall j | k < j < |vars| :: name !in vars[j]
      {
        if name in vars[k] { return; }
        k := k - 1;
      }
    }

    method ResolveVariable(name: string) returns (info: VarInfo)
      requires Valid()
      modifies chain
      ensures (Frames(), info) == ResolveName(old(Frames()), name, inModule)
      decreases |chain|, 1
    {
      hide Innermost, ResolveName;
      ghost var frames := Frames();
      assert Last(frames) == View();
      var k := FindLocal(name);
      ResolveStep(frames, name, inModule);
      if k >= 0 {
        return Found(vars[k][name], if depth == 0 && k == 0 then Global else Local);
      }
      if scopeCompiler == null {
        assert Outer(frames) == [] && [] + [Last(frames)] == frames;
        return NotFound;
      }
      info := ResolveOutside(name);
    }

    /** The name belongs to an enclosing function, if to any. */
    method ResolveOutside(name: string) returns (info: VarInfo)
      requires Valid() && scopeCompiler != null
      modifies chain
      ensures var frames := old(Frames());
              var (outer, found) := ResolveName(Outer(frames), name, inModule);
              (Frames(), info) == FromOutside(outer, old(View()), name, found, inModule)
      decreases |chain|, 0
    {
      hide ResolveName, CaptureName;
      ghost var f := View();
      assert Outer(Frames()) == scopeCompiler.Frames();
      info := scopeCompiler.ResolveVariable(name);
      ghost var outer := scopeCompiler.Frames();
      assert View() == f;
      assert Frames() == outer + [View()];
      if info.Found? && (inModule || !info.varType.Global?) {
        var index := CaptureVariable(name, info);
        assert scopeCompiler.Frames() == outer;
        assert Frames() == outer + [View()];
        info := Found(index, if inModule || info.varType.Local? then Cell else info.varType);
      }
    }

    /** The index of the cell for `name`, captured now or before. */
    method CaptureVariable(name: string, info: VarInfo) returns (index: nat)
      requires info.Found?
      modifies this
      ensures (View(), index) == CaptureName(old(View()), name, info)
    {
      if name in captureNames { return captureNames[name]; }
      index := |captures|;
      captureNames := captureNames[name := index];
      captures := captures + [Capture(info.slot, info.varType)];
    }
  }
}
