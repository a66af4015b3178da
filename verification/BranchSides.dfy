/** Conditional and table branches of an emitted stream against the declarations of their targets: at
    each of them there is one list of types of which every target's drop range leaves exactly the
    target's declared parameters. */
module BranchSides {
  import opened Wasm
  import opened Microwasm
  import opened Converter
  import opened ConverterFacts
  import opened ConverterNames
  import opened Simulation
  import opened Preservation
  import opened Streams

  // ---------------------------------------------------------------- statement

  ghost predicate Declared(ops: seq<Op>, n: Name, params: seq<Ty>) {
    FindDecl(ops, n) < |ops| && ops[FindDecl(ops, n)].params == params
  }

  /** The declared parameters of a label. */
  function ParamsOf(ops: seq<Op>, n: Name): seq<Ty> {
    var d := FindDecl(ops, n);
    if d < |ops| then ops[d].params else []
  }

  function Branches(op: Op): seq<TargetDrop> {
    match op
    case MBrIf(a, b) => [a, b]
    case MBrTable(ts, d) => ts + [d]
    case _ => []
  }

  /** Dropping the side's range from `types` leaves its target's declared parameters.  The return
      block has no declaration. */
  ghost predicate SideFits(ops: seq<Op>, side: TargetDrop, types: seq<Ty>) {
    side.target.To? ==>
      FindDecl(ops, side.target.name) < |ops| && ApplyDrop(types, side.drop) == Some(ParamsOf(ops, side.target.name))
  }

  ghost predicate AllFit(ops: seq<Op>, op: Op, types: seq<Ty>) {
    && (forall k :: 0 <= k < |Branches(op)| ==> SideFits(ops, Branches(op)[k], types))
    && (op.MBrIf? ==> op.els.target.To? && op.els.drop == None)
  }

  ghost predicate BranchFits(ops: seq<Op>, op: Op) {
    exists types: seq<Ty> :: AllFit(ops, op, types)
  }

  ghost predicate BranchesFit(ops: seq<Op>, out: seq<Op>) {
    forall k :: 0 <= k < |out| ==> BranchFits(ops, out[k])
  }

  ghost predicate Within(ops: seq<Op>, out: seq<Op>) {
    forall k :: 0 <= k < |out| ==> out[k] in ops
  }

  // ---------------------------------------------------------------- pieces of a stream

  lemma WithinConcat(ops: seq<Op>, x: seq<Op>, y: seq<Op>)
    requires Within(ops, x + y)
    ensures Within(ops, x) && Within(ops, y)
  {
    assert forall k :: 0 <= k < |x| ==> x[k] == (x + y)[k];
    assert forall k :: 0 <= k < |y| ==> y[k] == (x + y)[|x| + k];
  }

  lemma FitConcat(ops: seq<Op>, x: seq<Op>, y: seq<Op>)
    requires BranchesFit(ops, x) && BranchesFit(ops, y)
    ensures BranchesFit(ops, x + y)
  {
    hide BranchFits;
  }

  lemma NoBranchFits(ops: seq<Op>, out: seq<Op>)
    requires forall k :: 0 <= k < |out| ==> !out[k].MBrIf? && !out[k].MBrTable?
    ensures BranchesFit(ops, out)
  {
    forall k | 0 <= k < |out|
      ensures BranchFits(ops, out[k])
    {
      assert AllFit(ops, out[k], []);
    }
  }

  lemma DeclaredIn(ops: seq<Op>, d: Op)
    requires Unique(ops) && d in ops && d.MBlock?
    ensures Declared(ops, d.name, d.params)
  {
    var j :| 0 <= j < |ops| && ops[j] == d;
    FoundDecl(ops, j, d.name);
  }

  // ---------------------------------------------------------------- labels in scope

  function CarriedTypes(f: Frame): seq<Ty> {
    if f.kind.LoopKind? then [] else f.results
  }

  ghost predicate TargetDeclared(ops: seq<Op>, stack: seq<Ty>, f: Frame) {
    && f.BrTarget().To? && f.arguments <= |stack|
    && Declared(ops, f.BrTarget().name, stack[..f.arguments] + CarriedTypes(f))
  }

  /** The converter is in step, and every block in scope is declared with the entries below it and
      the types a branch to it carries. */
  ghost predicate ScopeOk(ops: seq<Op>, c: Conv, ctx: Ctx, opds: seq<Ty>) {
    && InStep(c, ctx, opds) && ctx.rule == ExactLoops
    && forall i :: 0 < i < |c.frames| ==> TargetDeclared(ops, c.stack, c.frames[i])
  }

  lemma SamePrefix(ctx: Ctx, opds: seq<Ty>, stack: seq<Ty>, n: nat)
    requires ctx.Wf() && ctx.Base() <= |opds| && KeepsBase(stack, ctx, opds) && n <= |ctx.locals| + ctx.Base()
    ensures n <= |stack| && stack[..n] == (ctx.locals + opds)[..n]
  {
    var m := |ctx.locals| + ctx.Base();
    assert (ctx.locals + opds)[..m] == ctx.locals + opds[..ctx.Base()];
    assert stack[..n] == stack[..m][..n] && (ctx.locals + opds)[..n] == (ctx.locals + opds)[..m][..n];
  }

  /** A frame in scope starts at or below the current block. */
  lemma FrameBelow(c: Conv, ctx: Ctx, opds: seq<Ty>, i: nat)
    requires InStep(c, ctx, opds) && i < |c.frames|
    ensures c.frames[i].arguments <= |ctx.locals| + ctx.Base()
  {
    assert FrameMatches(c.frames[i], ctx.labels[i], |ctx.locals|, i == 0);
  }

  lemma ScopeMoved(ops: seq<Op>, c: Conv, c': Conv, ctx: Ctx, opds: seq<Ty>, o: seq<Ty>)
    requires ScopeOk(ops, c, ctx, opds) && InStep(c', ctx, o) && FramesGrown(c.frames, c'.frames)
    requires KeepsBase(c'.stack, ctx, opds)
    ensures ScopeOk(ops, c', ctx, o)
  {
    forall i | 0 < i < |c'.frames|
      ensures TargetDeclared(ops, c'.stack, c'.frames[i])
    {
      assert Grown(c.frames[i], c'.frames[i]);
      FrameBelow(c, ctx, opds, i);
      SamePrefix(ctx, opds, c'.stack, c.frames[i].arguments);
      assert TargetDeclared(ops, c.stack, c.frames[i]);
    }
  }

  lemma ScopeAfter(ops: seq<Op>, c: Conv, c': Conv, ctx: Ctx, opds: seq<Ty>, o: seq<Ty>)
    requires ScopeOk(ops, c, ctx, opds) && After(c, c', ctx, opds, Live(o))
    ensures ScopeOk(ops, c', ctx, o)
  {
    AfterInStep(c, c', ctx, opds, o);
    ScopeMoved(ops, c, c', ctx, opds, o);
  }

  lemma ScopePopped(ops: seq<Op>, c: Conv, ctx: Ctx, opds: seq<Ty>)
    requires ScopeOk(ops, c, ctx, opds) && HasTop(ctx.Base(), opds, [I32])
    ensures ScopeOk(ops, Popped1(c, ctx, opds), ctx, PopTop(opds, 1))
  {
    var c0, o := Popped1(c, ctx, opds), PopTop(opds, 1);
    OpenIfOk(c, ctx, opds, Empty);
    assert c0.stack[..|ctx.locals| + ctx.Base()] == ctx.locals + opds[..ctx.Base()];
    assert FramesGrown(c.frames, c0.frames);
    ScopeMoved(ops, c, c0, ctx, opds, o);
  }

  lemma ScopePushed(ops: seq<Op>, c: Conv, open: Conv, ctx: Ctx, o: seq<Ty>, l: Lab, f: Frame)
    requires ScopeOk(ops, c, ctx, o) && InStep(open, ctx.Push(l), o) && open.stack == c.stack
    requires open.frames == c.frames + [f] && TargetDeclared(ops, c.stack, f)
    ensures ScopeOk(ops, open, ctx.Push(l), o)
  {
    forall i | 0 < i < |open.frames|
      ensures TargetDeclared(ops, open.stack, open.frames[i])
    {
      assert i < |c.frames| ==> open.frames[i] == c.frames[i];
    }
  }

  /** The `else` side has the scope of the `then` side. */
  lemma ScopeElse(ops: seq<Op>, open: Conv, inner: Conv, els: Conv, ctx: Ctx, o: seq<Ty>)
    requires ScopeOk(ops, open, ctx, o) && FramesGrown(open.frames, inner.frames) && InStep(els, ctx, o)
    requires |open.frames| > 1 && open.frames[|open.frames| - 1].kind.IfKind? && els.stack == open.stack
    requires els.frames == inner.frames[|inner.frames| - 1 := inner.frames[|inner.frames| - 1].(kind := IfKind(true))]
    ensures ScopeOk(ops, els, ctx, o)
  {
    forall i | 0 < i < |els.frames|
      ensures TargetDeclared(ops, els.stack, els.frames[i])
    {
      assert Grown(open.frames[i], inner.frames[i]);
      assert TargetDeclared(ops, open.stack, open.frames[i]);
    }
  }

  // ---------------------------------------------------------------- one branch

  /** The range of a branch to a frame in scope leaves what its target declares. */
  lemma TargetFits(ops: seq<Op>, c: Conv, ctx: Ctx, opds: seq<Ty>, depth: nat)
    requires ScopeOk(ops, c, ctx, opds) && BranchOk(ctx, depth, opds) && depth < |c.frames|
    ensures var f := Nth(c.frames, depth);
            SideFits(ops, TargetDrop(f.BrTarget(), ToDrop(|c.stack|, f)), c.stack)
  {
    hide ToDrop, ApplyDrop, HasTop;
    var i := |c.frames| - 1 - depth;
    var f, l := c.frames[i], ctx.labels[i];
    assert FrameMatches(f, l, |ctx.locals|, i == 0);
    if i > 0 {
      assert TargetDeclared(ops, c.stack, f);
      DropTypes(c, ctx, opds, f, l);
    }
  }

  lemma DropTypes(c: Conv, ctx: Ctx, opds: seq<Ty>, f: Frame, l: Lab)
    requires c.stack == ctx.locals + opds && ctx.Wf() && HasTop(ctx.Base(), opds, l.Types()) && l.height <= ctx.Base()
    requires f.arguments == |ctx.locals| + l.height && f.results == l.rets && (f.kind.LoopKind? <==> l.isLoop)
    requires l.isLoop && l.rets != [] ==> |opds| == l.height
    ensures f.arguments <= |c.stack|
    ensures ApplyDrop(c.stack, ToDrop(|c.stack|, f)) == Some(c.stack[..f.arguments] + CarriedTypes(f))
  {
    hide ToDrop, ApplyDrop;
    if l.isLoop {
      LoopDropShape(c.stack, f);
      assert c.stack[..f.arguments] + [] == c.stack[..f.arguments];
    } else {
      DropShape(c.stack, f);
      assert c.stack[|c.stack| - |l.rets|..] == opds[|opds| - |l.rets|..];
    }
  }

  lemma PairFits(ops: seq<Op>, a: TargetDrop, n: Name, types: seq<Ty>)
    requires SideFits(ops, a, types) && Declared(ops, n, types)
    ensures BranchFits(ops, MBrIf(a, TargetDrop(To(n), None)))
  {
    var op := MBrIf(a, TargetDrop(To(n), None));
    assert Branches(op) == [a, TargetDrop(To(n), None)];
    assert AllFit(ops, op, types);
  }

  lemma BrIfFits(ops: seq<Op>, c: Conv, ctx: Ctx, opds: seq<Ty>, depth: nat)
    requires Unique(ops) && ScopeOk(ops, c, ctx, opds) && BranchOk(ctx, depth, opds) && depth < |c.frames|
    requires Within(ops, LiveBrIf(c, depth).out)
    ensures BranchesFit(ops, LiveBrIf(c, depth).out)
  {
    var out, next := LiveBrIf(c, depth).out, Name(c.nextId, Header);
    var f := Nth(c.frames, depth);
    TargetFits(ops, c, ctx, opds, depth);
    assert out[0] == BlockDecl(c.stack, next);
    DeclaredIn(ops, out[0]);
    PairFits(ops, TargetDrop(f.BrTarget(), ToDrop(|c.stack|, f)), next, c.stack);
    NoBranchFits(ops, [out[0]]);
    NoBranchFits(ops, [out[2]]);
    hide BranchFits;
    assert [out[0]][0] == out[0] && [out[2]][0] == out[2];
  }

  lemma TableFits(ops: seq<Op>, c: Conv, ctx: Ctx, opds: seq<Ty>, ds: seq<nat>, d: nat)
    requires ScopeOk(ops, c, ctx, opds) && LiveBrTable(c, ds, d).Ok?
    requires BranchOk(ctx, d, opds) && forall i :: 0 <= i < |ds| ==> BranchOk(ctx, ds[i], opds)
    ensures BranchesFit(ops, LiveBrTable(c, ds, d).out)
  {
    hide ToDrop, BranchOk, SideFits, ScopeOk;
    var ts := Targets(|c.stack|, c.frames, ds);
    var default := TargetDrop(Nth(c.frames, d).BrTarget(), ToDrop(|c.stack|, Nth(c.frames, d)));
    var op := MBrTable(ts, default);
    TargetFits(ops, c, ctx, opds, d);
    forall k | 0 <= k < |Branches(op)|
      ensures SideFits(ops, Branches(op)[k], c.stack)
    {
      if k < |ds| {
        TargetFits(ops, c, ctx, opds, ds[k]);
      }
    }
    assert AllFit(ops, op, c.stack);
  }

  // ---------------------------------------------------------------- all code

  lemma {:induction false} CodeFits(ops: seq<Op>, c: Conv, ctx: Ctx, code: Code, opds: seq<Ty>)
    requires Unique(ops) && ScopeOk(ops, c, ctx, opds) && !CheckCode(ctx, code, opds).Invalid?
    requires ConvertCode(c, code).Ok? && Within(ops, ConvertCode(c, code).out)
    ensures BranchesFit(ops, ConvertCode(c, code).out)
    decreases code, 0
  {
    match code
    case Nil => NoBranchFits(ops, []);
    case Cons(i, rest) =>
      hide ConvertInstr, CheckInstr, InStep, BranchesFit, Within, Unique;
      ScopeInStep(ops, c, ctx, opds);
      HeadTail(c, ctx, i, rest, opds);
      var r := ConvertInstr(c, i);
      var q := ConvertCode(r.conv, rest);
      WithinConcat(ops, r.out, q.out);
      InstrFits(ops, c, ctx, i, opds);
      match CheckInstr(ctx, i, opds) {
        case Live(o) =>
          ScopeAfter(ops, c, r.conv, ctx, opds, o);
          CodeFits(ops, r.conv, ctx, rest, o);
        case Dead =>
          SkipCode(r.conv, rest);
          NoBranchFits(ops, []);
      }
      FitConcat(ops, r.out, q.out);
  }

  lemma ScopeInStep(ops: seq<Op>, c: Conv, ctx: Ctx, opds: seq<Ty>)
    requires ScopeOk(ops, c, ctx, opds)
    ensures InStep(c, ctx, opds)
  {
  }

  lemma {:induction false} InstrFits(ops: seq<Op>, c: Conv, ctx: Ctx, i: Instr, opds: seq<Ty>)
    requires Unique(ops) && ScopeOk(ops, c, ctx, opds) && !CheckInstr(ctx, i, opds).Invalid?
    requires ConvertInstr(c, i).Ok? && Within(ops, ConvertInstr(c, i).out)
    ensures BranchesFit(ops, ConvertInstr(c, i).out)
    decreases i, 1
  {
    hide Unique, Within, BranchesFit, ScopeOk, InStep;
    ScopeInStep(ops, c, ctx, opds);
    match i
    case Block(_, _) => BlockFits(ops, c, ctx, i, opds);
    case Loop(_, _) => LoopFits(ops, c, ctx, i, opds);
    case IfThen(_, _) => IfThenFits(ops, c, ctx, i, opds);
    case IfElse(_, _, _) => IfElseFits(ops, c, ctx, i, opds);
    case BrIf(d) => ConditionalFits(ops, c, ctx, opds, d);
    case BrTable(ds, d) => SwitchFits(ops, c, ctx, opds, ds, d);
    case _ => LeafFits(ops, c, ctx, i, opds);
  }

  lemma ConditionalFits(ops: seq<Op>, c: Conv, ctx: Ctx, opds: seq<Ty>, d: nat)
    requires Unique(ops) && ScopeOk(ops, c, ctx, opds) && !CheckInstr(ctx, BrIf(d), opds).Invalid?
    requires Convert1(c, OpBrIf(d)).Ok? && Within(ops, Convert1(c, OpBrIf(d)).out)
    ensures BranchesFit(ops, Convert1(c, OpBrIf(d)).out)
  {
    hide Unique, Within, BranchesFit;
    ScopePopped(ops, c, ctx, opds);
    BrIfLeaf(c, ctx, opds, d);
    BrIfFits(ops, Popped1(c, ctx, opds), ctx, PopTop(opds, 1), d);
  }

  lemma SwitchFits(ops: seq<Op>, c: Conv, ctx: Ctx, opds: seq<Ty>, ds: seq<nat>, d: nat)
    requires ScopeOk(ops, c, ctx, opds) && !CheckInstr(ctx, BrTable(ds, d), opds).Invalid?
    requires Convert1(c, OpBrTable(ds, d)).Ok?
    ensures BranchesFit(ops, Convert1(c, OpBrTable(ds, d)).out)
  {
    ScopeInStep(ops, c, ctx, opds);
    TableChecked(ctx, opds, ds, d);
    CheckedTable(c, ctx, opds, ds, d);
    ScopePopped(ops, c, ctx, opds);
    hide BranchesFit, ScopeOk, CheckInstr, BranchOk, Convert1, InStep;
    TableFits(ops, Popped1(c, ctx, opds), ctx, PopTop(opds, 1), ds, d);
  }

  lemma LeafFits(ops: seq<Op>, c: Conv, ctx: Ctx, i: Instr, opds: seq<Ty>)
    requires InStep(c, ctx, opds) && !CheckInstr(ctx, i, opds).Invalid?
    requires !i.Block? && !i.Loop? && !i.IfThen? && !i.IfElse? && !i.BrIf? && !i.BrTable?
    ensures ConvertInstr(c, i).Ok? && BranchesFit(ops, ConvertInstr(c, i).out)
  {
    hide InStep, BranchesFit;
    InStepFacts(c, ctx, opds);
    if CheckInstr(ctx, i, opds).Live? {
      StraightLeaf(c, ctx, i, opds);
    } else {
      EndingLeafNoTable(c, ctx, i, opds);
    }
    hide CheckInstr, ConvertInstr;
    NoBranchFits(ops, ConvertInstr(c, i).out);
  }

  lemma EndingLeafNoTable(c: Conv, ctx: Ctx, i: Instr, opds: seq<Ty>)
    requires InStep(c, ctx, opds) && CheckInstr(ctx, i, opds).Dead?
    requires !i.Block? && !i.Loop? && !i.IfThen? && !i.IfElse? && !i.BrTable?
    ensures ConvertInstr(c, i).Ok?
    ensures forall k :: 0 <= k < |ConvertInstr(c, i).out| ==>
      !ConvertInstr(c, i).out[k].MBrIf? && !ConvertInstr(c, i).out[k].MBrTable?
  {
    match i
    case Unreachable => TrapLeaf(c, ctx, opds);
    case Return => TrapLeaf(c, ctx, opds);
    case Br(d) => BrLeaf(c, ctx, opds, d);
  }

  // ---------------------------------------------------------------- brackets

  lemma {:induction false} BodyFits(ops: seq<Op>, st: Stages, c: Conv, ctx: Ctx, opds: seq<Ty>, l: Lab, code: Code,
      e: Emit)
    requires Unique(ops) && StagesOf(st, c, ctx, opds, l, code, e) && ScopeOk(ops, st.open, ctx.Push(l), opds)
    requires BranchesFit(ops, st.opening) && Within(ops, e.out)
    ensures BranchesFit(ops, e.out)
    decreases code, 1
  {
    hide BranchesFit, Within, InStep, After, EndOut;
    WithinConcat(ops, st.opening + st.body, st.closing);
    WithinConcat(ops, st.opening, st.body);
    CodeFits(ops, st.open, ctx.Push(l), code, opds);
    CloserFits(ops, st.inner.frames[|st.inner.frames| - 1], st.dead);
    FitConcat(ops, st.opening, st.body);
    FitConcat(ops, st.opening + st.body, st.closing);
  }

  lemma CloserFits(ops: seq<Op>, f: Frame, dead: bool)
    ensures BranchesFit(ops, EndOut(f, dead)) && BranchesFit(ops, ElseOut(f, dead))
  {
    NoBranchFits(ops, EndOut(f, dead));
    NoBranchFits(ops, ElseOut(f, dead));
  }

  /** The declarations of the opening operators put the new block in scope. */
  lemma OpeningDeclares(ops: seq<Op>, c: Conv, bt: BlockType)
    requires Unique(ops)
    ensures Within(ops, OpenBlock(c, bt).out) ==>
      TargetDeclared(ops, c.stack, Frame(c.nextId, |c.stack|, Rets(bt), BlockKind(false)))
    ensures Within(ops, OpenLoop(c, bt).out) ==>
      TargetDeclared(ops, c.stack, Frame(c.nextId, |c.stack|, Rets(bt), LoopKind))
    ensures Within(ops, OpenIf(c, bt).out) ==>
      && TargetDeclared(ops, c.stack, Frame(c.nextId, |c.stack|, Rets(bt), IfKind(false)))
      && Declared(ops, Name(c.nextId, Header), c.stack) && Declared(ops, Name(c.nextId, Else), c.stack)
  {
    hide Unique, Declared, FindDecl;
    assert c.stack[..|c.stack|] == c.stack && c.stack + [] == c.stack;
    if Within(ops, OpenBlock(c, bt).out) {
      DeclaredIn(ops, OpenBlock(c, bt).out[0]);
    }
    if Within(ops, OpenLoop(c, bt).out) {
      DeclaredIn(ops, OpenLoop(c, bt).out[0]);
    }
    if Within(ops, OpenIf(c, bt).out) {
      DeclaredIn(ops, OpenIf(c, bt).out[0]);
      DeclaredIn(ops, OpenIf(c, bt).out[1]);
      DeclaredIn(ops, OpenIf(c, bt).out[2]);
    }
  }

  lemma OpeningFits(ops: seq<Op>, c: Conv, bt: BlockType)
    requires Declared(ops, Name(c.nextId, Header), c.stack) && Declared(ops, Name(c.nextId, Else), c.stack)
    ensures BranchesFit(ops, OpenIf(c, bt).out)
  {
    var out := OpenIf(c, bt).out;
    var thn := TargetDrop(To(Name(c.nextId, Header)), None);
    PairFits(ops, thn, Name(c.nextId, Else), c.stack);
    NoBranchFits(ops, out[..3]);
    NoBranchFits(ops, [out[4]]);
    hide BranchFits;
    assert out == out[..3] + [out[3]] + [out[4]];
    FitConcat(ops, out[..3], [out[3]]);
    FitConcat(ops, out[..3] + [out[3]], [out[4]]);
  }

  lemma {:induction false} BlockFits(ops: seq<Op>, c: Conv, ctx: Ctx, i: Instr, opds: seq<Ty>)
    requires i.Block? && Unique(ops) && ScopeOk(ops, c, ctx, opds) && !CheckInstr(ctx, i, opds).Invalid?
    requires ConvertInstr(c, i).Ok? && Within(ops, ConvertInstr(c, i).out)
    ensures BranchesFit(ops, ConvertInstr(c, i).out)
    decreases i.body, 2
  {
    hide BranchesFit, Within, Unique, ConvertInstr, CheckInstr, TargetDeclared;
    var l := Lab(false, Rets(i.bt), |opds|);
    var st := BlockOk(c, ctx, i, opds);
    WithinConcat(ops, st.opening + st.body, st.closing);
    WithinConcat(ops, st.opening, st.body);
    OpeningDeclares(ops, c, i.bt);
    ScopePushed(ops, c, st.open, ctx, opds, l, Frame(c.nextId, |c.stack|, Rets(i.bt), BlockKind(false)));
    NoBranchFits(ops, st.opening);
    BodyFits(ops, st, c, ctx, opds, l, i.body, ConvertInstr(c, i));
  }

  lemma {:induction false} LoopFits(ops: seq<Op>, c: Conv, ctx: Ctx, i: Instr, opds: seq<Ty>)
    requires i.Loop? && Unique(ops) && ScopeOk(ops, c, ctx, opds) && !CheckInstr(ctx, i, opds).Invalid?
    requires ConvertInstr(c, i).Ok? && Within(ops, ConvertInstr(c, i).out)
    ensures BranchesFit(ops, ConvertInstr(c, i).out)
    decreases i.body, 2
  {
    hide BranchesFit, Within, Unique, ConvertInstr, CheckInstr, TargetDeclared;
    var l := Lab(true, Rets(i.bt), |opds|);
    var st := LoopOk(c, ctx, i, opds);
    WithinConcat(ops, st.opening + st.body, st.closing);
    WithinConcat(ops, st.opening, st.body);
    OpeningDeclares(ops, c, i.bt);
    ScopePushed(ops, c, st.open, ctx, opds, l, Frame(c.nextId, |c.stack|, Rets(i.bt), LoopKind));
    NoBranchFits(ops, st.opening);
    BodyFits(ops, st, c, ctx, opds, l, i.body, ConvertInstr(c, i));
  }

  lemma {:induction false} IfThenFits(ops: seq<Op>, c: Conv, ctx: Ctx, i: Instr, opds: seq<Ty>)
    requires i.IfThen? && Unique(ops) && ScopeOk(ops, c, ctx, opds) && !CheckInstr(ctx, i, opds).Invalid?
    requires ConvertInstr(c, i).Ok? && Within(ops, ConvertInstr(c, i).out)
    ensures BranchesFit(ops, ConvertInstr(c, i).out)
    decreases i.thn, 2
  {
    ScopePopped(ops, c, ctx, opds);
    hide BranchesFit, Within, Unique, ConvertInstr, TargetDeclared, Declared;
    var c0, o := Popped1(c, ctx, opds), PopTop(opds, 1);
    var l := Lab(false, Rets(i.bt), |o|);
    var st := IfThenOk(c, ctx, i, opds);
    WithinConcat(ops, st.opening + st.body, st.closing);
    WithinConcat(ops, st.opening, st.body);
    OpeningDeclares(ops, c0, i.bt);
    ScopePushed(ops, c0, st.open, ctx, o, l, Frame(c0.nextId, |c0.stack|, Rets(i.bt), IfKind(false)));
    OpeningFits(ops, c0, i.bt);
    BodyFits(ops, st, c0, ctx, o, l, i.thn, ConvertInstr(c, i));
  }

  lemma {:induction false} IfElseFits(ops: seq<Op>, c: Conv, ctx: Ctx, i: Instr, opds: seq<Ty>)
    requires i.IfElse? && Unique(ops) && ScopeOk(ops, c, ctx, opds) && !CheckInstr(ctx, i, opds).Invalid?
    requires ConvertInstr(c, i).Ok? && Within(ops, ConvertInstr(c, i).out)
    ensures BranchesFit(ops, ConvertInstr(c, i).out)
    decreases i, 0
  {
    ScopePopped(ops, c, ctx, opds);
    hide BranchesFit, Within, Unique, ConvertInstr, TargetDeclared, Declared, CheckCode, After, FramesGrown, EndOut,
      ElseOut;
    var c0, o := Popped1(c, ctx, opds), PopTop(opds, 1);
    var l := Lab(false, Rets(i.bt), |o|);
    var open, inner, thn, dead, st := IfElseOk(c, ctx, i, opds);
    var a, z := OpenIf(c0, i.bt).out, ElseOut(inner.frames[|inner.frames| - 1], dead);
    WithinConcat(ops, st.opening + st.body, st.closing);
    WithinConcat(ops, st.opening, st.body);
    WithinConcat(ops, a + thn, z);
    WithinConcat(ops, a, thn);
    OpeningDeclares(ops, c0, i.bt);
    ScopePushed(ops, c0, open, ctx, o, l, Frame(c0.nextId, |c0.stack|, Rets(i.bt), IfKind(false)));
    OpeningFits(ops, c0, i.bt);
    CodeFits(ops, open, ctx.Push(l), i.thn, o);
    CloserFits(ops, inner.frames[|inner.frames| - 1], dead);
    FitConcat(ops, a, thn);
    FitConcat(ops, a + thn, z);
    AfterGrown(open, inner, ctx.Push(l), o, CheckCode(ctx.Push(l), i.thn, o));
    GrownLength(open, inner);
    ScopeElse(ops, open, inner, st.open, ctx.Push(l), o);
    BodyFits(ops, st, c.(frames := inner.frames[..|c.frames|]), ctx, o, l, i.els, ConvertInstr(c, i));
  }

  lemma GrownLength(open: Conv, inner: Conv)
    requires FramesGrown(open.frames, inner.frames)
    ensures |open.frames| == |inner.frames|
  {
  }

  // ---------------------------------------------------------------- whole streams

  /** At every conditional and table branch of an emitted stream there is one list of types of which
      each target's range leaves the parameters that target declares. */
  lemma StreamBranchesFit(f: Func)
    requires ValidFunc(f, ExactLoops)
    ensures Compile(f).Some? && BranchesFit(Compile(f).value.ops, Compile(f).value.ops)
  {
    hide ConvertCode, CheckCode, BranchesFit, Unique;
    var p, body, dead := CompileOk(f, ExactLoops);
    InitInStep(f, ExactLoops);
    var consts, last := LocalConsts(f.locals), if dead then [] else [MBr(ToReturn)];
    assert Within(p.ops, p.ops);
    WithinConcat(p.ops, consts, body + last);
    WithinConcat(p.ops, body, last);
    CodeFits(p.ops, Init(f), FuncCtx(f, ExactLoops), f.body, []);
    NoBranchFits(p.ops, last);
    NoBranchFits(p.ops, consts);
    FitConcat(p.ops, body, last);
    FitConcat(p.ops, consts, body + last);
  }

  // ---------------------------------------------------------------- conditional branches to fresh targets

  /** `drop_elements`: depths counted from the top; a range that does not fit leaves the list alone. */
  function DropElements<L>(s: seq<L>, d: Range): seq<L> {
    if |s| >= 1 && d.hi <= |s| - 1 && d.lo <= d.hi then s[..|s| - 1 - d.hi] + s[|s| - d.lo..] else s
  }

  lemma DropElementsIs<L>(s: seq<L>, d: Range)
    requires ApplyDrop(s, Some(d)).Some?
    ensures DropElements(s, d) == ApplyDrop(s, Some(d)).value
  {
  }

  /** The locations one side of the branch keeps: the `count` topmost ones were given fixed places,
      then that side's range is dropped. */
  function SideLocations<L>(locs: seq<L>, count: nat, side: TargetDrop): seq<L>
    requires count <= |locs|
  {
    var args := locs[|locs| - count..];
    match side.drop
    case None => args
    case Some(r) => DropElements(args, r)
  }

  lemma WholeSide<L>(locs: seq<L>, side: TargetDrop)
    requires ApplyDrop(locs, side.drop).Some?
    ensures SideLocations(locs, |locs|, side) == ApplyDrop(locs, side.drop).value
  {
    assert locs[|locs| - |locs|..] == locs;
    if side.drop.Some? {
      DropElementsIs(locs, side.drop.value);
    }
  }

  /** Whether a range fits, and how much it leaves, depends on the length of the list only. */
  lemma DropLength<A, B>(s: seq<A>, t: seq<B>, d: Option<Range>)
    requires |s| == |t|
    ensures ApplyDrop(s, d).Some? <==> ApplyDrop(t, d).Some?
    ensures ApplyDrop(s, d).Some? ==> |ApplyDrop(s, d).value| == |ApplyDrop(t, d).value|
  {
  }

  /** For every conditional branch of an emitted stream between two declared blocks, and any list with
      one element per parameter of the fall-through block: the driver gives places to the whole list,
      the fall-through side keeps all of it, and the other side keeps one element per declared
      parameter of its target, the ones whose types these are. */
  lemma FreshSides<L>(f: Func, k: nat, locs: seq<L>)
    requires ValidFunc(f, ExactLoops) && Compile(f).Some? && k < |Compile(f).value.ops|
    requires var ops := Compile(f).value.ops;
             && ops[k].MBrIf? && ops[k].thn.target.To? && ops[k].els.target.To?
             && |locs| == |ParamsOf(ops, ops[k].els.target.name)|
    ensures var ops := Compile(f).value.ops;
            && FindDecl(ops, ops[k].thn.target.name) < |ops| && FindDecl(ops, ops[k].els.target.name) < |ops|
            && var p, q := ParamsOf(ops, ops[k].thn.target.name), ParamsOf(ops, ops[k].els.target.name);
               && Max(|p|, |q|) == |locs|
               && SideLocations(locs, |locs|, ops[k].els) == locs
               && ApplyDrop(locs, ops[k].thn.drop).Some?
               && SideLocations(locs, |locs|, ops[k].thn) == ApplyDrop(locs, ops[k].thn.drop).value
               && |SideLocations(locs, |locs|, ops[k].thn)| == |p|
               && SideLocations(q, |q|, ops[k].thn) == p
  {
    StreamBranchesFit(f);
    hide Compile, ValidFunc, SideLocations, ApplyDrop, AllFit;
    var ops := Compile(f).value.ops;
    assert BranchFits(ops, ops[k]);
    var types :| AllFit(ops, ops[k], types);
    SidesKept(ops, ops[k], types, locs);
  }

  lemma SidesKept<L>(ops: seq<Op>, op: Op, types: seq<Ty>, locs: seq<L>)
    requires op.MBrIf? && op.thn.target.To? && AllFit(ops, op, types)
    ensures op.els.target.To? && FindDecl(ops, op.thn.target.name) < |ops|
    ensures FindDecl(ops, op.els.target.name) < |ops| && ParamsOf(ops, op.els.target.name) == types
    ensures var p := ParamsOf(ops, op.thn.target.name);
            |locs| == |types| ==>
              && |p| <= |types|
              && SideLocations(locs, |locs|, op.els) == locs
              && ApplyDrop(locs, op.thn.drop).Some?
              && SideLocations(locs, |locs|, op.thn) == ApplyDrop(locs, op.thn.drop).value
              && |SideLocations(locs, |locs|, op.thn)| == |p|
              && SideLocations(types, |types|, op.thn) == p
  {
    assert Branches(op)[0] == op.thn && Branches(op)[1] == op.els;
    assert SideFits(ops, Branches(op)[0], types) && SideFits(ops, Branches(op)[1], types);
    if |locs| == |types| {
      DropLength(types, locs, op.thn.drop);
      DropShorter(types, op.thn.drop);
      WholeSide(locs, op.thn);
      WholeSide(locs, op.els);
      WholeSide(types, op.thn);
    }
  }

  lemma DropShorter<A>(s: seq<A>, d: Option<Range>)
    requires ApplyDrop(s, d).Some?
    ensures |ApplyDrop(s, d).value| <= |s|
  {
  }
}
