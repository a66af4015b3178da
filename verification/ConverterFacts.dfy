/** What the converter does on validated code: it never panics, its type stack and frames
    follow the validator, and the chunks it emits around blocks have a fixed form. */
module ConverterFacts {
  import opened Wasm
  import opened Microwasm
  import opened Converter

  // ---------------------------------------------------------------- invariants

  ghost predicate FrameMatches(f: Frame, l: Lab, numLocals: nat, isFunction: bool) {
    && f.arguments == numLocals + l.height
    && f.results == l.rets
    && (f.kind.LoopKind? <==> l.isLoop)
    && (f.kind.FunctionKind? <==> isFunction)
  }

  ghost predicate FramesMatch(frames: seq<Frame>, ctx: Ctx) {
    && |frames| == |ctx.labels|
    && forall i :: 0 <= i < |frames| ==> FrameMatches(frames[i], ctx.labels[i], |ctx.locals|, i == 0)
  }

  /** Enclosing labels start no higher than the current block. */
  ghost predicate Nested(ctx: Ctx) {
    ctx.Wf() && forall i :: 0 <= i < |ctx.labels| ==> ctx.labels[i].height <= ctx.Base()
  }

  /** A live converter state in step with the validator. */
  ghost predicate InStep(c: Conv, ctx: Ctx, opds: seq<Ty>) {
    && Nested(ctx)
    && !c.done && c.skip == None
    && c.stack == ctx.locals + opds
    && FramesMatch(c.frames, ctx)
    && ctx.Base() <= |opds|
  }

  /** Frames only ever gain an end-label mark. */
  ghost predicate Grown(f: Frame, g: Frame) {
    g == f || g == f.Marked()
  }

  ghost predicate FramesGrown(fs: seq<Frame>, gs: seq<Frame>) {
    |fs| == |gs| && forall i :: 0 <= i < |fs| ==> Grown(fs[i], gs[i])
  }

  /** The entries below the current block are the ones it was entered with. */
  ghost predicate KeepsBase(stack: seq<Ty>, ctx: Ctx, opds: seq<Ty>)
    requires ctx.Wf() && ctx.Base() <= |opds|
  {
    var n := |ctx.locals| + ctx.Base();
    n <= |stack| && stack[..n] == ctx.locals + opds[..ctx.Base()]
  }

  ghost predicate After(c: Conv, c': Conv, ctx: Ctx, opds: seq<Ty>, r: Checked)
    requires ctx.Wf() && ctx.Base() <= |opds|
  {
    && !c'.done && c.nextId <= c'.nextId
    && FramesGrown(c.frames, c'.frames)
    && KeepsBase(c'.stack, ctx, opds)
    && match r
       case Live(o) => c'.skip == None && c'.stack == ctx.locals + o
       case Dead => c'.skip == Some(0)
       case Invalid => false
  }

  // ---------------------------------------------------------------- apply_op

  lemma {:induction false} PopConcretes(stack: seq<Ty>, ts: seq<Ty>, param: Option<Ty>)
    ensures PopInputs(stack, Concretes(ts), param) ==
            if HasTop(0, stack, ts) then Some(Popped(PopTop(stack, |ts|), param)) else None
    decreases |ts|
  {
    var n := |stack|;
    if ts == [] {
      assert stack[n..] == [];
      assert stack[..n] == stack;
    } else if n > 0 {
      var m := |ts| - 1;
      assert Concretes(ts)[..m] == Concretes(ts[..m]);
      PopConcretes(stack[..n - 1], ts[..m], param);
      if HasTop(0, stack, ts) {
        assert stack[n - 1] == stack[n - |ts|..][m];
        assert stack[..n - 1][n - 1 - m..] == stack[n - |ts|..][..m];
        assert stack[..n - 1][..n - 1 - m] == stack[..n - |ts|];
      }
    }
  }

  lemma {:induction false} PushConcretes(stack: seq<Ty>, ts: seq<Ty>, param: Option<Ty>)
    ensures PushOutputs(stack, Concretes(ts), param) == Some(stack + Reversed(ts))
    decreases |ts|
  {
    if ts == [] {
      assert stack + Reversed(ts) == stack;
    } else {
      var m := |ts| - 1;
      assert Concretes(ts)[..m] == Concretes(ts[..m]);
      PushConcretes(stack + [ts[m]], ts[..m], param);
      assert Reversed(ts) == [ts[m]] + Reversed(ts[..m]);
      assert stack + [ts[m]] + Reversed(ts[..m]) == stack + Reversed(ts);
    }
  }

  /** `apply_op` on a monomorphic signature: pop the inputs, push the outputs in reverse order. */
  lemma ApplyConcrete(stack: seq<Ty>, ins: seq<Ty>, outs: seq<Ty>)
    ensures ApplySig(stack, Sig(Concretes(ins), Concretes(outs))) ==
            if HasTop(0, stack, ins) then Some(PopTop(stack, |ins|) + Reversed(outs)) else None
  {
    PopConcretes(stack, ins, None);
    if HasTop(0, stack, ins) {
      PushConcretes(PopTop(stack, |ins|), outs, None);
    }
  }

  /** The reverse push order shows only in multi-value signatures: the outputs land in declared
      order exactly when their type list reads the same both ways, as any MVP signature does. */
  lemma OutputsInOrder(stack: seq<Ty>, ins: seq<Ty>, outs: seq<Ty>)
    requires HasTop(0, stack, ins)
    ensures ApplySig(stack, Sig(Concretes(ins), Concretes(outs))) == Some(PopTop(stack, |ins|) + outs)
            <==> forall i :: 0 <= i < |outs| ==> outs[i] == outs[|outs| - 1 - i]
    ensures |outs| <= 1 ==>
      ApplySig(stack, Sig(Concretes(ins), Concretes(outs))) == Some(PopTop(stack, |ins|) + outs)
  {
    ApplyConcrete(stack, ins, outs);
    var p := PopTop(stack, |ins|);
    if p + Reversed(outs) == p + outs {
      assert Reversed(outs) == (p + Reversed(outs))[|p|..];
      assert outs == (p + outs)[|p|..];
    }
    if forall i :: 0 <= i < |outs| ==> outs[i] == outs[|outs| - 1 - i] {
      assert Reversed(outs) == outs;
    }
  }

  lemma TopOfConcat(a: seq<Ty>, b: seq<Ty>, ts: seq<Ty>, base: nat)
    requires HasTop(base, b, ts)
    ensures HasTop(0, a + b, ts)
    ensures PopTop(a + b, |ts|) == a + PopTop(b, |ts|)
  {
    assert (a + b)[|a + b| - |ts|..] == b[|b| - |ts|..];
  }

  /** One concrete operand popped, as `If`, `BrIf`, `BrTable` and `SetLocal` do. */
  lemma ApplyPop(locals: seq<Ty>, opds: seq<Ty>, ty: Ty, base: nat)
    requires HasTop(base, opds, [ty])
    ensures ApplySig(locals + opds, Sig([Concrete(ty)], [])) == Some(locals + PopTop(opds, 1))
  {
    ApplyConcrete(locals + opds, [ty], []);
    assert Concretes([ty]) == [Concrete(ty)];
    assert Concretes([]) == [];
    TopOfConcat(locals, opds, [ty], base);
    assert PopTop(locals + opds, 1) + Reversed([]) == locals + PopTop(opds, 1);
  }

  lemma ApplyPush(stack: seq<Ty>, ty: Ty)
    ensures ApplySig(stack, Sig([], [Concrete(ty)])) == Some(stack + [ty])
  {
    ApplyConcrete(stack, [], [ty]);
    assert Concretes([ty]) == [Concrete(ty)];
    assert Concretes([]) == [];
    assert stack[|stack|..] == [];
    assert PopTop(stack, 0) + Reversed([ty]) == stack + [ty];
  }

  lemma ApplyNothing(stack: seq<Ty>)
    ensures ApplySig(stack, Sig([], [])) == Some(stack)
  {
  }

  lemma ApplyTee(locals: seq<Ty>, opds: seq<Ty>, ty: Ty, base: nat)
    requires HasTop(base, opds, [ty])
    ensures ApplySig(locals + opds, Sig([Concrete(ty)], [Concrete(ty)])) == Some(locals + opds)
  {
    ApplyConcrete(locals + opds, [ty], [ty]);
    assert Concretes([ty]) == [Concrete(ty)];
    TopOfConcat(locals, opds, [ty], base);
    assert Reversed([ty]) == [ty];
    assert opds == PopTop(opds, 1) + [ty];
    assert locals + PopTop(opds, 1) + [ty] == locals + opds;
  }

  lemma ApplyDropT(locals: seq<Ty>, opds: seq<Ty>)
    requires |opds| > 0
    ensures ApplySig(locals + opds, Sig([T], [])) == Some(locals + PopTop(opds, 1))
  {
    var stack := locals + opds;
    assert [T][..0] == [];
    assert stack[..|stack| - 1] == locals + PopTop(opds, 1);
    assert PopInputs(stack[..|stack| - 1], [], Some(stack[|stack| - 1])).Some?;
  }

  lemma ApplySelect(locals: seq<Ty>, opds: seq<Ty>)
    requires |opds| >= 3 && opds[|opds| - 1] == I32 && opds[|opds| - 2] == opds[|opds| - 3]
    ensures ApplySig(locals + opds, Sig([T, T, Concrete(I32)], [T])) == Some(locals + PopTop(opds, 2))
  {
    var stack := locals + opds;
    var n := |stack|;
    var t := opds[|opds| - 2];
    assert [T, T, Concrete(I32)][..2] == [T, T];
    assert [T, T][..1] == [T];
    assert [T][..0] == [];
    var s1, s2, s3 := stack[..n - 1], stack[..n - 2], stack[..n - 3];
    assert s1[..n - 2] == s2 && s2[..n - 3] == s3;
    assert PopInputs(s3, [], Some(t)) == Some(Popped(s3, Some(t)));
    assert PopInputs(s2, [T], Some(t)) == Some(Popped(s3, Some(t)));
    assert PopInputs(s1, [T, T], None) == Some(Popped(s3, Some(t)));
    assert PopInputs(stack, [T, T, Concrete(I32)], None) == Some(Popped(s3, Some(t)));
    assert PushOutputs(s3 + [t], [], Some(t)) == Some(s3 + [t]);
    assert s3 + [t] == locals + PopTop(opds, 2);
  }

  // ---------------------------------------------------------------- dead code

  /** Skipping: a whole instruction leaves the state as it is and emits nothing. */
  lemma {:induction false} SkipInstr(c: Conv, i: Instr)
    requires !c.done && c.skip.Some?
    ensures ConvertInstr(c, i) == Ok(c, [])
    decreases i, 1
  {
    match i
    case Block(bt, body) => SkipBracket(c, OpBlock(bt), body);
    case Loop(bt, body) => SkipBracket(c, OpLoop(bt), body);
    case IfThen(bt, thn) => SkipBracket(c, OpIf(bt), thn);
    case IfElse(bt, thn, els) => SkipIfElse(c, bt, thn, els);
    case _ =>
  }

  lemma {:induction false} SkipIfElse(c: Conv, bt: BlockType, thn: Code, els: Code)
    requires !c.done && c.skip.Some?
    ensures ConvertInstr(c, IfElse(bt, thn, els)) == Ok(c, [])
    decreases IfElse(bt, thn, els), 0
  {
    var d := c.(skip := Some(c.skip.value + 1));
    SkipCode(d, thn);
    SkipCode(d, els);
    assert ThenCode(Convert1(c, OpIf(bt)), thn) == Ok(d, [] + []);
    assert Then(Ok(d, []), OpElse) == Ok(d, [] + []);
    assert ThenCode(Ok(d, []), els) == Ok(d, [] + []);
    assert Then(Ok(d, []), OpEnd) == Ok(c, [] + []);
  }

  lemma {:induction false} SkipBracket(c: Conv, open: WasmOp, body: Code)
    requires !c.done && c.skip.Some?
    requires open.OpBlock? || open.OpLoop? || open.OpIf?
    ensures Then(ThenCode(Convert1(c, open), body), OpEnd) == Ok(c, [])
    decreases body, 1
  {
    var d := c.(skip := Some(c.skip.value + 1));
    SkipCode(d, body);
    assert Convert1(c, open) == Ok(d, []);
    assert ThenCode(Convert1(c, open), body) == Ok(d, [] + []);
    assert Then(Ok(d, []), OpEnd) == Ok(c, [] + []);
  }

  /** Dead code of any nesting is skipped as a whole: skipping resumes only at the `else` or
      `end` that belongs to the current frame. */
  lemma {:induction false} SkipCode(c: Conv, code: Code)
    requires !c.done && c.skip.Some?
    ensures ConvertCode(c, code) == Ok(c, [])
    decreases code, 0
  {
    match code
    case Nil =>
    case Cons(i, rest) =>
      SkipInstr(c, i);
      SkipCode(c, rest);
      assert ThenCode(Ok(c, []), rest) == Ok(c, [] + []);
  }

  // ---------------------------------------------------------------- brackets

  /** What `else` emits in validated code: the end of a live `then` side branches to the end. */
  function ElseOut(f: Frame, dead: bool): seq<Op> {
    (if dead then [] else [MBr(To(Name(f.id, End)))]) + [MLabel(Name(f.id, Else))]
  }

  /** What `end` emits in validated code. */
  function EndOut(f: Frame, dead: bool): seq<Op> {
    var end := Name(f.id, End);
    if f.kind == IfKind(false) then
      (if dead then [] else [MBr(To(end))]) + [MLabel(Name(f.id, Else)), MBr(To(end)), MLabel(end)]
    else if dead || f.NeedsEndLabel() then
      (if dead then [] else [MBr(To(end))]) + [MLabel(end)]
    else []
  }

  lemma OpenOk(c: Conv, ctx: Ctx, opds: seq<Ty>, bt: BlockType)
    requires InStep(c, ctx, opds)
    ensures Convert1(c, OpBlock(bt)) == OpenBlock(c, bt)
    ensures Convert1(c, OpLoop(bt)) == OpenLoop(c, bt)
    ensures InStep(OpenBlock(c, bt).conv, ctx.Push(Lab(false, Rets(bt), |opds|)), opds)
    ensures InStep(OpenLoop(c, bt).conv, ctx.Push(Lab(true, Rets(bt), |opds|)), opds)
  {
    ApplyNothing(c.stack);
    assert c.(stack := c.stack) == c;
  }

  lemma OpenIfOk(c: Conv, ctx: Ctx, opds: seq<Ty>, bt: BlockType)
    requires InStep(c, ctx, opds) && HasTop(ctx.Base(), opds, [I32])
    ensures var o := PopTop(opds, 1); var c0 := c.(stack := ctx.locals + o);
            && Convert1(c, OpIf(bt)) == OpenIf(c0, bt)
            && InStep(c0, ctx, o)
            && InStep(OpenIf(c0, bt).conv, ctx.Push(Lab(false, Rets(bt), |o|)), o)
  {
    ApplyPop(ctx.locals, opds, I32, ctx.Base());
  }

  /** The state after the end of a block with label `l` entered with operands `opds`. */
  function Closed(c: Conv, ctx: Ctx, opds: seq<Ty>, l: Lab): Conv
    requires |c.frames| > 0
  {
    Conv(ctx.locals + (opds + l.rets), c.frames[..|c.frames| - 1], c.nextId, None, false)
  }

  lemma CloseOk(c1: Conv, c2: Conv, ctx: Ctx, opds: seq<Ty>, l: Lab, r: Checked)
    requires Nested(ctx) && l.height == |opds| && ctx.Base() <= |opds|
    requires FramesMatch(c1.frames, ctx.Push(l))
    requires After(c1, c2, ctx.Push(l), opds, r) && EndsWith(r, opds + l.rets)
    ensures Convert1(c2, OpEnd) == Ok(Closed(c2, ctx, opds, l), EndOut(c2.frames[|c2.frames| - 1], r.Dead?))
  {
    var k := |c2.frames| - 1;
    var f := c2.frames[k];
    assert Grown(c1.frames[k], f);
    assert FrameMatches(c1.frames[k], l, |ctx.locals|, false);
    assert opds[..|opds|] == opds;
    assert KeepsBase(c2.stack, ctx.Push(l), opds);
    assert Truncate(c2.stack, f.arguments) == ctx.locals + opds;
    assert ctx.locals + opds + l.rets == ctx.locals + (opds + l.rets);
    if r.Dead? {
      assert Convert1(c2, OpEnd) == DeadEnd(c2);
    } else {
      ApplyNothing(c2.stack);
      assert c2.(stack := c2.stack) == c2;
      assert ToDrop(|c2.stack|, f) == None;
      assert Convert1(c2, OpEnd) == LiveEnd(c2);
    }
  }

  /** The state at the start of the `else` side. */
  function AtElse(c: Conv, ctx: Ctx, opds: seq<Ty>): Conv
    requires |c.frames| > 0
  {
    Conv(ctx.locals + opds, c.frames[|c.frames| - 1 := c.frames[|c.frames| - 1].(kind := IfKind(true))],
         c.nextId, None, false)
  }

  lemma ElseOk(c1: Conv, c2: Conv, ctx: Ctx, opds: seq<Ty>, l: Lab, r: Checked)
    requires Nested(ctx) && l.height == |opds| && ctx.Base() <= |opds|
    requires FramesMatch(c1.frames, ctx.Push(l)) && c1.frames[|c1.frames| - 1].kind.IfKind?
    requires After(c1, c2, ctx.Push(l), opds, r) && EndsWith(r, opds + l.rets)
    ensures Convert1(c2, OpElse) == Ok(AtElse(c2, ctx, opds), ElseOut(c2.frames[|c2.frames| - 1], r.Dead?))
    ensures InStep(AtElse(c2, ctx, opds), ctx.Push(l), opds)
  {
    var k := |c2.frames| - 1;
    var f := c2.frames[k];
    assert Grown(c1.frames[k], f);
    assert FrameMatches(c1.frames[k], l, |ctx.locals|, false);
    assert opds[..|opds|] == opds;
    assert KeepsBase(c2.stack, ctx.Push(l), opds);
    assert Truncate(c2.stack, f.arguments) == ctx.locals + opds;
    if r.Dead? {
      assert Convert1(c2, OpElse) == DeadElse(c2);
    } else {
      ApplyNothing(c2.stack);
      assert c2.(stack := c2.stack) == c2;
      assert ToDrop(|c2.stack|, f) == None;
      assert Convert1(c2, OpElse) == LiveElse(c2);
    }
    GrownMatch(c1.frames, c2.frames, ctx.Push(l));
  }

  lemma GrownMatch(fs: seq<Frame>, gs: seq<Frame>, ctx: Ctx)
    requires FramesMatch(fs, ctx) && FramesGrown(fs, gs)
    ensures FramesMatch(gs, ctx)
  {
    forall i | 0 <= i < |gs|
      ensures FrameMatches(gs[i], ctx.labels[i], |ctx.locals|, i == 0)
    {
      assert Grown(fs[i], gs[i]);
      assert FrameMatches(fs[i], ctx.labels[i], |ctx.locals|, i == 0);
    }
  }

  lemma GrownTrans(fs: seq<Frame>, gs: seq<Frame>, hs: seq<Frame>)
    requires FramesGrown(fs, gs) && FramesGrown(gs, hs)
    ensures FramesGrown(fs, hs)
  {
    forall i | 0 <= i < |fs|
      ensures Grown(fs[i], hs[i])
    {
      assert Grown(fs[i], gs[i]) && Grown(gs[i], hs[i]);
    }
  }

  lemma {:induction false} MarkAllGrows(frames: seq<Frame>, depths: seq<nat>)
    requires forall i :: 0 <= i < |depths| ==> depths[i] < |frames|
    ensures FramesGrown(frames, MarkAll(frames, depths))
    decreases |depths|
  {
    if depths != [] {
      var fs := MarkNth(frames, depths[0]);
      MarkAllGrows(fs, depths[1..]);
      GrownTrans(frames, fs, MarkAll(fs, depths[1..]));
    }
  }

  // ---------------------------------------------------------------- leaves

  lemma MarkNthGrows(frames: seq<Frame>, depth: nat)
    requires depth < |frames|
    ensures FramesGrown(frames, MarkNth(frames, depth))
  {
  }

  lemma BaseOfPopped(c: Conv, ctx: Ctx, opds: seq<Ty>, n: nat, more: seq<Ty>)
    requires InStep(c, ctx, opds) && n <= |opds| - ctx.Base()
    ensures KeepsBase(ctx.locals + (PopTop(opds, n) + more), ctx, opds)
    ensures KeepsBase(ctx.locals + PopTop(opds, n), ctx, opds)
  {
    var b := ctx.Base();
    assert (ctx.locals + (PopTop(opds, n) + more))[..|ctx.locals| + b] == ctx.locals + opds[..b];
    assert (ctx.locals + PopTop(opds, n))[..|ctx.locals| + b] == ctx.locals + opds[..b];
  }

  lemma TrapLeaf(c: Conv, ctx: Ctx, opds: seq<Ty>)
    requires InStep(c, ctx, opds)
    ensures Convert1(c, OpUnreachable) == Ok(c.(skip := Some(0)), [MTrap])
    ensures Convert1(c, OpReturn) == LiveReturn(c) && LiveReturn(c).Ok?
    ensures Convert1(c, OpNop) == Ok(c, [])
    ensures After(c, c.(skip := Some(0)), ctx, opds, Dead)
    ensures After(c, c, ctx, opds, Live(opds))
  {
    ApplyNothing(c.stack);
    assert c.(stack := c.stack) == c;
    BaseOfPopped(c, ctx, opds, 0, []);
    assert PopTop(opds, 0) == opds;
  }

  lemma BrLeaf(c: Conv, ctx: Ctx, opds: seq<Ty>, depth: nat)
    requires InStep(c, ctx, opds) && depth < |ctx.labels|
    ensures Convert1(c, OpBr(depth)) == LiveBr(c, depth) && LiveBr(c, depth).Ok?
    ensures After(c, LiveBr(c, depth).conv, ctx, opds, Dead)
  {
    ApplyNothing(c.stack);
    assert c.(stack := c.stack) == c;
    BaseOfPopped(c, ctx, opds, 0, []);
    assert PopTop(opds, 0) == opds;
    MarkNthGrows(c.frames, depth);
  }

  /** The state once a condition or selector has been popped. */
  function Popped1(c: Conv, ctx: Ctx, opds: seq<Ty>): Conv
    requires |opds| > 0
  {
    c.(stack := ctx.locals + PopTop(opds, 1))
  }

  lemma BrIfLeaf(c: Conv, ctx: Ctx, opds: seq<Ty>, depth: nat)
    requires InStep(c, ctx, opds) && HasTop(ctx.Base(), opds, [I32]) && depth < |ctx.labels|
    ensures Convert1(c, OpBrIf(depth)) == LiveBrIf(Popped1(c, ctx, opds), depth)
    ensures LiveBrIf(Popped1(c, ctx, opds), depth).Ok?
    ensures After(c, LiveBrIf(Popped1(c, ctx, opds), depth).conv, ctx, opds, Live(PopTop(opds, 1)))
  {
    ApplyPop(ctx.locals, opds, I32, ctx.Base());
    BaseOfPopped(c, ctx, opds, 1, []);
    MarkNthGrows(c.frames, depth);
  }

  lemma BrTableLeaf(c: Conv, ctx: Ctx, opds: seq<Ty>, depths: seq<nat>, default: nat)
    requires InStep(c, ctx, opds) && HasTop(ctx.Base(), opds, [I32])
    requires default < |ctx.labels| && forall i :: 0 <= i < |depths| ==> depths[i] < |ctx.labels|
    ensures Convert1(c, OpBrTable(depths, default)) == LiveBrTable(Popped1(c, ctx, opds), depths, default)
    ensures LiveBrTable(Popped1(c, ctx, opds), depths, default).Ok?
    ensures After(c, LiveBrTable(Popped1(c, ctx, opds), depths, default).conv, ctx, opds, Dead)
  {
    ApplyPop(ctx.locals, opds, I32, ctx.Base());
    BaseOfPopped(c, ctx, opds, 1, []);
    MarkAllGrows(c.frames, depths);
    MarkNthGrows(MarkAll(c.frames, depths), default);
    GrownTrans(c.frames, MarkAll(c.frames, depths), MarkNth(MarkAll(c.frames, depths), default));
  }

  lemma TableChecked(ctx: Ctx, opds: seq<Ty>, ds: seq<nat>, d: nat)
    requires ctx.Wf() && !CheckInstr(ctx, BrTable(ds, d), opds).Invalid?
    ensures HasTop(ctx.Base(), opds, [I32]) && d < |ctx.labels| && BranchOk(ctx, d, PopTop(opds, 1))
    ensures forall n :: 0 <= n < |ds| ==> ds[n] < |ctx.labels| && BranchOk(ctx, ds[n], PopTop(opds, 1))
    ensures CheckInstr(ctx, BrTable(ds, d), opds).Dead?
  {
    assert forall n :: 0 <= n < |ds| ==> BranchOk(ctx, ds[n], PopTop(opds, 1));
  }

  lemma CheckedTable(c: Conv, ctx: Ctx, opds: seq<Ty>, ds: seq<nat>, d: nat)
    requires InStep(c, ctx, opds) && !CheckInstr(ctx, BrTable(ds, d), opds).Invalid?
    ensures HasTop(ctx.Base(), opds, [I32]) && d < |ctx.labels| && |c.frames| == |ctx.labels|
    ensures forall n :: 0 <= n < |ds| ==> ds[n] < |ctx.labels|
    ensures Convert1(c, OpBrTable(ds, d)) == LiveBrTable(Popped1(c, ctx, opds), ds, d)
    ensures LiveBrTable(Popped1(c, ctx, opds), ds, d).Ok?
    ensures After(c, LiveBrTable(Popped1(c, ctx, opds), ds, d).conv, ctx, opds, Dead)
    ensures CheckInstr(ctx, BrTable(ds, d), opds).Dead?
  {
    TableChecked(ctx, opds, ds, d);
    hide CheckInstr, BranchOk, HasTop, Convert1, LiveBrTable, After;
    BrTableLeaf(c, ctx, opds, ds, d);
  }

  lemma DropLeaf(c: Conv, ctx: Ctx, opds: seq<Ty>)
    requires InStep(c, ctx, opds) && CheckInstr(ctx, Drop, opds).Live?
    ensures var c' := c.(stack := ctx.locals + CheckInstr(ctx, Drop, opds).opds);
            Convert1(c, OpDrop) == Ok(c', [MDrop(Range(0, 0))]) && After(c, c', ctx, opds, CheckInstr(ctx, Drop, opds))
  {
    ApplyDropT(ctx.locals, opds);
    BaseOfPopped(c, ctx, opds, 1, []);
  }

  lemma SelectLeaf(c: Conv, ctx: Ctx, opds: seq<Ty>)
    requires InStep(c, ctx, opds) && CheckInstr(ctx, Select, opds).Live?
    ensures var c' := c.(stack := ctx.locals + CheckInstr(ctx, Select, opds).opds);
            Convert1(c, OpSelect) == Ok(c', [MSelect]) && After(c, c', ctx, opds, CheckInstr(ctx, Select, opds))
  {
    ApplySelect(ctx.locals, opds);
    BaseOfPopped(c, ctx, opds, 2, []);
  }

  lemma ConstLeaf(c: Conv, ctx: Ctx, opds: seq<Ty>, v: Val)
    requires InStep(c, ctx, opds)
    ensures var c' := c.(stack := ctx.locals + (opds + [v.ty]));
            Convert1(c, OpConst(v)) == Ok(c', [MConst(v)]) && After(c, c', ctx, opds, Live(opds + [v.ty]))
  {
    ApplyPush(c.stack, v.ty);
    ConcatAssoc(ctx.locals, opds, [v.ty]);
    assert PopTop(opds, 0) == opds;
    BaseOfPopped(c, ctx, opds, 0, [v.ty]);
  }

  lemma PushedAfter(c: Conv, ctx: Ctx, opds: seq<Ty>, n: nat, more: seq<Ty>)
    requires InStep(c, ctx, opds) && n <= |opds| - ctx.Base()
    ensures var o := PopTop(opds, n) + more; After(c, c.(stack := ctx.locals + o), ctx, opds, Live(o))
    ensures var o := PopTop(opds, n); After(c, c.(stack := ctx.locals + o), ctx, opds, Live(o))
  {
    BaseOfPopped(c, ctx, opds, n, more);
  }

  lemma PlainLeaf(c: Conv, ctx: Ctx, opds: seq<Ty>, op: PlainOp)
    requires InStep(c, ctx, opds)
    requires HasTop(ctx.Base(), opds, op.inputs) && |op.outputs| <= 1
    ensures var o := PopTop(opds, |op.inputs|) + op.outputs; var c' := c.(stack := ctx.locals + o);
            && Convert1(c, OpPlain(op)) == Ok(c', [MPlain(op)])
            && After(c, c', ctx, opds, Live(o))
  {
    hide After;
    PlainApplied(c, ctx, opds, op);
    PushedAfter(c, ctx, opds, |op.inputs|, op.outputs);
  }

  lemma PlainApplied(c: Conv, ctx: Ctx, opds: seq<Ty>, op: PlainOp)
    requires c.stack == ctx.locals + opds && ctx.Wf()
    requires HasTop(ctx.Base(), opds, op.inputs) && |op.outputs| <= 1
    ensures ApplyOp(c.stack, OpPlain(op)) == Some(ctx.locals + (PopTop(opds, |op.inputs|) + op.outputs))
  {
    hide ApplySig;
    var o := PopTop(opds, |op.inputs|);
    ApplyConcrete(c.stack, op.inputs, op.outputs);
    TopOfConcat(ctx.locals, opds, op.inputs, ctx.Base());
    assert Reversed(op.outputs) == op.outputs;
    ConcatAssoc(ctx.locals, o, op.outputs);
  }

  /** A local lives at its own index from the bottom of the stack, so its depth is what is above it. */
  lemma GetLocalLeaf(c: Conv, ctx: Ctx, opds: seq<Ty>, x: nat)
    requires InStep(c, ctx, opds) && x < |ctx.locals|
    ensures var o := opds + [ctx.locals[x]]; var c' := c.(stack := ctx.locals + o);
            && Convert1(c, OpGetLocal(x)) == Ok(c', [MPick(|c.stack| - 1 - x)])
            && After(c, c', ctx, opds, Live(o))
  {
    assert c.stack[x] == ctx.locals[x];
    ApplyPush(c.stack, ctx.locals[x]);
    assert c.stack + [ctx.locals[x]] == ctx.locals + (opds + [ctx.locals[x]]);
    assert PopTop(opds, 0) == opds;
    PushedAfter(c, ctx, opds, 0, [ctx.locals[x]]);
  }

  lemma SetLocalLeaf(c: Conv, ctx: Ctx, opds: seq<Ty>, x: nat)
    requires InStep(c, ctx, opds) && x < |ctx.locals| && HasTop(ctx.Base(), opds, [ctx.locals[x]])
    ensures var o := PopTop(opds, 1); var c' := c.(stack := ctx.locals + o);
            && Convert1(c, OpSetLocal(x)) == Ok(c', [MSwap(|c.stack| - 1 - x), MDrop(Range(0, 0))])
            && After(c, c', ctx, opds, Live(o))
  {
    assert c.stack[x] == ctx.locals[x];
    ApplyPop(ctx.locals, opds, ctx.locals[x], ctx.Base());
    PushedAfter(c, ctx, opds, 1, []);
  }

  lemma TeeLocalLeaf(c: Conv, ctx: Ctx, opds: seq<Ty>, x: nat)
    requires InStep(c, ctx, opds) && x < |ctx.locals| && HasTop(ctx.Base(), opds, [ctx.locals[x]])
    ensures Convert1(c, OpTeeLocal(x)) == Ok(c, [MPick(0), MSwap(|c.stack| - x), MDrop(Range(0, 0))])
    ensures After(c, c, ctx, opds, Live(opds))
  {
    assert c.stack[x] == ctx.locals[x];
    ApplyTee(ctx.locals, opds, ctx.locals[x], ctx.Base());
    assert PopTop(opds, 0) == opds;
    PushedAfter(c, ctx, opds, 0, []);
    assert c.(stack := c.stack) == c;
  }

  // ---------------------------------------------------------------- whole code

  lemma AfterInStep(c: Conv, c': Conv, ctx: Ctx, opds: seq<Ty>, o: seq<Ty>)
    requires InStep(c, ctx, opds) && After(c, c', ctx, opds, Live(o))
    ensures InStep(c', ctx, o)
    ensures o[..ctx.Base()] == opds[..ctx.Base()]
  {
    GrownMatch(c.frames, c'.frames, ctx);
    var b := ctx.Base();
    assert c'.stack[..|ctx.locals| + b] == ctx.locals + opds[..b];
    assert c'.stack == ctx.locals + o;
    assert o[..b] == c'.stack[|ctx.locals|..|ctx.locals| + b];
    assert opds[..b] == (ctx.locals + opds[..b])[|ctx.locals|..];
  }

  lemma AfterTrans(c: Conv, c1: Conv, c2: Conv, ctx: Ctx, opds: seq<Ty>, o: seq<Ty>, r: Checked)
    requires InStep(c, ctx, opds) && After(c, c1, ctx, opds, Live(o))
    requires ctx.Base() <= |o| && After(c1, c2, ctx, o, r)
    ensures After(c, c2, ctx, opds, r)
  {
    AfterInStep(c, c1, ctx, opds, o);
    GrownTrans(c.frames, c1.frames, c2.frames);
  }

  lemma ClosedAfter(c: Conv, c1: Conv, c2: Conv, ctx: Ctx, opds: seq<Ty>, n: nat, l: Lab)
    requires InStep(c, ctx, opds) && n <= |opds| - ctx.Base()
    requires |c1.frames| == |c.frames| + 1 && c1.frames[..|c.frames|] == c.frames && c.nextId <= c1.nextId
    requires FramesGrown(c1.frames, c2.frames) && c1.nextId <= c2.nextId
    ensures After(c, Closed(c2, ctx, PopTop(opds, n), l), ctx, opds, Live(PopTop(opds, n) + l.rets))
  {
    BaseOfPopped(c, ctx, opds, n, l.rets);
    var c3 := Closed(c2, ctx, PopTop(opds, n), l);
    forall i | 0 <= i < |c.frames|
      ensures Grown(c.frames[i], c3.frames[i])
    {
      assert Grown(c1.frames[i], c2.frames[i]);
      assert c1.frames[..|c.frames|][i] == c.frames[i];
    }
  }

  /** Validated code never makes the converter panic, and leaves it in step. */
  lemma {:induction false} CodeOk(c: Conv, ctx: Ctx, code: Code, opds: seq<Ty>)
    requires InStep(c, ctx, opds) && !CheckCode(ctx, code, opds).Invalid?
    ensures ConvertCode(c, code).Ok?
    ensures After(c, ConvertCode(c, code).conv, ctx, opds, CheckCode(ctx, code, opds))
    decreases code, 0
  {
    match code
    case Nil => TrapLeaf(c, ctx, opds);
    case Cons(i, rest) =>
      InstrOk(c, ctx, i, opds);
      var c1 := ConvertInstr(c, i).conv;
      match CheckInstr(ctx, i, opds) {
        case Live(o) =>
          AfterInStep(c, c1, ctx, opds, o);
          CodeOk(c1, ctx, rest, o);
          AfterTrans(c, c1, ConvertCode(c1, rest).conv, ctx, opds, o, CheckCode(ctx, rest, o));
        case Dead =>
          SkipCode(c1, rest);
      }
  }

  lemma {:induction false} InstrOk(c: Conv, ctx: Ctx, i: Instr, opds: seq<Ty>)
    requires InStep(c, ctx, opds) && !CheckInstr(ctx, i, opds).Invalid?
    ensures ConvertInstr(c, i).Ok?
    ensures After(c, ConvertInstr(c, i).conv, ctx, opds, CheckInstr(ctx, i, opds))
    decreases i, 1
  {
    match i
    case Unreachable => TrapLeaf(c, ctx, opds);
    case Nop => TrapLeaf(c, ctx, opds);
    case Block(bt, body) => var _ := BlockOk(c, ctx, i, opds);
    case Loop(bt, body) => var _ := LoopOk(c, ctx, i, opds);
    case IfThen(bt, thn) => var _ := IfThenOk(c, ctx, i, opds);
    case IfElse(bt, thn, els) => var _, _, _, _, _ := IfElseOk(c, ctx, i, opds);
    case Br(d) => BrLeaf(c, ctx, opds, d);
    case BrIf(d) => BrIfLeaf(c, ctx, opds, d);
    case BrTable(ds, d) =>
      CheckedTable(c, ctx, opds, ds, d);
    case Return => TrapLeaf(c, ctx, opds);
    case Drop => DropLeaf(c, ctx, opds);
    case Select => SelectLeaf(c, ctx, opds);
    case GetLocal(x) => GetLocalLeaf(c, ctx, opds, x);
    case SetLocal(x) => SetLocalLeaf(c, ctx, opds, x);
    case TeeLocal(x) => TeeLocalLeaf(c, ctx, opds, x);
    case Const(v) => ConstLeaf(c, ctx, opds, v);
    case Plain(op) => PlainLeaf(c, ctx, opds, op);
  }

  /** The stages of a bracketed instruction: opened, body converted, and what `end` emits. */
  datatype Stages = Stages(open: Conv, opening: seq<Op>, inner: Conv, body: seq<Op>, dead: bool, closing: seq<Op>)

  /** `c` is the state just before the bracket (with a condition already popped), `l` its label. */
  ghost predicate StagesOf(st: Stages, c: Conv, ctx: Ctx, opds: seq<Ty>, l: Lab, code: Code, e: Emit) {
    && ctx.Wf()
    && InStep(st.open, ctx.Push(l), opds)
    && |st.open.frames| == |c.frames| + 1 && st.open.frames[..|c.frames|] == c.frames
    && !CheckCode(ctx.Push(l), code, opds).Invalid?
    && ConvertCode(st.open, code) == Ok(st.inner, st.body)
    && After(st.open, st.inner, ctx.Push(l), opds, CheckCode(ctx.Push(l), code, opds))
    && st.dead == CheckCode(ctx.Push(l), code, opds).Dead?
    && |st.inner.frames| > 0
    && st.closing == EndOut(st.inner.frames[|st.inner.frames| - 1], st.dead)
    && e == Ok(Closed(st.inner, ctx, opds, l), st.opening + st.body + st.closing)
  }

  lemma {:induction false} BracketOk(c: Conv, ctx: Ctx, opds: seq<Ty>, l: Lab, code: Code, o: Emit) returns (st: Stages)
    requires Nested(ctx) && l.height == |opds| && ctx.Base() <= |opds|
    requires o.Ok? && InStep(o.conv, ctx.Push(l), opds)
    requires |o.conv.frames| == |c.frames| + 1 && o.conv.frames[..|c.frames|] == c.frames
    requires EndsWith(CheckCode(ctx.Push(l), code, opds), opds + l.rets)
    ensures st.open == o.conv && st.opening == o.out
    ensures StagesOf(st, c, ctx, opds, l, code, Then(ThenCode(o, code), OpEnd))
    decreases code, 1
  {
    CodeOk(o.conv, ctx.Push(l), code, opds);
    var b := ConvertCode(o.conv, code);
    var r := CheckCode(ctx.Push(l), code, opds);
    CloseOk(o.conv, b.conv, ctx, opds, l, r);
    st := Stages(o.conv, o.out, b.conv, b.out, r.Dead?, EndOut(b.conv.frames[|b.conv.frames| - 1], r.Dead?));
  }

  lemma {:induction false} BlockOk(c: Conv, ctx: Ctx, i: Instr, opds: seq<Ty>) returns (st: Stages)
    requires InStep(c, ctx, opds) && i.Block? && !CheckInstr(ctx, i, opds).Invalid?
    ensures ConvertInstr(c, i).Ok?
    ensures After(c, ConvertInstr(c, i).conv, ctx, opds, CheckInstr(ctx, i, opds))
    ensures st.open == OpenBlock(c, i.bt).conv && st.opening == OpenBlock(c, i.bt).out
    ensures StagesOf(st, c, ctx, opds, Lab(false, Rets(i.bt), |opds|), i.body, ConvertInstr(c, i))
    decreases i.body, 2
  {
    var l := Lab(false, Rets(i.bt), |opds|);
    OpenOk(c, ctx, opds, i.bt);
    st := BracketOk(c, ctx, opds, l, i.body, OpenBlock(c, i.bt));
    assert PopTop(opds, 0) == opds;
    ClosedAfter(c, st.open, st.inner, ctx, opds, 0, l);
  }

  lemma {:induction false} LoopOk(c: Conv, ctx: Ctx, i: Instr, opds: seq<Ty>) returns (st: Stages)
    requires InStep(c, ctx, opds) && i.Loop? && !CheckInstr(ctx, i, opds).Invalid?
    ensures ConvertInstr(c, i).Ok?
    ensures After(c, ConvertInstr(c, i).conv, ctx, opds, CheckInstr(ctx, i, opds))
    ensures st.open == OpenLoop(c, i.bt).conv && st.opening == OpenLoop(c, i.bt).out
    ensures StagesOf(st, c, ctx, opds, Lab(true, Rets(i.bt), |opds|), i.body, ConvertInstr(c, i))
    decreases i.body, 2
  {
    var l := Lab(true, Rets(i.bt), |opds|);
    OpenOk(c, ctx, opds, i.bt);
    st := BracketOk(c, ctx, opds, l, i.body, OpenLoop(c, i.bt));
    assert PopTop(opds, 0) == opds;
    ClosedAfter(c, st.open, st.inner, ctx, opds, 0, l);
  }

  lemma {:induction false} IfThenOk(c: Conv, ctx: Ctx, i: Instr, opds: seq<Ty>) returns (st: Stages)
    requires InStep(c, ctx, opds) && i.IfThen? && !CheckInstr(ctx, i, opds).Invalid?
    ensures ConvertInstr(c, i).Ok?
    ensures After(c, ConvertInstr(c, i).conv, ctx, opds, CheckInstr(ctx, i, opds))
    ensures st.open == OpenIf(Popped1(c, ctx, opds), i.bt).conv && st.opening == OpenIf(Popped1(c, ctx, opds), i.bt).out
    ensures var o := PopTop(opds, 1);
            StagesOf(st, Popped1(c, ctx, opds), ctx, o, Lab(false, Rets(i.bt), |o|), i.thn, ConvertInstr(c, i))
    decreases i.thn, 2
  {
    var o := PopTop(opds, 1);
    var l := Lab(false, Rets(i.bt), |o|);
    OpenIfOk(c, ctx, opds, i.bt);
    st := BracketOk(Popped1(c, ctx, opds), ctx, o, l, i.thn, OpenIf(Popped1(c, ctx, opds), i.bt));
    ClosedAfter(c, st.open, st.inner, ctx, opds, 1, l);
  }

  /** For `if..else..end` the first stages end at the `else` label and the second start there. */
  lemma {:induction false} IfElseOk(c: Conv, ctx: Ctx, i: Instr, opds: seq<Ty>)
    returns (open: Conv, inner: Conv, thn: seq<Op>, dead: bool, st: Stages)
    requires InStep(c, ctx, opds) && i.IfElse? && !CheckInstr(ctx, i, opds).Invalid?
    ensures ConvertInstr(c, i).Ok?
    ensures After(c, ConvertInstr(c, i).conv, ctx, opds, CheckInstr(ctx, i, opds))
    ensures open == OpenIf(Popped1(c, ctx, opds), i.bt).conv
    ensures ConvertCode(open, i.thn) == Ok(inner, thn)
    ensures |inner.frames| > 0 && st.open == AtElse(inner, ctx, PopTop(opds, 1))
    ensures st.opening == OpenIf(Popped1(c, ctx, opds), i.bt).out + thn + ElseOut(inner.frames[|inner.frames| - 1],
      dead)
    ensures var o := PopTop(opds, 1); var l := Lab(false, Rets(i.bt), |o|);
            && InStep(open, ctx.Push(l), o)
            && !CheckCode(ctx.Push(l), i.thn, o).Invalid? && dead == CheckCode(ctx.Push(l), i.thn, o).Dead?
            && After(open, inner, ctx.Push(l), o, CheckCode(ctx.Push(l), i.thn, o))
            && StagesOf(st, c.(frames := inner.frames[..|c.frames|]), ctx, o, l, i.els, ConvertInstr(c, i))
    decreases i, 0
  {
    var o := PopTop(opds, 1);
    var l := Lab(false, Rets(i.bt), |o|);
    OpenIfOk(c, ctx, opds, i.bt);
    var p := OpenIf(Popped1(c, ctx, opds), i.bt);
    open := p.conv;
    CodeOk(open, ctx.Push(l), i.thn, o);
    var b := ConvertCode(open, i.thn);
    inner, thn := b.conv, b.out;
    var r0 := CheckCode(ctx.Push(l), i.thn, o);
    dead := r0.Dead?;
    ElseOk(open, inner, ctx, o, l, r0);
    var e := Ok(AtElse(inner, ctx, o), p.out + thn + ElseOut(inner.frames[|inner.frames| - 1], dead));
    assert e == Then(ThenCode(Convert1(c, OpIf(i.bt)), i.thn), OpElse);
    st := BracketOk(c.(frames := inner.frames[..|c.frames|]), ctx, o, l, i.els, e);
    IfElseFrames(c, open, inner, st.open, st.inner);
    ClosedAfter(c, open.(frames := c.frames + [st.open.frames[|c.frames|]]), st.inner, ctx, opds, 1, l);
  }

  lemma IfElseFrames(c: Conv, open: Conv, inner: Conv, c2: Conv, last: Conv)
    requires |open.frames| == |c.frames| + 1 && open.frames[..|c.frames|] == c.frames
    requires FramesGrown(open.frames, inner.frames)
    requires |c2.frames| == |inner.frames| && c2.frames[..|c.frames|] == inner.frames[..|c.frames|]
    requires FramesGrown(c2.frames, last.frames)
    ensures FramesGrown(c.frames + [c2.frames[|c.frames|]], last.frames)
  {
    var fs := c.frames + [c2.frames[|c.frames|]];
    forall i | 0 <= i < |fs|
      ensures Grown(fs[i], last.frames[i])
    {
      assert Grown(c2.frames[i], last.frames[i]);
      if i < |c.frames| {
        assert open.frames[..|c.frames|][i] == c.frames[i];
        assert c2.frames[..|c.frames|][i] == inner.frames[..|c.frames|][i];
        assert Grown(open.frames[i], inner.frames[i]);
      }
    }
  }
}
