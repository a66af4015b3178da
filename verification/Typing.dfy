/** The typing rules of sections 3.3.5 and 3.3.6 of the WebAssembly Core Specification 1.0, as rules:
    the validation algorithm accepts every body they accept. */
module Typing {
  import opened Wasm
  import opened Preservation

  /** Locals, results of the function, and the types of the labels in scope, innermost last. */
  datatype Context = Context(locals: seq<Ty>, results: seq<Ty>, labels: seq<seq<Ty>>) {
    function Label(depth: nat): seq<Ty>
      requires depth < |labels|
    {
      labels[|labels| - 1 - depth]
    }
    function Inside(ts: seq<Ty>): Context {
      this.(labels := labels + [ts])
    }
  }

  predicate EndsIn(ts: seq<Ty>, tail: seq<Ty>) {
    |tail| <= |ts| && ts[|ts| - |tail|..] == tail
  }

  /** One instruction takes `ins` off the stack and leaves `outs`.  After an instruction that does not
      continue any stack is right. */
  ghost predicate Typed(c: Context, i: Instr, ins: seq<Ty>, outs: seq<Ty>)
    decreases i
  {
    match i
    case Unreachable => true
    case Nop => ins == [] && outs == []
    case Block(bt, body) => ins == [] && outs == Rets(bt) && TypedCode(c.Inside(Rets(bt)), body, [], Rets(bt))
    case Loop(bt, body) => ins == [] && outs == Rets(bt) && TypedCode(c.Inside([]), body, [], Rets(bt))
    case IfThen(bt, thn) => ins == [I32] && outs == [] && bt == Empty && TypedCode(c.Inside([]), thn, [], [])
    case IfElse(bt, thn, els) =>
      && ins == [I32] && outs == Rets(bt)
      && TypedCode(c.Inside(Rets(bt)), thn, [], Rets(bt)) && TypedCode(c.Inside(Rets(bt)), els, [], Rets(bt))
    case Br(d) => d < |c.labels| && EndsIn(ins, c.Label(d))
    case BrIf(d) => d < |c.labels| && ins == c.Label(d) + [I32] && outs == c.Label(d)
    case BrTable(ds, d) =>
      && d < |c.labels| && EndsIn(ins, c.Label(d) + [I32])
      && forall n :: 0 <= n < |ds| ==> ds[n] < |c.labels| && c.Label(ds[n]) == c.Label(d)
    case Return => EndsIn(ins, c.results)
    case Drop => |ins| == 1 && outs == []
    case Select => |ins| == 3 && ins[0] == ins[1] && ins[2] == I32 && outs == [ins[0]]
    case GetLocal(x) => x < |c.locals| && ins == [] && outs == [c.locals[x]]
    case SetLocal(x) => x < |c.locals| && ins == [c.locals[x]] && outs == []
    case TeeLocal(x) => x < |c.locals| && ins == [c.locals[x]] && outs == ins
    case Const(v) => ins == [] && outs == [v.ty]
    case Plain(op) => ins == op.inputs && outs == op.outputs && |op.outputs| <= 1
  }

  /** A sequence: each instruction works on the top of the stack, above whatever lies below. */
  ghost predicate TypedCode(c: Context, code: Code, ins: seq<Ty>, outs: seq<Ty>)
    decreases code
  {
    match code
    case Nil => ins == outs
    case Cons(i, rest) =>
      exists k: nat, b: seq<Ty> ::
        k <= |ins| && Typed(c, i, ins[k..], b) && TypedCode(c, rest, ins[..k] + b, outs)
  }

  ghost predicate TypedFunc(f: Func) {
    TypedCode(Context(f.params + f.locals, f.results, [f.results]), f.body, [], f.results)
  }

  /** The algorithm's context has the same locals and label types. */
  ghost predicate Agrees(c: Context, ctx: Ctx) {
    && c.locals == ctx.locals && ctx.rule == AllLoops && ctx.Wf() && |c.labels| == |ctx.labels|
    && c.results == ctx.labels[0].rets
    && forall n :: 0 <= n < |c.labels| ==> c.labels[n] == ctx.labels[n].Types()
  }

  lemma AgreesInside(c: Context, ctx: Ctx, l: Lab)
    requires Agrees(c, ctx)
    ensures Agrees(c.Inside(l.Types()), ctx.Push(l)) && ctx.Push(l).Base() == l.height
  {
  }

  /** `pre` is what lies below the current block. */
  lemma {:induction false} CodeAccepted(c: Context, ctx: Ctx, code: Code, pre: seq<Ty>, ins: seq<Ty>, outs: seq<Ty>)
    requires Agrees(c, ctx) && |pre| == ctx.Base() && TypedCode(c, code, ins, outs)
    ensures EndsWith(CheckCode(ctx, code, pre + ins), pre + outs)
    decreases code, 0
  {
    match code
    case Nil =>
    case Cons(i, rest) =>
      var k: nat, b: seq<Ty> :|
        k <= |ins| && Typed(c, i, ins[k..], b) && TypedCode(c, rest, ins[..k] + b, outs);
      assert pre + ins == (pre + ins[..k]) + ins[k..];
      assert (pre + ins[..k]) + b == pre + (ins[..k] + b);
      InstrAccepted(c, ctx, i, pre + ins[..k], ins[k..], b);
      CodeAccepted(c, ctx, rest, pre, ins[..k] + b, outs);
  }

  lemma {:induction false} BodyAccepted(c: Context, ctx: Ctx, l: Lab, code: Code, opds: seq<Ty>, outs: seq<Ty>)
    requires Agrees(c, ctx) && l.height == |opds| && TypedCode(c.Inside(l.Types()), code, [], outs)
    ensures EndsWith(CheckCode(ctx.Push(l), code, opds), opds + outs)
    decreases code, 1
  {
    AgreesInside(c, ctx, l);
    CodeAccepted(c.Inside(l.Types()), ctx.Push(l), code, opds, [], outs);
    assert opds + [] == opds;
  }

  /** `below` is what the instruction does not touch. */
  lemma {:induction false} InstrAccepted(c: Context, ctx: Ctx, i: Instr, below: seq<Ty>, a: seq<Ty>, b: seq<Ty>)
    requires Agrees(c, ctx) && |below| >= ctx.Base() && Typed(c, i, a, b)
    ensures EndsWith(CheckInstr(ctx, i, below + a), below + b)
    decreases i, 0
  {
    match i
    case Block(bt, body) =>
      assert below + a == below;
      BodyAccepted(c, ctx, Lab(false, Rets(bt), |below|), body, below, Rets(bt));
    case Loop(bt, body) =>
      assert below + a == below;
      BodyAccepted(c, ctx, Lab(true, Rets(bt), |below|), body, below, Rets(bt));
    case IfThen(bt, thn) =>
      assert PopTop(below + a, 1) == below && below + [] == below;
      BodyAccepted(c, ctx, Lab(false, [], |below|), thn, below, []);
    case IfElse(bt, thn, els) =>
      assert PopTop(below + a, 1) == below;
      BodyAccepted(c, ctx, Lab(false, Rets(bt), |below|), thn, below, Rets(bt));
      BodyAccepted(c, ctx, Lab(false, Rets(bt), |below|), els, below, Rets(bt));
    case _ => LeafAccepted(c, ctx, i, below, a, b);
  }

  lemma LeafAccepted(c: Context, ctx: Ctx, i: Instr, below: seq<Ty>, a: seq<Ty>, b: seq<Ty>)
    requires Agrees(c, ctx) && |below| >= ctx.Base() && Typed(c, i, a, b)
    requires !i.Block? && !i.Loop? && !i.IfThen? && !i.IfElse?
    ensures EndsWith(CheckInstr(ctx, i, below + a), below + b)
  {
    hide BranchOk, HasTop, EndsIn, PopTop;
    match i
    case Br(d) => BranchAccepted(c, ctx, below, a, d);
    case BrIf(d) =>
      Popped(below, c.Label(d), [I32], ctx.Base());
      EndsSelf(c.Label(d));
      BranchAccepted(c, ctx, below, c.Label(d), d);
    case BrTable(ds, d) => TableAccepted(c, ctx, below, a, b, ds, d);
    case Return => TopOf(below, a, c.results, ctx.Base());
    case _ => PlainAccepted(c, ctx, i, below, a, b);
  }

  lemma EndsSelf(ts: seq<Ty>)
    ensures EndsIn(ts, ts)
  {
  }

  lemma TopOf(below: seq<Ty>, a: seq<Ty>, tail: seq<Ty>, base: nat)
    requires base <= |below| && EndsIn(a, tail)
    ensures HasTop(base, below + a, tail)
  {
    assert (below + a)[|below + a| - |tail|..] == a[|a| - |tail|..];
  }

  /** The last types are on top, and popping them leaves the rest. */
  lemma Popped(below: seq<Ty>, a: seq<Ty>, last: seq<Ty>, base: nat)
    requires base <= |below|
    ensures HasTop(base, below + (a + last), last) && PopTop(below + (a + last), |last|) == below + a
  {
    assert below + (a + last) == (below + a) + last;
  }

  lemma BranchAccepted(c: Context, ctx: Ctx, below: seq<Ty>, a: seq<Ty>, d: nat)
    requires Agrees(c, ctx) && |below| >= ctx.Base() && d < |c.labels| && EndsIn(a, c.Label(d))
    ensures BranchOk(ctx, d, below + a)
  {
    hide EndsIn, HasTop;
    TopOf(below, a, c.Label(d), ctx.Base());
  }

  lemma TableAccepted(c: Context, ctx: Ctx, below: seq<Ty>, a: seq<Ty>, b: seq<Ty>, ds: seq<nat>, d: nat)
    requires Agrees(c, ctx) && |below| >= ctx.Base() && Typed(c, BrTable(ds, d), a, b)
    ensures EndsWith(CheckInstr(ctx, BrTable(ds, d), below + a), below + b)
  {
    hide BranchOk, HasTop, PopTop;
    var front := a[..|a| - 1];
    assert a == front + [I32] by {
      assert a[|a| - 1] == (c.Label(d) + [I32])[|c.Label(d)|];
    }
    Popped(below, front, [I32], ctx.Base());
    assert EndsIn(front, c.Label(d)) by {
      assert front[|front| - |c.Label(d)|..] == a[|a| - |c.Label(d) + [I32]|..][..|c.Label(d)|];
    }
    hide EndsIn;
    BranchAccepted(c, ctx, below, front, d);
    forall n | 0 <= n < |ds|
      ensures BranchOk(ctx, ds[n], PopTop(below + a, 1))
    {
      BranchAccepted(c, ctx, below, front, ds[n]);
    }
  }

  lemma PlainAccepted(c: Context, ctx: Ctx, i: Instr, below: seq<Ty>, a: seq<Ty>, b: seq<Ty>)
    requires Agrees(c, ctx) && |below| >= ctx.Base() && Typed(c, i, a, b)
    requires !i.Block? && !i.Loop? && !i.IfThen? && !i.IfElse? && !i.Br? && !i.BrIf? && !i.BrTable? && !i.Return?
    ensures EndsWith(CheckInstr(ctx, i, below + a), below + b)
  {
    hide HasTop, PopTop;
    var none: seq<Ty> := [];
    assert none + a == a && below + none == below;
    Popped(below, none, a, ctx.Base());
    if i.Select? {
      SelectPops(below, a);
    } else if i.Drop? {
      assert |below + a| > ctx.Base();
    } else if i.TeeLocal? {
      assert b == a;
    }
  }

  lemma SelectPops(below: seq<Ty>, a: seq<Ty>)
    requires |a| == 3 && a[0] == a[1]
    ensures PopTop(below + a, 2) == below + [a[0]]
  {
  }

  /** Every body the standard accepts is accepted. */
  lemma StandardAccepted(f: Func)
    requires TypedFunc(f)
    ensures ValidFunc(f, AllLoops)
  {
    var none: seq<Ty> := [];
    CodeAccepted(Context(f.params + f.locals, f.results, [f.results]), FuncCtx(f, AllLoops), f.body, none, none,
      f.results);
    assert none + none == none && none + f.results == f.results;
  }

  /** So bodies that are valid by the standard and have no loop with a result are preserved. */
  lemma StandardSuffices(f: Func, rule: LoopRule)
    requires TypedFunc(f) && PlainLoops(f.body)
    ensures ValidFunc(f, rule)
  {
    StandardAccepted(f);
    PlainLoopsSuffice(f, rule);
  }
}
