/** The simulation of blocks, loops and conditionals, and the theorem for whole functions. */
module Preservation {
  import opened Wasm
  import opened Microwasm
  import opened Converter
  import opened ConverterFacts
  import opened ConverterNames
  import opened Simulation

  // ---------------------------------------------------------------- entering a block

  function Inner(env: Env, l: Lab, vs: seq<Val>, pos: nat): Env {
    Env(env.sem, env.p, env.ctx.Push(l), env.outer + vs, env.tgt + [pos])
  }

  lemma InnerOk(env: Env, l: Lab, vs: seq<Val>, pos: nat)
    requires EnvOk(env) && l.height == |env.outer + vs|
    ensures EnvOk(Inner(env, l, vs, pos))
    ensures Arities(env.ctx.Push(l)) == Arities(env.ctx) + [|l.Types()|]
    ensures Opds(Inner(env, l, vs, pos), []) == Opds(env, vs)
  {
    assert env.outer + vs + [] == env.outer + vs;
  }

  lemma InnerStack(env: Env, l: Lab, vs: seq<Val>, pos: nat, locals: seq<Val>, rs: seq<Val>)
    ensures Stack(Inner(env, l, vs, pos), locals, rs) == Stack(env, locals, vs + rs)
    ensures Stack(Inner(env, l, vs, pos), locals, []) == Stack(env, locals, vs)
  {
    assert locals + (env.outer + vs) + rs == locals + env.outer + (vs + rs);
    assert locals + (env.outer + vs) + [] == locals + env.outer + vs;
  }

  lemma InnerParams(env: Env, l: Lab, vs: seq<Val>, pos: nat, i: nat)
    requires EnvOk(env) && l.height == |env.outer + vs| && i < |env.ctx.labels|
    ensures ParamTypes(Inner(env, l, vs, pos), i) == ParamTypes(env, i)
  {
    var h := env.ctx.labels[i].height;
    assert (env.outer + vs)[..h] == env.outer[..h];
  }

  lemma LastParams(env: Env, l: Lab, vs: seq<Val>, pos: nat)
    requires EnvOk(env) && l.height == |env.outer + vs|
    ensures ParamTypes(Inner(env, l, vs, pos), |env.ctx.labels|) == env.ctx.locals + Opds(env, vs) + l.Types()
  {
    assert (env.outer + vs)[..l.height] == env.outer + vs;
  }

  /** Labels in scope resolve inside the block too, and so does its own label if it is wanted. */
  lemma InnerTargets(env: Env, l: Lab, vs: seq<Val>, pos: nat, frames: seq<Frame>, after: seq<Frame>)
    requires EnvOk(env) && l.height == |env.outer + vs|
    requires |frames| == |env.ctx.labels| + 1
    requires FramesGrown(frames[..|env.ctx.labels|], after) && TargetsOk(env, after)
    requires var f := frames[|env.ctx.labels|];
             Wanted(f) && f.BrTarget().To? ==>
             Resolves(env.p.ops, f.BrTarget().name, pos, env.ctx.locals + Opds(env, vs) + l.Types())
    ensures EnvOk(Inner(env, l, vs, pos)) && TargetsOk(Inner(env, l, vs, pos), frames)
  {
    InnerOk(env, l, vs, pos);
    var inner := Inner(env, l, vs, pos);
    var n := |env.ctx.labels|;
    TargetsShrink(env, frames[..n], after);
    forall i | 0 < i < |frames| && i < |inner.ctx.labels| && Wanted(frames[i]) && frames[i].BrTarget().To?
      ensures Resolves(inner.p.ops, frames[i].BrTarget().name, inner.tgt[i], ParamTypes(inner, i))
    {
      if i < n {
        InnerParams(env, l, vs, pos, i);
        assert frames[..n][i] == frames[i];
      } else {
        LastParams(env, l, vs, pos);
      }
    }
  }

  // ---------------------------------------------------------------- leaving a block

  /** A branch past the block is the same branch seen from outside. */
  lemma OuterBranch(env: Env, l: Lab, vs: seq<Val>, pos: nat, r: Result, endPc: nat, endPc': nat)
    requires EnvOk(env) && l.height == |env.outer + vs|
    requires r.Branch? && 0 < r.depth <= |env.ctx.labels|
    ensures Expect(Inner(env, l, vs, pos), r, endPc) == Expect(env, Branch(r.depth - 1, r.locals, r.vals, r.store),
      endPc')
  {
    var i := |env.ctx.labels| - r.depth;
    var h := env.ctx.labels[i].height;
    assert (env.outer + vs)[..h] == env.outer[..h];
  }

  lemma OwnBranch(env: Env, l: Lab, vs: seq<Val>, pos: nat, r: Result, endPc: nat)
    requires EnvOk(env) && l.height == |env.outer + vs|
    requires r.Branch? && r.depth == 0
    ensures Expect(Inner(env, l, vs, pos), r, endPc) == Running(pos + 1, Stack(env, r.locals, vs + r.vals), r.store)
  {
    assert (env.outer + vs)[..l.height] == env.outer + vs;
    InnerStack(env, l, vs, pos, r.locals, r.vals);
  }

  lemma LeaveTypes(env: Env, l: Lab, vs: seq<Val>, pos: nat, r: Result, chk: Checked)
    requires EnvOk(env) && l.height == |env.outer + vs|
    requires ResultOk(Inner(env, l, vs, pos), r, chk) && EndsWith(chk, Opds(env, vs) + l.rets)
    requires r.Branch? && r.depth == 0 ==> !l.isLoop
    ensures ResultOk(env, LeaveBlock(r, vs), Live(Opds(env, vs) + l.rets))
  {
    if r.Normal? || (r.Branch? && r.depth == 0) {
      assert env.outer + (vs + r.vals) == env.outer + vs + r.vals;
      TypesConcat(env.outer + vs, r.vals);
    }
  }

  /** The body has run; its end runs into or jumps over the closing operators. */
  lemma LeaveSim(env: Env, l: Lab, vs: seq<Val>, pos: nat, s: State, k: nat, r: Result, fuel: nat,
                 bodyEnd: nat, endPc: nat, chk: Checked, j: nat) returns (k': nat)
    requires EnvOk(env) && l.height == |env.outer + vs| && EnvOk(Inner(env, l, vs, pos))
    requires Sim(Inner(env, l, vs, pos), s, k, r, fuel, bodyEnd, chk) && EndsWith(chk, Opds(env, vs) + l.rets)
    requires r.Branch? && r.depth == 0 ==> !l.isLoop && pos + 1 == endPc
    requires r.Normal? ==>
      Steps(env.sem, env.p, j, Running(bodyEnd, Stack(env, r.locals, vs + r.vals), r.store)) ==
      Running(endPc, Stack(env, r.locals, vs + r.vals), r.store)
    ensures Sim(env, s, k', LeaveBlock(r, vs), fuel, endPc, Live(Opds(env, vs) + l.rets))
  {
    LeaveTypes(env, l, vs, pos, r, chk);
    k' := k;
    match r
    case Normal(locals, rs, _) =>
      k' := k + j;
      InnerStack(env, l, vs, pos, locals, rs);
      StepsAdd(env.sem, env.p, k, j, s);
    case Branch(d, _, _, _) =>
      if d == 0 {
        OwnBranch(env, l, vs, pos, r, bodyEnd);
      } else {
        OuterBranch(env, l, vs, pos, r, bodyEnd, endPc);
      }
    case _ =>
  }

  /** Prefixing a simulation with the steps that reach its start. */
  lemma Prefix(env: Env, s: State, j: nat, t: State, k: nat, r: Result, fuel: nat, endPc: nat, chk: Checked)
    requires EnvOk(env) && Steps(env.sem, env.p, j, s) == t && Sim(env, t, k, r, fuel, endPc, chk)
    ensures Sim(env, s, j + k, r, fuel, endPc, chk)
  {
    StepsAdd(env.sem, env.p, j, k, s);
  }

  /** A result that is not Normal does not depend on where the code ends. */
  lemma EndIrrelevant(env: Env, s: State, k: nat, r: Result, fuel: nat, e: nat, e': nat, chk: Checked, chk': Checked)
    requires EnvOk(env) && Sim(env, s, k, r, fuel, e, chk) && !r.Normal?
    ensures Sim(env, s, k, r, fuel, e', chk')
  {
  }

  /** Reaching the live end of a block: fall through, or branch to the label at the very end. */
  lemma CloseRun(env: Env, f: Frame, bodyEnd: nat, stack: seq<Val>, store: Store) returns (j: nat)
    requires At(env.p.ops, bodyEnd, EndOut(f, false))
    requires var n := |EndOut(f, false)|;
             n > 0 ==> Resolves(env.p.ops, Name(f.id, End), bodyEnd + n - 1, TypesOf(stack))
    ensures Steps(env.sem, env.p, j, Running(bodyEnd, stack, store)) ==
            Running(bodyEnd + |EndOut(f, false)|, stack, store)
  {
    var out := EndOut(f, false);
    if out == [] {
      j := 0;
    } else {
      j := 1;
      AtIndex(env.p.ops, bodyEnd, out, 0);
      JumpExact(env.p, Name(f.id, End), bodyEnd + |out| - 1, stack, store);
      One(env.sem, env.p, Running(bodyEnd, stack, store));
    }
  }

  lemma EndStackTypes(env: Env, l: Lab, vs: seq<Val>, pos: nat, r: Result, chk: Checked)
    requires EnvOk(env) && l.height == |env.outer + vs|
    requires r.Normal? && ResultOk(Inner(env, l, vs, pos), r, chk) && EndsWith(chk, Opds(env, vs) + l.rets)
    ensures TypesOf(Stack(env, r.locals, vs + r.vals)) == env.ctx.locals + (Opds(env, vs) + l.rets)
  {
    assert Stack(env, r.locals, vs + r.vals) == r.locals + (env.outer + vs + r.vals);
    TypesConcat(r.locals, env.outer + vs + r.vals);
  }

  lemma FinishBlock(env: Env, l: Lab, vs: seq<Val>, f: Frame, pos: nat, s: State, k: nat, r: Result, fuel: nat,
                    bodyEnd: nat, chk: Checked) returns (k': nat)
    requires EnvOk(env) && l.height == |env.outer + vs| && EnvOk(Inner(env, l, vs, pos))
    requires Sim(Inner(env, l, vs, pos), s, k, r, fuel, bodyEnd, chk) && EndsWith(chk, Opds(env, vs) + l.rets)
    requires At(env.p.ops, bodyEnd, EndOut(f, chk.Dead?))
    requires r.Branch? && r.depth == 0 ==> !l.isLoop && pos + 1 == bodyEnd + |EndOut(f, chk.Dead?)|
    requires EndOut(f, chk.Dead?) != [] ==>
      Resolves(env.p.ops, Name(f.id, End), bodyEnd + |EndOut(f, chk.Dead?)| - 1,
               env.ctx.locals + (Opds(env, vs) + l.rets))
    ensures Sim(env, s, k', LeaveBlock(r, vs), fuel, bodyEnd + |EndOut(f, chk.Dead?)|, Live(Opds(env, vs) + l.rets))
  {
    var j := 0;
    if r.Normal? {
      EndStackTypes(env, l, vs, pos, r, chk);
      j := CloseRun(env, f, bodyEnd, Stack(env, r.locals, vs + r.vals), r.store);
    }
    k' := LeaveSim(env, l, vs, pos, s, k, r, fuel, bodyEnd, bodyEnd + |EndOut(f, chk.Dead?)|, chk, j);
  }

  lemma EndOutLast(f: Frame, dead: bool)
    requires EndOut(f, dead) != []
    ensures EndOut(f, dead)[|EndOut(f, dead)| - 1] == MLabel(Name(f.id, End))
  {
  }

  /** The end label of a block, once its declaration and its closing operators are in place. */
  lemma EndResolves(env: Env, f: Frame, dead: bool, decl: nat, bodyEnd: nat, params: seq<Ty>)
    requires EnvOk(env) && At(env.p.ops, bodyEnd, EndOut(f, dead)) && EndOut(f, dead) != []
    requires decl < |env.p.ops| && env.p.ops[decl] == EndDecl(params, Name(f.id, End))
    ensures Resolves(env.p.ops, Name(f.id, End), bodyEnd + |EndOut(f, dead)| - 1, params)
  {
    EndOutLast(f, dead);
    AtIndex(env.p.ops, bodyEnd, EndOut(f, dead), |EndOut(f, dead)| - 1);
    ResolveHere(env.p.ops, Name(f.id, End), decl, bodyEnd + |EndOut(f, dead)| - 1, params);
  }

  /** Everything needed to run a body inside its block. */
  ghost predicate BodyReady(env: Env, st: Stages, l: Lab, locals: seq<Val>, vs: seq<Val>, pos: nat, bodyPc: nat) {
    && EnvOk(env) && l.height == |env.outer + vs|
    && Ready(Inner(env, l, vs, pos), st.open, Ok(st.inner, st.body), locals, [], bodyPc)
  }

  lemma MakeBodyReady(env: Env, st: Stages, l: Lab, after: seq<Frame>, locals: seq<Val>, vs: seq<Val>,
                      pos: nat, bodyPc: nat)
    requires EnvOk(env) && l.height == |env.outer + vs|
    requires TypesOf(locals) == env.ctx.locals
    requires InStep(st.open, env.ctx.Push(l), Opds(env, vs))
    requires At(env.p.ops, bodyPc, st.body)
    requires |st.inner.frames| == |env.ctx.labels| + 1
    requires FramesGrown(st.inner.frames[..|env.ctx.labels|], after) && TargetsOk(env, after)
    requires var f := st.inner.frames[|env.ctx.labels|];
             Wanted(f) && f.BrTarget().To? ==>
             Resolves(env.p.ops, f.BrTarget().name, pos, env.ctx.locals + Opds(env, vs) + l.Types())
    ensures BodyReady(env, st, l, locals, vs, pos, bodyPc)
  {
    InnerOk(env, l, vs, pos);
    InnerTargets(env, l, vs, pos, st.inner.frames, after);
  }

  lemma FrameCount(env: Env, c: Conv, locals: seq<Val>, vs: seq<Val>)
    requires StateOk(env, c, locals, vs)
    ensures |c.frames| == |env.ctx.labels| && c.stack == env.ctx.locals + Opds(env, vs)
  {
  }

  lemma GrownRefl(fs: seq<Frame>)
    ensures FramesGrown(fs, fs)
  {
  }

  // ---------------------------------------------------------------- the simulation

  /** Validated code, wherever its chunk lies in a program, is simulated by the machine. */
  lemma {:induction false} SimCode(env: Env, c: Conv, code: Code, fuel: nat, locals: seq<Val>, vs: seq<Val>,
                                   store: Store, pc: nat) returns (k: nat)
    requires Ready(env, c, ConvertCode(c, code), locals, vs, pc)
    requires !CheckCode(env.ctx, code, Opds(env, vs)).Invalid?
    ensures Sim(env, Start(env, pc, locals, vs, store), k,
                ExecCode(env.sem, Arities(env.ctx), code, fuel, locals, vs, store), fuel,
                pc + |ConvertCode(c, code).out|, CheckCode(env.ctx, code, Opds(env, vs)))
    decreases fuel, code, 0
  {
    hide ConvertInstr, CheckInstr, ExecInstr, Sim, ResultOk, At, TargetsOk, InStep;
    match code
    case Nil => k := 0; NothingRuns(env, c, fuel, locals, vs, store, pc);
    case Cons(i, rest) =>
      ReadyHead(env, c, i, rest, locals, vs, pc);
      var k1 := SimInstr(env, c, i, fuel, locals, vs, store, pc);
      var r := ExecInstr(env.sem, Arities(env.ctx), i, fuel, locals, vs, store);
      if r.Normal? {
        var pc2 := pc + |ConvertInstr(c, i).out|;
        NormalRun(env, Start(env, pc, locals, vs, store), k1, r, fuel, pc2, CheckInstr(env.ctx, i, Opds(env, vs)));
        ReadyTail(env, c, i, rest, locals, vs, pc, r);
        var k2 := SimCode(env, ConvertInstr(c, i).conv, rest, fuel, r.locals, r.vals, r.store, pc2);
        Prefix(env, Start(env, pc, locals, vs, store), k1, Start(env, pc2, r.locals, r.vals, r.store), k2,
               ExecCode(env.sem, Arities(env.ctx), rest, fuel, r.locals, r.vals, r.store), fuel,
               pc + |ConvertCode(c, code).out|, CheckCode(env.ctx, code, Opds(env, vs)));
        k := k1 + k2;
      } else {
        k := k1;
        EndIrrelevant(env, Start(env, pc, locals, vs, store), k, r, fuel, pc + |ConvertInstr(c, i).out|,
                      pc + |ConvertCode(c, code).out|, CheckInstr(env.ctx, i, Opds(env, vs)),
                      CheckCode(env.ctx, code, Opds(env, vs)));
      }
  }

  lemma NothingRuns(env: Env, c: Conv, fuel: nat, locals: seq<Val>, vs: seq<Val>, store: Store, pc: nat)
    requires StateOk(env, c, locals, vs)
    ensures Sim(env, Start(env, pc, locals, vs, store), 0, Normal(locals, vs, store), fuel, pc, Live(Opds(env, vs)))
  {
  }

  lemma NormalRun(env: Env, s: State, k: nat, r: Result, fuel: nat, endPc: nat, chk: Checked)
    requires EnvOk(env) && Sim(env, s, k, r, fuel, endPc, chk) && r.Normal?
    ensures Steps(env.sem, env.p, k, s) == Start(env, endPc, r.locals, r.vals, r.store) && ResultOk(env, r, chk)
  {
  }

  lemma ReadyTail(env: Env, c: Conv, i: Instr, rest: Code, locals: seq<Val>, vs: seq<Val>, pc: nat, r: Result)
    requires Ready(env, c, ConvertCode(c, Cons(i, rest)), locals, vs, pc)
    requires !CheckCode(env.ctx, Cons(i, rest), Opds(env, vs)).Invalid?
    requires r.Normal? && ResultOk(env, r, CheckInstr(env.ctx, i, Opds(env, vs)))
    ensures ConvertInstr(c, i).Ok?
    ensures var e1 := ConvertInstr(c, i); var e2 := ConvertCode(e1.conv, rest);
            && e2.Ok? && Ready(env, e1.conv, e2, r.locals, r.vals, pc + |e1.out|)
            && CheckCode(env.ctx, Cons(i, rest), Opds(env, vs)) == CheckCode(env.ctx, rest, Opds(env, r.vals))
            && pc + |ConvertCode(c, Cons(i, rest)).out| == pc + |e1.out| + |e2.out|
  {
    hide ConvertInstr, CheckInstr;
    ReadyHead(env, c, i, rest, locals, vs, pc);
    HeadTail(c, env.ctx, i, rest, Opds(env, vs));
    AfterInStep(c, ConvertInstr(c, i).conv, env.ctx, Opds(env, vs), Opds(env, r.vals));
  }

  /** An instruction and the code after it, as two consecutive chunks. */
  lemma HeadTail(c: Conv, ctx: Ctx, i: Instr, rest: Code, opds: seq<Ty>)
    requires InStep(c, ctx, opds) && !CheckCode(ctx, Cons(i, rest), opds).Invalid?
    ensures var e1 := ConvertInstr(c, i);
            && e1.Ok? && After(c, e1.conv, ctx, opds, CheckInstr(ctx, i, opds))
            && var e2 := ConvertCode(e1.conv, rest);
               && e2.Ok? && FramesGrown(e1.conv.frames, e2.conv.frames)
               && ConvertCode(c, Cons(i, rest)) == Ok(e2.conv, e1.out + e2.out)
  {
    InstrOk(c, ctx, i, opds);
    var e1 := ConvertInstr(c, i);
    match CheckInstr(ctx, i, opds) {
      case Live(o1) =>
        AfterInStep(c, e1.conv, ctx, opds, o1);
        CodeOk(e1.conv, ctx, rest, o1);
      case Dead =>
        SkipCode(e1.conv, rest);
        GrownRefl(e1.conv.frames);
    }
  }

  lemma ReadyHead(env: Env, c: Conv, i: Instr, rest: Code, locals: seq<Val>, vs: seq<Val>, pc: nat)
    requires Ready(env, c, ConvertCode(c, Cons(i, rest)), locals, vs, pc)
    requires !CheckCode(env.ctx, Cons(i, rest), Opds(env, vs)).Invalid?
    ensures Ready(env, c, ConvertInstr(c, i), locals, vs, pc)
    ensures var e1 := ConvertInstr(c, i); var e2 := ConvertCode(e1.conv, rest);
            && e2.Ok? && At(env.p.ops, pc + |e1.out|, e2.out) && TargetsOk(env, e2.conv.frames)
            && |ConvertCode(c, Cons(i, rest)).out| == |e1.out| + |e2.out|
  {
    hide ConvertInstr, CheckInstr;
    HeadTail(c, env.ctx, i, rest, Opds(env, vs));
    var e1 := ConvertInstr(c, i);
    var e2 := ConvertCode(e1.conv, rest);
    AtConcat(env.p.ops, pc, e1.out, e2.out);
    TargetsShrink(env, e1.conv.frames, e2.conv.frames);
  }

  lemma {:induction false} SimInstr(env: Env, c: Conv, i: Instr, fuel: nat, locals: seq<Val>, vs: seq<Val>,
                                    store: Store, pc: nat) returns (k: nat)
    requires Ready(env, c, ConvertInstr(c, i), locals, vs, pc)
    requires !CheckInstr(env.ctx, i, Opds(env, vs)).Invalid?
    ensures Sim(env, Start(env, pc, locals, vs, store), k,
                ExecInstr(env.sem, Arities(env.ctx), i, fuel, locals, vs, store), fuel,
                pc + |ConvertInstr(c, i).out|, CheckInstr(env.ctx, i, Opds(env, vs)))
    decreases fuel, i, 3
  {
    match i
    case Block(bt, body) => k := BlockSim(env, c, i, fuel, locals, vs, store, pc);
    case Loop(bt, body) => k := LoopSim(env, c, i, fuel, locals, vs, store, pc);
    case IfThen(bt, thn) => k := IfThenSim(env, c, i, fuel, locals, vs, store, pc);
    case IfElse(bt, thn, els) => k := IfElseSim(env, c, i, fuel, locals, vs, store, pc);
    case _ => k := LeafSim(env, c, i, fuel, locals, vs, store, pc);
  }

  /** The instructions without a body; each is one operator of the stream. */
  lemma LeafSim(env: Env, c: Conv, i: Instr, fuel: nat, locals: seq<Val>, vs: seq<Val>, store: Store, pc: nat)
    returns (k: nat)
    requires !i.Block? && !i.Loop? && !i.IfThen? && !i.IfElse?
    requires Ready(env, c, ConvertInstr(c, i), locals, vs, pc)
    requires !CheckInstr(env.ctx, i, Opds(env, vs)).Invalid?
    ensures Sim(env, Start(env, pc, locals, vs, store), k,
                ExecInstr(env.sem, Arities(env.ctx), i, fuel, locals, vs, store), fuel,
                pc + |ConvertInstr(c, i).out|, CheckInstr(env.ctx, i, Opds(env, vs)))
  {
    hide InStep, TargetsOk, At, Sim, Convert1, ExecBr, BranchOk;
    OperandCount(env, c, locals, vs);
    match i
    case Unreachable => k := 1; TrapSim(env, c, locals, vs, store, pc, fuel); TrapEnds(env, c, locals, vs);
    case Nop => k := 0; NopSim(env, c, locals, vs, store, pc, fuel);
    case Br(d) => k := BrSim(env, c, d, locals, vs, store, pc, fuel);
    case BrIf(d) => k := 2; BrIfSim(env, c, d, locals, vs, store, pc, fuel);
    case BrTable(ds, d) => k := 1; TableSim(env, c, ds, d, locals, vs, store, pc, fuel);
    case Return => k := ReturnSim(env, c, locals, vs, store, pc, fuel);
    case Drop => k := 1; DropSim(env, c, locals, vs, store, pc, fuel);
    case Select => k := 1; SelectSim(env, c, locals, vs, store, pc, fuel);
    case GetLocal(x) => k := 1; GetLocalSim(env, c, x, locals, vs, store, pc, fuel);
    case SetLocal(x) => k := 2; SetLocalSim(env, c, x, locals, vs, store, pc, fuel);
    case TeeLocal(x) => k := 3; TeeLocalSim(env, c, x, locals, vs, store, pc, fuel);
    case Const(v) => k := 1; ConstSim(env, c, v, locals, vs, store, pc, fuel);
    case Plain(op) => k := 1; PlainSim(env, c, op, locals, vs, store, pc, fuel);
  }

  lemma OperandCount(env: Env, c: Conv, locals: seq<Val>, vs: seq<Val>)
    requires StateOk(env, c, locals, vs)
    ensures |Opds(env, vs)| == env.ctx.Base() + |vs| && |locals| == |env.ctx.locals|
  {
  }

  lemma TrapEnds(env: Env, c: Conv, locals: seq<Val>, vs: seq<Val>)
    requires StateOk(env, c, locals, vs)
    ensures Convert1(c, OpUnreachable).Ok? && |Convert1(c, OpUnreachable).out| == 1
  {
    TrapLeaf(c, env.ctx, Opds(env, vs));
  }

  lemma NopSim(env: Env, c: Conv, locals: seq<Val>, vs: seq<Val>, store: Store, pc: nat, fuel: nat)
    requires Ready(env, c, Convert1(c, OpNop), locals, vs, pc)
    ensures Sim(env, Start(env, pc, locals, vs, store), 0, Normal(locals, vs, store), fuel,
                pc + |Convert1(c, OpNop).out|, Live(Opds(env, vs)))
  {
    TrapLeaf(c, env.ctx, Opds(env, vs));
  }

  lemma TableSim(env: Env, c: Conv, ds: seq<nat>, d: nat, locals: seq<Val>, vs: seq<Val>, store: Store, pc: nat,
      fuel: nat)
    requires Ready(env, c, Convert1(c, OpBrTable(ds, d)), locals, vs, pc)
    requires CheckInstr(env.ctx, BrTable(ds, d), Opds(env, vs)).Dead?
    ensures |vs| > 0
    ensures var n := vs[|vs| - 1].bits;
            Sim(env, Start(env, pc, locals, vs, store), 1,
                ExecBr(Arities(env.ctx), if n < |ds| then ds[n] else d, locals, vs[..|vs| - 1], store),
                fuel, pc + |Convert1(c, OpBrTable(ds, d)).out|, Dead)
  {
    hide TargetsOk, At, Sim, Convert1, ExecBr;
    PopOne(env, c, locals, vs);
    FrameCount(env, c, locals, vs);
    var n := vs[|vs| - 1].bits;
    var o := PopTop(Opds(env, vs), 1);
    assert forall j :: 0 <= j < |ds| ==> BranchOk(env.ctx, ds[j], o);
    assert BranchOk(env.ctx, if n < |ds| then ds[n] else d, o);
    BrTableSim(env, c, ds, d, locals, vs, store, pc, fuel);
  }

  lemma {:induction false} BlockSim(env: Env, c: Conv, i: Instr, fuel: nat, locals: seq<Val>, vs: seq<Val>,
                                    store: Store, pc: nat) returns (k: nat)
    requires i.Block? && Ready(env, c, ConvertInstr(c, i), locals, vs, pc)
    requires !CheckInstr(env.ctx, i, Opds(env, vs)).Invalid?
    ensures Sim(env, Start(env, pc, locals, vs, store), k,
                ExecInstr(env.sem, Arities(env.ctx), i, fuel, locals, vs, store), fuel,
                pc + |ConvertInstr(c, i).out|, CheckInstr(env.ctx, i, Opds(env, vs)))
    decreases fuel, i, 2
  {
    hide InStep, After, TargetsOk, At, Resolves, Sim, EndOut, Closed, Steps, Step, Expect, ResultOk;
    hide ConvertInstr, ConvertCode, CheckCode, ExecCode;
    var o := Opds(env, vs);
    var l := Lab(false, Rets(i.bt), |o|);
    var st, pos := BlockSetup(env, c, i, locals, vs, pc);
    var inner := Inner(env, l, vs, pos);
    InnerOk(env, l, vs, pos);
    var k1 := SimCode(inner, st.open, i.body, fuel, locals, [], store, pc + 1);
    var r := ExecCode(env.sem, Arities(env.ctx) + [|Rets(i.bt)|], i.body, fuel, locals, [], store);
    var f := st.inner.frames[|env.ctx.labels|];
    InnerStack(env, l, vs, pos, locals, []);
    var k2 := FinishBlock(env, l, vs, f, pos, Start(env, pc + 1, locals, vs, store), k1, r, fuel, pc + 1 + |st.body|,
                          CheckCode(env.ctx.Push(l), i.body, o));
    PassDecl(env, pc, Stack(env, locals, vs), store);
    Prefix(env, Start(env, pc, locals, vs, store), 1, Start(env, pc + 1, locals, vs, store), k2, LeaveBlock(r, vs),
      fuel,
           pc + |ConvertInstr(c, i).out|, CheckInstr(env.ctx, i, o));
    k := 1 + k2;
  }

  /** The operators that open a bracket, at their places. */
  lemma OpeningPlaces(env: Env, c: Conv, bt: BlockType, pc: nat)
    ensures OpenBlock(c, bt).Ok? && OpenLoop(c, bt).Ok? && OpenIf(c, bt).Ok?
    ensures |OpenBlock(c, bt).out| == 1 && |OpenLoop(c, bt).out| == 4 && |OpenIf(c, bt).out| == 5
    ensures OpenBlock(c, bt).conv.frames == c.frames + [Frame(c.nextId, |c.stack|, Rets(bt), BlockKind(false))]
    ensures OpenLoop(c, bt).conv.frames == c.frames + [Frame(c.nextId, |c.stack|, Rets(bt), LoopKind)]
    ensures OpenIf(c, bt).conv.frames == c.frames + [Frame(c.nextId, |c.stack|, Rets(bt), IfKind(false))]
    ensures At(env.p.ops, pc, OpenBlock(c, bt).out) ==>
      env.p.ops[pc] == EndDecl(c.stack + Rets(bt), Name(c.nextId, End))
    ensures At(env.p.ops, pc, OpenLoop(c, bt).out) ==>
      && env.p.ops[pc] == LoopDecl(c.stack, Name(c.nextId, Header))
      && env.p.ops[pc + 1] == EndDecl(c.stack + Rets(bt), Name(c.nextId, End))
      && env.p.ops[pc + 2] == MBr(To(Name(c.nextId, Header)))
      && env.p.ops[pc + 3] == MLabel(Name(c.nextId, Header))
    ensures At(env.p.ops, pc, OpenIf(c, bt).out) ==>
      env.p.ops[pc + 2] == EndDecl(c.stack + Rets(bt), Name(c.nextId, End))
  {
    if At(env.p.ops, pc, OpenBlock(c, bt).out) {
      AtIndex(env.p.ops, pc, OpenBlock(c, bt).out, 0);
    }
    if At(env.p.ops, pc, OpenLoop(c, bt).out) {
      AtIndex(env.p.ops, pc, OpenLoop(c, bt).out, 0);
      AtIndex(env.p.ops, pc, OpenLoop(c, bt).out, 1);
      AtIndex(env.p.ops, pc, OpenLoop(c, bt).out, 2);
      AtIndex(env.p.ops, pc, OpenLoop(c, bt).out, 3);
    }
    if At(env.p.ops, pc, OpenIf(c, bt).out) {
      AtIndex(env.p.ops, pc, OpenIf(c, bt).out, 2);
    }
  }

  lemma AtBound(ops: seq<Op>, pc: nat, out: seq<Op>)
    requires At(ops, pc, out)
    ensures pc + |out| <= |ops|
  {
  }

  /** A label that is branched to and lies at the end of its block is emitted there. */
  lemma WantedCloses(f: Frame, dead: bool)
    requires Wanted(f) && !f.kind.LoopKind?
    ensures EndOut(f, dead) != [] && f.BrTarget() == To(Name(f.id, End))
  {
  }

  lemma IfThenCloses(env: Env, f: Frame, dead: bool, bodyEnd: nat)
    requires f.kind == IfKind(false) && At(env.p.ops, bodyEnd, EndOut(f, dead))
    ensures var m := bodyEnd + |EndOut(f, dead)|;
            && bodyEnd + 3 <= m <= |env.p.ops|
            && env.p.ops[m - 3] == MLabel(Name(f.id, Else)) && env.p.ops[m - 2] == MBr(To(Name(f.id, End)))
  {
    var out := EndOut(f, dead);
    AtIndex(env.p.ops, bodyEnd, out, |out| - 3);
    AtIndex(env.p.ops, bodyEnd, out, |out| - 2);
  }

  lemma EndOutIf(f: Frame, dead: bool)
    requires f.kind.IfKind?
    ensures EndOut(f, dead) != []
  {
  }

  lemma AfterGrown(c: Conv, c': Conv, ctx: Ctx, opds: seq<Ty>, r: Checked)
    requires ctx.Wf() && ctx.Base() <= |opds| && After(c, c', ctx, opds, r)
    ensures FramesGrown(c.frames, c'.frames)
  {
  }

  lemma PassDecl(env: Env, pc: nat, stack: seq<Val>, store: Store)
    requires pc < |env.p.ops| && env.p.ops[pc].MBlock?
    ensures Steps(env.sem, env.p, 1, Running(pc, stack, store)) == Running(pc + 1, stack, store)
    ensures Step(env.sem, env.p, Running(pc, stack, store)) == Running(pc + 1, stack, store)
  {
    One(env.sem, env.p, Running(pc, stack, store));
  }

  lemma BlockSetup(env: Env, c: Conv, i: Instr, locals: seq<Val>, vs: seq<Val>, pc: nat) returns (st: Stages, pos: nat)
    requires i.Block? && Ready(env, c, ConvertInstr(c, i), locals, vs, pc)
    requires !CheckInstr(env.ctx, i, Opds(env, vs)).Invalid?
    ensures var o := Opds(env, vs); var l := Lab(false, Rets(i.bt), |o|);
            var n := |env.ctx.labels|; var bodyEnd := pc + 1 + |st.body|;
            && StagesOf(st, c, env.ctx, o, l, i.body, ConvertInstr(c, i))
            && |st.inner.frames| == n + 1
            && BodyReady(env, st, l, locals, vs, pos, pc + 1)
            && pc < |env.p.ops| && env.p.ops[pc].MBlock?
            && At(env.p.ops, bodyEnd, st.closing)
            && pos + 1 == bodyEnd + |st.closing| == pc + |ConvertInstr(c, i).out|
            && (st.closing != [] ==>
                Resolves(env.p.ops, Name(st.inner.frames[n].id, End), pos, env.ctx.locals + (o + l.rets)))
  {
    hide ConvertInstr, FrameMatches, FramesMatch;
    hide ConvertCode, CheckCode, InStep, After, TargetsOk, Resolves, At, EndOut, OpenBlock, OpenLoop, OpenIf;
    hide FramesGrown, Nested, Unique, TypesOf;
    FrameCount(env, c, locals, vs);
    var o := Opds(env, vs);
    var l := Lab(false, Rets(i.bt), |o|);
    var n := |env.ctx.labels|;
    st := BlockOk(c, env.ctx, i, o);
    StageFrame(st, c, env.ctx, o, l, i.body, ConvertInstr(c, i));
    var bodyEnd := pc + 1 + |st.body|;
    pos := bodyEnd + |st.closing| - 1;
    AtConcat(env.p.ops, pc, st.opening + st.body, st.closing);
    AtConcat(env.p.ops, pc, st.opening, st.body);
    OpeningPlaces(env, c, i.bt, pc);
    AtBound(env.p.ops, pc, st.opening);
    var f := st.inner.frames[n];
    assert env.ctx.locals + o + l.rets == env.ctx.locals + (o + l.rets);
    if Wanted(f) {
      WantedCloses(f, st.dead);
    }
    if st.closing != [] {
      EndResolves(env, f, st.dead, pc, bodyEnd, env.ctx.locals + (o + l.rets));
    }
    GrownRefl(st.inner.frames[..n]);
    MakeBodyReady(env, st, l, st.inner.frames[..n], locals, vs, pos, pc + 1);
  }

  // ---------------------------------------------------------------- loops

  ghost predicate LoopReady(env: Env, c: Conv, i: Instr, st: Stages, locals: seq<Val>, vs: seq<Val>, pc: nat)
    requires i.Loop?
  {
    var o := Opds(env, vs); var l := Lab(true, Rets(i.bt), |o|);
    var n := |env.ctx.labels|; var bodyEnd := pc + 4 + |st.body|;
    && EnvOk(env) && !CheckInstr(env.ctx, i, o).Invalid? && StagesOf(st, c, env.ctx, o, l, i.body, ConvertInstr(c, i))
    && EndsWith(CheckCode(env.ctx.Push(l), i.body, o), o + l.rets)
    && |st.inner.frames| == n + 1
    && BodyReady(env, st, l, locals, vs, pc + 3, pc + 4)
    && At(env.p.ops, bodyEnd, st.closing)
    && bodyEnd + |st.closing| == pc + |ConvertInstr(c, i).out|
    && (st.closing != [] ==>
        Resolves(env.p.ops, Name(st.inner.frames[n].id, End), bodyEnd + |st.closing| - 1,
                 env.ctx.locals + (o + l.rets)))
  }

  lemma LoopSetup(env: Env, c: Conv, i: Instr, locals: seq<Val>, vs: seq<Val>, pc: nat) returns (st: Stages)
    requires i.Loop? && Ready(env, c, ConvertInstr(c, i), locals, vs, pc)
    requires !CheckInstr(env.ctx, i, Opds(env, vs)).Invalid?
    ensures LoopReady(env, c, i, st, locals, vs, pc)
    ensures pc + 2 < |env.p.ops| && env.p.ops[pc].MBlock? && env.p.ops[pc + 1].MBlock?
    ensures env.p.ops[pc + 2] == MBr(To(Name(c.nextId, Header)))
    ensures Resolves(env.p.ops, Name(c.nextId, Header), pc + 3, c.stack)
  {
    hide ConvertInstr;
    hide ConvertCode, CheckCode, InStep, After, TargetsOk, Resolves, At, EndOut, OpenBlock, OpenLoop, OpenIf;
    hide FramesGrown, Nested, Unique, TypesOf;
    FrameCount(env, c, locals, vs);
    var o := Opds(env, vs);
    var l := Lab(true, Rets(i.bt), |o|);
    var n := |env.ctx.labels|;
    st := LoopOk(c, env.ctx, i, o);
    StageFrame(st, c, env.ctx, o, l, i.body, ConvertInstr(c, i));
    var bodyEnd := pc + 4 + |st.body|;
    AtConcat(env.p.ops, pc, st.opening + st.body, st.closing);
    AtConcat(env.p.ops, pc, st.opening, st.body);
    OpeningPlaces(env, c, i.bt, pc);
    AtBound(env.p.ops, pc, st.opening);
    var f := st.inner.frames[n];
    assert env.ctx.locals + o + l.rets == env.ctx.locals + (o + l.rets);
    if st.closing != [] {
      EndResolves(env, f, st.dead, pc + 1, bodyEnd, env.ctx.locals + (o + l.rets));
    }
    ResolveHere(env.p.ops, Name(c.nextId, Header), pc, pc + 3, c.stack);
    assert c.stack == env.ctx.locals + o + l.Types();
    GrownRefl(st.inner.frames[..n]);
    MakeBodyReady(env, st, l, st.inner.frames[..n], locals, vs, pc + 3, pc + 4);
  }

  lemma LoopEntry(env: Env, name: Name, pc: nat, stack: seq<Val>, store: Store)
    requires pc + 2 < |env.p.ops| && env.p.ops[pc].MBlock? && env.p.ops[pc + 1].MBlock?
    requires env.p.ops[pc + 2] == MBr(To(name)) && Resolves(env.p.ops, name, pc + 3, TypesOf(stack))
    ensures Steps(env.sem, env.p, 3, Running(pc, stack, store)) == Running(pc + 4, stack, store)
  {
    Two(env.sem, env.p, Running(pc, stack, store));
    One(env.sem, env.p, Running(pc + 2, stack, store));
    JumpExact(env.p, name, pc + 3, stack, store);
    StepsAdd(env.sem, env.p, 2, 1, Running(pc, stack, store));
  }

  lemma {:induction false} LoopSim(env: Env, c: Conv, i: Instr, fuel: nat, locals: seq<Val>, vs: seq<Val>,
                                   store: Store, pc: nat) returns (k: nat)
    requires i.Loop? && Ready(env, c, ConvertInstr(c, i), locals, vs, pc)
    requires !CheckInstr(env.ctx, i, Opds(env, vs)).Invalid?
    ensures Sim(env, Start(env, pc, locals, vs, store), k,
                ExecInstr(env.sem, Arities(env.ctx), i, fuel, locals, vs, store), fuel,
                pc + |ConvertInstr(c, i).out|, CheckInstr(env.ctx, i, Opds(env, vs)))
    decreases fuel, i, 2
  {
    hide InStep, TargetsOk, At, Resolves, Sim, Steps, Step, Expect, LoopReady, TypesOf;
    hide ConvertInstr, CheckInstr, ExecInstr;
    var st := LoopSetup(env, c, i, locals, vs, pc);
    StackTypes(env, c, locals, vs);
    LoopEntry(env, Name(c.nextId, Header), pc, Stack(env, locals, vs), store);
    var k1 := LoopIter(env, c, i, st, fuel, locals, vs, store, pc);
    Prefix(env, Start(env, pc, locals, vs, store), 3, Start(env, pc + 4, locals, vs, store), k1,
           ExecInstr(env.sem, Arities(env.ctx), i, fuel, locals, vs, store), fuel,
           pc + |ConvertInstr(c, i).out|, CheckInstr(env.ctx, i, Opds(env, vs)));
    k := 3 + k1;
  }

  lemma LoopReadyAgain(env: Env, c: Conv, i: Instr, st: Stages, locals: seq<Val>, locals': seq<Val>, vs: seq<Val>,
      pc: nat)
    requires i.Loop? && LoopReady(env, c, i, st, locals, vs, pc) && TypesOf(locals') == env.ctx.locals
    ensures LoopReady(env, c, i, st, locals', vs, pc)
  {
    hide InStep, After, TargetsOk, At, Resolves, EndOut, Closed, ConvertInstr, ConvertCode, CheckCode, CheckInstr;
  }

  /** One pass of a loop body, and by induction on fuel all that follow. */
  lemma {:induction false} LoopIter(env: Env, c: Conv, i: Instr, st: Stages, fuel: nat, locals: seq<Val>, vs: seq<Val>,
                                    store: Store, pc: nat) returns (k: nat)
    requires i.Loop? && LoopReady(env, c, i, st, locals, vs, pc)
    ensures Sim(env, Start(env, pc + 4, locals, vs, store), k,
                ExecInstr(env.sem, Arities(env.ctx), i, fuel, locals, vs, store), fuel,
                pc + |ConvertInstr(c, i).out|, CheckInstr(env.ctx, i, Opds(env, vs)))
    decreases fuel, i, 1
  {
    hide InStep, After, TargetsOk, At, Resolves, Sim, EndOut, Closed, Steps, Step, Expect, ResultOk;
    hide ConvertInstr, ConvertCode, CheckCode, ExecCode;
    var o := Opds(env, vs);
    var l := Lab(true, Rets(i.bt), |o|);
    var pos := pc + 3;
    var s := Start(env, pc + 4, locals, vs, store);
    InnerOk(env, l, vs, pos);
    InnerStack(env, l, vs, pos, locals, []);
    var k1 := SimCode(Inner(env, l, vs, pos), st.open, i.body, fuel, locals, [], store, pc + 4);
    var r := ExecCode(env.sem, Arities(env.ctx) + [0], i.body, fuel, locals, [], store);
    if r.Branch? && r.depth == 0 {
      BackEdge(env, l, vs, pos, s, k1, r, fuel, pc + 4 + |st.body|, CheckCode(env.ctx.Push(l), i.body, o));
      if fuel == 0 {
        k := k1;
        OutOfFuelHere(env, s, k, pc + |ConvertInstr(c, i).out|, CheckInstr(env.ctx, i, o));
      } else {
        LoopReadyAgain(env, c, i, st, locals, r.locals, vs, pc);
        var k2 := LoopIter(env, c, i, st, fuel - 1, r.locals, vs, r.store, pc);
        k := k1 + k2;
        NextPass(env, s, k1, Start(env, pc + 4, r.locals, vs, r.store), k2,
                 ExecInstr(env.sem, Arities(env.ctx), i, fuel - 1, r.locals, vs, r.store), fuel,
                 pc + |ConvertInstr(c, i).out|, CheckInstr(env.ctx, i, o));
      }
    } else {
      k := FinishBlock(env, l, vs, st.inner.frames[|env.ctx.labels|], pos, s, k1, r, fuel, pc + 4 + |st.body|,
                       CheckCode(env.ctx.Push(l), i.body, o));
    }
  }

  lemma OutOfFuelHere(env: Env, s: State, k: nat, endPc: nat, chk: Checked)
    requires EnvOk(env) && Steps(env.sem, env.p, k, s).Running?
    ensures Sim(env, s, k, Timeout, 0, endPc, chk)
  {
  }

  lemma NextPass(env: Env, s: State, j: nat, t: State, k: nat, r: Result, fuel: nat, endPc: nat, chk: Checked)
    requires EnvOk(env) && Steps(env.sem, env.p, j, s) == t && j >= 1 && fuel > 0
    requires Sim(env, t, k, r, fuel - 1, endPc, chk)
    ensures Sim(env, s, j + k, r, fuel, endPc, chk)
  {
    StepsAdd(env.sem, env.p, j, k, s);
  }

  /** A branch to the loop's own label is back at the header with the operands of the entry. */
  lemma BackEdge(env: Env, l: Lab, vs: seq<Val>, pos: nat, s: State, k: nat, r: Result, fuel: nat, bodyEnd: nat,
      chk: Checked)
    requires EnvOk(env) && l.isLoop && l.height == |env.outer + vs| && EnvOk(Inner(env, l, vs, pos))
    requires Sim(Inner(env, l, vs, pos), s, k, r, fuel, bodyEnd, chk) && r.Branch? && r.depth == 0
    ensures k >= 1 && TypesOf(r.locals) == env.ctx.locals
    ensures Steps(env.sem, env.p, k, s) == Start(env, pos + 1, r.locals, vs, r.store)
  {
    OwnBranch(env, l, vs, pos, r, bodyEnd);
    assert r.vals == [];
    assert vs + r.vals == vs;
  }

  // ---------------------------------------------------------------- conditionals

  /** Both sides of an `if` are entered with the operands below the condition. */
  lemma IfRun(env: Env, c: Conv, bt: BlockType, pc: nat, s: seq<Val>, cond: Val, store: Store, elsePos: nat)
    requires EnvOk(env) && At(env.p.ops, pc, OpenIf(c, bt).out) && TypesOf(s) == c.stack
    requires elsePos < |env.p.ops| && env.p.ops[elsePos] == MLabel(Name(c.nextId, Else))
    ensures Steps(env.sem, env.p, 4, Running(pc, s + [cond], store)) ==
            Running(if cond.bits != 0 then pc + 5 else elsePos + 1, s, store)
  {
    IfOps(env, c, bt, pc);
    hide At, OpenIf, TypesOf, Jump, Resolves, Unique, Steps, Step;
    var t := s + [cond];
    PassDecl(env, pc, t, store);
    PassDecl(env, pc + 1, t, store);
    PassDecl(env, pc + 2, t, store);
    IfTargets(env, c, pc, s, store, elsePos);
    IfBranch(env, c, pc + 3, s, cond, store);
    Two(env.sem, env.p, Running(pc, t, store));
    Two(env.sem, env.p, Running(pc + 2, t, store));
    StepsAdd(env.sem, env.p, 2, 2, Running(pc, t, store));
  }

  lemma IfTargets(env: Env, c: Conv, pc: nat, s: seq<Val>, store: Store, elsePos: nat)
    requires EnvOk(env) && TypesOf(s) == c.stack && pc + 5 <= |env.p.ops|
    requires elsePos < |env.p.ops| && env.p.ops[elsePos] == MLabel(Name(c.nextId, Else))
    requires env.p.ops[pc] == BlockDecl(c.stack, Name(c.nextId, Header)) &&
      env.p.ops[pc + 4] == MLabel(Name(c.nextId, Header))
    requires env.p.ops[pc + 1] == BlockDecl(c.stack, Name(c.nextId, Else))
    ensures Jump(env.p, To(Name(c.nextId, Header)), s, store) == Running(pc + 5, s, store)
    ensures Jump(env.p, To(Name(c.nextId, Else)), s, store) == Running(elsePos + 1, s, store)
  {
    hide TypesOf, Jump;
    ResolveHere(env.p.ops, Name(c.nextId, Header), pc, pc + 4, c.stack);
    ResolveHere(env.p.ops, Name(c.nextId, Else), pc + 1, elsePos, c.stack);
    JumpExact(env.p, Name(c.nextId, Header), pc + 4, s, store);
    JumpExact(env.p, Name(c.nextId, Else), elsePos, s, store);
  }

  lemma IfBranch(env: Env, c: Conv, pc: nat, s: seq<Val>, cond: Val, store: Store)
    requires pc < |env.p.ops|
    requires env.p.ops[pc] == MBrIf(TargetDrop(To(Name(c.nextId, Header)), None), TargetDrop(To(Name(c.nextId,
      Else)), None))
    ensures Step(env.sem, env.p, Running(pc, s + [cond], store)) ==
            Jump(env.p, To(Name(c.nextId, if cond.bits != 0 then Header else Else)), s, store)
  {
    hide Jump;
    var t := s + [cond];
    assert t[..|t| - 1] == s;
  }

  lemma IfOps(env: Env, c: Conv, bt: BlockType, pc: nat)
    requires At(env.p.ops, pc, OpenIf(c, bt).out)
    ensures pc + 5 <= |env.p.ops|
    ensures var ops := env.p.ops; var thn, els := Name(c.nextId, Header), Name(c.nextId, Else);
            && ops[pc] == BlockDecl(c.stack, thn) && ops[pc + 1] == BlockDecl(c.stack, els) && ops[pc + 2].MBlock?
            && ops[pc + 3] == MBrIf(TargetDrop(To(thn), None), TargetDrop(To(els), None)) && ops[pc + 4] == MLabel(thn)
  {
    var out := OpenIf(c, bt).out;
    AtIndex(env.p.ops, pc, out, 0);
    AtIndex(env.p.ops, pc, out, 1);
    AtIndex(env.p.ops, pc, out, 2);
    AtIndex(env.p.ops, pc, out, 3);
    AtIndex(env.p.ops, pc, out, 4);
  }

  lemma IfThenStages(env: Env, c: Conv, i: Instr, locals: seq<Val>, vs: seq<Val>, pc: nat) returns (st: Stages)
    requires i.IfThen? && Ready(env, c, ConvertInstr(c, i), locals, vs, pc)
    requires !CheckInstr(env.ctx, i, Opds(env, vs)).Invalid?
    ensures |vs| > 0
    ensures var vs' := vs[..|vs| - 1]; var o := Opds(env, vs'); var l := Lab(false, Rets(i.bt), |o|);
            var n := |env.ctx.labels|; var c0 := Popped1(c, env.ctx, Opds(env, vs));
            && StagesOf(st, c0, env.ctx, o, l, i.thn, ConvertInstr(c, i))
            && |c0.frames| == n && |st.inner.frames| == n + 1
            && StateOk(env, c0, locals, vs') && l.rets == [] && PopTop(Opds(env, vs), 1) == o
            && At(env.p.ops, pc, st.opening + st.body + st.closing) && c0.nextId == c.nextId
            && c0.stack == env.ctx.locals + o && st.opening == OpenIf(c0, i.bt).out
            && st.inner.frames[n].id == c.nextId && st.inner.frames[n].kind == IfKind(false)
  {
    hide ConvertInstr, FrameMatches, FramesMatch;
    hide ConvertCode, CheckCode, InStep, After, TargetsOk, At, EndOut, OpenBlock, OpenLoop, OpenIf;
    hide FramesGrown, Nested, Unique, TypesOf;
    FrameCount(env, c, locals, vs);
    PopOne(env, c, locals, vs);
    var c0 := Popped1(c, env.ctx, Opds(env, vs));
    var o := Opds(env, vs[..|vs| - 1]);
    FrameCount(env, c0, locals, vs[..|vs| - 1]);
    st := IfThenOk(c, env.ctx, i, Opds(env, vs));
    StageFrame(st, c0, env.ctx, o, Lab(false, Rets(i.bt), |o|), i.thn, ConvertInstr(c, i));
    OpeningPlaces(env, c0, i.bt, pc);
  }

  lemma IfThenSetup(env: Env, c: Conv, i: Instr, locals: seq<Val>, vs: seq<Val>, pc: nat) returns (st: Stages, pos: nat)
    requires i.IfThen? && Ready(env, c, ConvertInstr(c, i), locals, vs, pc)
    requires !CheckInstr(env.ctx, i, Opds(env, vs)).Invalid?
    ensures |vs| > 0
    ensures var vs' := vs[..|vs| - 1]; var o := Opds(env, vs'); var l := Lab(false, Rets(i.bt), |o|);
            var n := |env.ctx.labels|; var bodyEnd := pc + 5 + |st.body|;
            var c0 := Popped1(c, env.ctx, Opds(env, vs));
            && StagesOf(st, c0, env.ctx, o, l, i.thn, ConvertInstr(c, i))
            && |st.inner.frames| == n + 1
            && StateOk(env, c0, locals, vs') && l.rets == []
            && PopTop(Opds(env, vs), 1) == o
            && BodyReady(env, st, l, locals, vs', pos, pc + 5)
            && At(env.p.ops, pc, OpenIf(c0, i.bt).out)
            && At(env.p.ops, bodyEnd, st.closing) && 3 <= |st.closing| && pos < |env.p.ops|
            && pos + 1 == bodyEnd + |st.closing| == pc + |ConvertInstr(c, i).out|
            && Resolves(env.p.ops, Name(c.nextId, End), pos, env.ctx.locals + (o + l.rets))
            && st.inner.frames[n].id == c.nextId
            && env.p.ops[pos - 2] == MLabel(Name(c.nextId, Else)) && env.p.ops[pos - 1] == MBr(To(Name(c.nextId, End)))
  {
    hide ConvertInstr, FrameMatches, FramesMatch, CheckInstr, Popped1, Rets;
    hide ConvertCode, CheckCode, InStep, After, TargetsOk, Resolves, At, EndOut, OpenBlock, OpenLoop, OpenIf;
    hide FramesGrown, Nested, Unique, TypesOf;
    st := IfThenStages(env, c, i, locals, vs, pc);
    var c0 := Popped1(c, env.ctx, Opds(env, vs));
    var vs' := vs[..|vs| - 1];
    var o := Opds(env, vs');
    var l := Lab(false, Rets(i.bt), |o|);
    var n := |env.ctx.labels|;
    OpeningPlaces(env, c0, i.bt, pc);
    var bodyEnd := pc + 5 + |st.body|;
    pos := bodyEnd + |st.closing| - 1;
    AtConcat(env.p.ops, pc, st.opening + st.body, st.closing);
    AtConcat(env.p.ops, pc, st.opening, st.body);
    AtBound(env.p.ops, pc, st.opening);
    var f := st.inner.frames[n];
    assert env.ctx.locals + o + l.rets == env.ctx.locals + (o + l.rets);
    IfThenCloses(env, f, st.dead, bodyEnd);
    EndResolves(env, f, st.dead, pc + 2, bodyEnd, env.ctx.locals + (o + l.rets));
    GrownRefl(st.inner.frames[..n]);
    MakeBodyReady(env, st, l, st.inner.frames[..n], locals, vs', pos, pc + 5);
  }

  lemma {:induction false} IfThenSim(env: Env, c: Conv, i: Instr, fuel: nat, locals: seq<Val>, vs: seq<Val>,
                                     store: Store, pc: nat) returns (k: nat)
    requires i.IfThen? && Ready(env, c, ConvertInstr(c, i), locals, vs, pc)
    requires !CheckInstr(env.ctx, i, Opds(env, vs)).Invalid?
    ensures Sim(env, Start(env, pc, locals, vs, store), k,
                ExecInstr(env.sem, Arities(env.ctx), i, fuel, locals, vs, store), fuel,
                pc + |ConvertInstr(c, i).out|, CheckInstr(env.ctx, i, Opds(env, vs)))
    decreases fuel, i, 2
  {
    hide InStep, After, TargetsOk, At, Resolves, Sim, EndOut, Closed, Steps, Step, Expect, ResultOk;
    hide ConvertInstr, ConvertCode, CheckCode, ExecCode;
    var st, pos := IfThenSetup(env, c, i, locals, vs, pc);
    var vs', cond := vs[..|vs| - 1], vs[|vs| - 1];
    var o := Opds(env, vs');
    var l := Lab(false, Rets(i.bt), |o|);
    var c0 := Popped1(c, env.ctx, Opds(env, vs));
    StackTypes(env, c0, locals, vs');
    SplitLast(env, locals, vs);
    IfRun(env, c0, i.bt, pc, Stack(env, locals, vs'), cond, store, pos - 2);
    if cond.bits != 0 {
      InnerOk(env, l, vs', pos);
      InnerStack(env, l, vs', pos, locals, []);
      var k1 := SimCode(Inner(env, l, vs', pos), st.open, i.thn, fuel, locals, [], store, pc + 5);
      var r := ExecCode(env.sem, Arities(env.ctx) + [|Rets(i.bt)|], i.thn, fuel, locals, [], store);
      var k2 := FinishBlock(env, l, vs', st.inner.frames[|env.ctx.labels|], pos, Start(env, pc + 5, locals, vs', store),
                            k1, r, fuel, pc + 5 + |st.body|, CheckCode(env.ctx.Push(l), i.thn, o));
      Prefix(env, Start(env, pc, locals, vs, store), 4, Start(env, pc + 5, locals, vs', store), k2,
             LeaveBlock(r, vs'), fuel, pc + |ConvertInstr(c, i).out|, Live(o + l.rets));
      k := 4 + k2;
    } else {
      k := 4 + 1;
      SkipThen(env, c0, pos, locals, vs', store);
      StepsAdd(env.sem, env.p, 4, 1, Start(env, pc, locals, vs, store));
      assert o + l.rets == o;
      NormalSim(env, Start(env, pc, locals, vs, store), k, locals, vs', store, fuel, pos + 1);
    }
  }

  lemma NormalSim(env: Env, s: State, k: nat, locals: seq<Val>, vs: seq<Val>, store: Store, fuel: nat, endPc: nat)
    requires EnvOk(env) && TypesOf(locals) == env.ctx.locals
    requires Steps(env.sem, env.p, k, s) == Start(env, endPc, locals, vs, store)
    ensures Sim(env, s, k, Normal(locals, vs, store), fuel, endPc, Live(Opds(env, vs)))
  {
  }

  /** The missing `else` side goes straight to the end. */
  lemma SkipThen(env: Env, c0: Conv, pos: nat, locals: seq<Val>, vs: seq<Val>, store: Store)
    requires StateOk(env, c0, locals, vs) && 1 <= pos < |env.p.ops|
    requires env.p.ops[pos - 1] == MBr(To(Name(c0.nextId, End)))
    requires Resolves(env.p.ops, Name(c0.nextId, End), pos, env.ctx.locals + (Opds(env, vs) + []))
    ensures Steps(env.sem, env.p, 1, Start(env, pos - 1, locals, vs, store)) == Start(env, pos + 1, locals, vs, store)
  {
    StackTypes(env, c0, locals, vs);
    assert Opds(env, vs) + [] == Opds(env, vs);
    JumpExact(env.p, Name(c0.nextId, End), pos, Stack(env, locals, vs), store);
    One(env.sem, env.p, Start(env, pos - 1, locals, vs, store));
  }

  /** Both bodies of an `if..else..end` in place; `thn` describes the first, `els` the second. */
  ghost predicate IfElseReady(env: Env, c: Conv, i: Instr, thn: Stages, els: Stages, locals: seq<Val>, vs: seq<Val>,
                              pos: nat, pc: nat)
    requires i.IfElse? && |vs| > 0 && ConvertInstr(c, i).Ok?
  {
    var vs' := vs[..|vs| - 1]; var o := Opds(env, vs'); var l := Lab(false, Rets(i.bt), |o|);
    var n := |env.ctx.labels|;
    var c0 := Popped1(c, env.ctx, Opds(env, vs));
    var thnEnd := pc + 5 + |thn.body|;
    var elsPc := thnEnd + |thn.closing|;
    && EnvOk(env) && StateOk(env, c0, locals, vs')
    && CheckInstr(env.ctx, i, Opds(env, vs)) == Live(o + l.rets)
    && EndsWith(CheckCode(env.ctx.Push(l), i.thn, o), o + l.rets)
    && EndsWith(CheckCode(env.ctx.Push(l), i.els, o), o + l.rets)
    && ConvertCode(thn.open, i.thn) == Ok(thn.inner, thn.body)
    && ConvertCode(els.open, i.els) == Ok(els.inner, els.body)
    && BodyReady(env, thn, l, locals, vs', pos, pc + 5)
    && BodyReady(env, els, l, locals, vs', pos, elsPc)
    && |els.inner.frames| == n + 1 && els.inner.frames[n].id == c.nextId
    && thn.dead == CheckCode(env.ctx.Push(l), i.thn, o).Dead?
    && els.dead == CheckCode(env.ctx.Push(l), i.els, o).Dead?
    && thn.closing == (if thn.dead then [] else [MBr(To(Name(c.nextId, End)))]) + [MLabel(Name(c.nextId, Else))]
    && els.closing == EndOut(els.inner.frames[n], els.dead) && els.closing != []
    && At(env.p.ops, pc, OpenIf(c0, i.bt).out)
    && At(env.p.ops, thnEnd, thn.closing)
    && At(env.p.ops, elsPc + |els.body|, els.closing)
    && pos + 1 == elsPc + |els.body| + |els.closing| == pc + |ConvertInstr(c, i).out|
    && Resolves(env.p.ops, Name(c.nextId, End), pos, env.ctx.locals + (o + l.rets))
  }

  lemma IfElseSetup(env: Env, c: Conv, i: Instr, locals: seq<Val>, vs: seq<Val>, pc: nat)
    returns (thn: Stages, els: Stages, pos: nat)
    requires i.IfElse? && Ready(env, c, ConvertInstr(c, i), locals, vs, pc)
    requires !CheckInstr(env.ctx, i, Opds(env, vs)).Invalid?
    ensures |vs| > 0 && IfElseReady(env, c, i, thn, els, locals, vs, pos, pc)
  {
    hide ConvertCode, CheckCode, InStep, After, TargetsOk, Resolves, At, EndOut, OpenBlock, OpenLoop, OpenIf;
    hide FramesGrown, Unique, TypesOf, CheckInstr, ConvertInstr, EndsWith;
    IfElseChecked(env.ctx, i, Opds(env, vs));
    FrameCount(env, c, locals, vs);
    PopOne(env, c, locals, vs);
    var c0 := Popped1(c, env.ctx, Opds(env, vs));
    var vs' := vs[..|vs| - 1];
    var o := Opds(env, vs');
    var l := Lab(false, Rets(i.bt), |o|);
    var n := |env.ctx.labels|;
    var open, inner, body, dead, st := IfElseOk(c, env.ctx, i, Opds(env, vs));
    els := st;
    OpeningPlaces(env, c0, i.bt, pc);
    AfterGrown(open, inner, env.ctx.Push(l), o, CheckCode(env.ctx.Push(l), i.thn, o));
    var f := inner.frames[|inner.frames| - 1];
    thn := Stages(open, OpenIf(c0, i.bt).out, inner, body, dead, ElseOut(f, dead));
    IfElseFrameIds(c, c0, env.ctx, o, l, i, open, inner, st);
    IfElsePlaces(env, c0, i.bt, thn, els, pc);
    var elsEnd := pc + 5 + |thn.body| + |thn.closing| + |els.body|;
    pos := elsEnd + |els.closing| - 1;
    assert env.ctx.locals + o + l.rets == env.ctx.locals + (o + l.rets);
    AtBound(env.p.ops, pc, OpenIf(c0, i.bt).out);
    EndOutIf(els.inner.frames[n], els.dead);
    EndResolves(env, els.inner.frames[n], els.dead, pc + 2, elsEnd, env.ctx.locals + (o + l.rets));
    MakeBodyReady(env, thn, l, els.inner.frames[..n], locals, vs', pos, pc + 5);
    GrownRefl(els.inner.frames[..n]);
    MakeBodyReady(env, els, l, els.inner.frames[..n], locals, vs', pos, pc + 5 + |thn.body| + |thn.closing|);
  }

  lemma IfElseChecked(ctx: Ctx, i: Instr, opds: seq<Ty>)
    requires ctx.Wf() && i.IfElse? && !CheckInstr(ctx, i, opds).Invalid?
    ensures HasTop(ctx.Base(), opds, [I32])
    ensures var o := PopTop(opds, 1); var l := Lab(false, Rets(i.bt), |o|);
            && CheckInstr(ctx, i, opds) == Live(o + l.rets)
            && EndsWith(CheckCode(ctx.Push(l), i.thn, o), o + l.rets)
            && EndsWith(CheckCode(ctx.Push(l), i.els, o), o + l.rets)
  {
    hide CheckCode;
  }

  lemma IfElsePlaces(env: Env, c0: Conv, bt: BlockType, thn: Stages, els: Stages, pc: nat)
    requires thn.opening == OpenIf(c0, bt).out && els.opening == thn.opening + thn.body + thn.closing
    requires At(env.p.ops, pc, els.opening + els.body + els.closing)
    ensures At(env.p.ops, pc, OpenIf(c0, bt).out)
    ensures At(env.p.ops, pc + 5, thn.body)
    ensures At(env.p.ops, pc + 5 + |thn.body|, thn.closing)
    ensures At(env.p.ops, pc + 5 + |thn.body| + |thn.closing|, els.body)
    ensures At(env.p.ops, pc + 5 + |thn.body| + |thn.closing| + |els.body|, els.closing)
  {
    AtConcat(env.p.ops, pc, els.opening + els.body, els.closing);
    AtConcat(env.p.ops, pc, els.opening, els.body);
    AtConcat(env.p.ops, pc, thn.opening + thn.body, thn.closing);
    AtConcat(env.p.ops, pc, thn.opening, thn.body);
  }

  lemma IfElseFrameIds(c: Conv, c0: Conv, ctx: Ctx, o: seq<Ty>, l: Lab, i: Instr, open: Conv, inner: Conv, st: Stages)
    requires i.IfElse? && ctx.Wf() && |c.frames| == |ctx.labels| && c0.frames == c.frames && c0.nextId == c.nextId
    requires open == OpenIf(c0, i.bt).conv && FramesGrown(open.frames, inner.frames)
    requires st.open == AtElse(inner, ctx, o)
    requires StagesOf(st, c.(frames := inner.frames[..|c.frames|]), ctx, o, l, i.els, ConvertInstr(c, i))
    ensures var n := |c.frames|;
            && |inner.frames| == |st.inner.frames| == n + 1
            && inner.frames[n] == open.frames[n] && inner.frames[n].id == c.nextId
            && st.inner.frames[n] == open.frames[n].(kind := IfKind(true))
            && FramesGrown(inner.frames[..n], st.inner.frames[..n])
  {
    hide ConvertCode, CheckCode, ConvertInstr, InStep;
    var n := |c.frames|;
    assert Grown(open.frames[n], inner.frames[n]);
    assert Grown(st.open.frames[n], st.inner.frames[n]);
    forall j | 0 <= j < n
      ensures Grown(inner.frames[..n][j], st.inner.frames[..n][j])
    {
      assert Grown(st.open.frames[j], st.inner.frames[j]);
    }
  }

  lemma {:induction false} IfElseSim(env: Env, c: Conv, i: Instr, fuel: nat, locals: seq<Val>, vs: seq<Val>,
                                     store: Store, pc: nat) returns (k: nat)
    requires i.IfElse? && Ready(env, c, ConvertInstr(c, i), locals, vs, pc)
    requires !CheckInstr(env.ctx, i, Opds(env, vs)).Invalid?
    ensures Sim(env, Start(env, pc, locals, vs, store), k,
                ExecInstr(env.sem, Arities(env.ctx), i, fuel, locals, vs, store), fuel,
                pc + |ConvertInstr(c, i).out|, CheckInstr(env.ctx, i, Opds(env, vs)))
    decreases fuel, i, 2
  {
    hide InStep, TargetsOk, At, Resolves, Sim, EndOut, Steps, Step, Expect, ResultOk, BodyReady, StateOk, EnvOk;
    hide ConvertInstr, ConvertCode, CheckInstr, CheckCode, ExecCode;
    var thn, els, pos := IfElseSetup(env, c, i, locals, vs, pc);
    var vs', cond := vs[..|vs| - 1], vs[|vs| - 1];
    var o := Opds(env, vs');
    var l := Lab(false, Rets(i.bt), |o|);
    var thnEnd := pc + 5 + |thn.body|;
    var elsPc := thnEnd + |thn.closing|;
    IfElseEntry(env, c, i, thn, els, locals, vs, pos, pc, store);
    var code := if cond.bits != 0 then i.thn else i.els;
    var r := ExecCode(env.sem, Arities(env.ctx) + [|Rets(i.bt)|], code, fuel, locals, [], store);
    var k2;
    if cond.bits != 0 {
      var k1 := SideSim(env, thn, i.thn, l, fuel, locals, vs', store, pos, pc + 5);
      InnerOkAgain(env, thn, l, locals, vs', pos, pc + 5);
      k2 := FinishThen(env, l, vs', Name(c.nextId, End), pos, Start(env, pc + 5, locals, vs', store), k1, r, fuel,
                       thnEnd, CheckCode(env.ctx.Push(l), i.thn, o));
      Prefix(env, Start(env, pc, locals, vs, store), 4, Start(env, pc + 5, locals, vs', store), k2,
             LeaveBlock(r, vs'), fuel, pos + 1, Live(o + l.rets));
    } else {
      var k1 := SideSim(env, els, i.els, l, fuel, locals, vs', store, pos, elsPc);
      InnerOkAgain(env, els, l, locals, vs', pos, elsPc);
      k2 := FinishBlock(env, l, vs', els.inner.frames[|env.ctx.labels|], pos, Start(env, elsPc, locals, vs', store),
                        k1, r, fuel, elsPc + |els.body|, CheckCode(env.ctx.Push(l), i.els, o));
      Prefix(env, Start(env, pc, locals, vs, store), 4, Start(env, elsPc, locals, vs', store), k2,
             LeaveBlock(r, vs'), fuel, pos + 1, Live(o + l.rets));
    }
    k := 4 + k2;
  }

  lemma InnerOkAgain(env: Env, st: Stages, l: Lab, locals: seq<Val>, vs: seq<Val>, pos: nat, bodyPc: nat)
    requires BodyReady(env, st, l, locals, vs, pos, bodyPc)
    ensures EnvOk(env) && l.height == |env.outer + vs| && EnvOk(Inner(env, l, vs, pos))
  {
    InnerOk(env, l, vs, pos);
  }

  lemma IfElseEntry(env: Env, c: Conv, i: Instr, thn: Stages, els: Stages, locals: seq<Val>, vs: seq<Val>,
                    pos: nat, pc: nat, store: Store)
    requires i.IfElse? && |vs| > 0 && ConvertInstr(c, i).Ok? && IfElseReady(env, c, i, thn, els, locals, vs, pos, pc)
    ensures var vs' := vs[..|vs| - 1];
            Steps(env.sem, env.p, 4, Start(env, pc, locals, vs, store)) ==
            Start(env, if vs[|vs| - 1].bits != 0 then pc + 5 else pc + 5 + |thn.body| + |thn.closing|, locals, vs',
              store)
    ensures !thn.dead ==>
      pc + 5 + |thn.body| < |env.p.ops| && env.p.ops[pc + 5 + |thn.body|] == MBr(To(Name(c.nextId, End)))
    ensures EnvOk(env)
  {
    hide InStep, TargetsOk, Resolves, EndOut, Steps, BodyReady, ConvertInstr, ConvertCode, CheckInstr, CheckCode;
    var vs' := vs[..|vs| - 1];
    var c0 := Popped1(c, env.ctx, Opds(env, vs));
    var elsePos := pc + 5 + |thn.body| + |thn.closing| - 1;
    AtIndex(env.p.ops, pc + 5 + |thn.body|, thn.closing, |thn.closing| - 1);
    AtIndex(env.p.ops, pc + 5 + |thn.body|, thn.closing, 0);
    StackTypes(env, c0, locals, vs');
    SplitLast(env, locals, vs);
    IfRun(env, c0, i.bt, pc, Stack(env, locals, vs'), vs[|vs| - 1], store, elsePos);
  }

  /** Running one side of a conditional inside its block. */
  lemma {:induction false} SideSim(env: Env, st: Stages, code: Code, l: Lab, fuel: nat, locals: seq<Val>, vs: seq<Val>,
                                   store: Store, pos: nat, bodyPc: nat) returns (k: nat)
    requires BodyReady(env, st, l, locals, vs, pos, bodyPc) && !l.isLoop
    requires ConvertCode(st.open, code) == Ok(st.inner, st.body)
    requires EndsWith(CheckCode(env.ctx.Push(l), code, Opds(env, vs)), Opds(env, vs) + l.rets)
    ensures EnvOk(Inner(env, l, vs, pos))
    ensures Sim(Inner(env, l, vs, pos), Start(env, bodyPc, locals, vs, store), k,
                ExecCode(env.sem, Arities(env.ctx) + [|l.rets|], code, fuel, locals, [], store), fuel,
                bodyPc + |st.body|, CheckCode(env.ctx.Push(l), code, Opds(env, vs)))
    decreases fuel, code, 1
  {
    hide InStep, TargetsOk, At, Sim, Steps, Expect, ResultOk, ConvertCode, CheckCode, ExecCode;
    InnerOk(env, l, vs, pos);
    InnerStack(env, l, vs, pos, locals, []);
    k := SimCode(Inner(env, l, vs, pos), st.open, code, fuel, locals, [], store, bodyPc);
  }

  /** The end of a live `then` side branches over the `else` side. */
  lemma FinishThen(env: Env, l: Lab, vs: seq<Val>, end: Name, pos: nat, s: State, k: nat, r: Result, fuel: nat,
                   thnEnd: nat, chk: Checked) returns (k': nat)
    requires EnvOk(env) && l.height == |env.outer + vs| && !l.isLoop && EnvOk(Inner(env, l, vs, pos))
    requires Sim(Inner(env, l, vs, pos), s, k, r, fuel, thnEnd, chk) && EndsWith(chk, Opds(env, vs) + l.rets)
    requires !chk.Dead? ==> thnEnd < |env.p.ops| && env.p.ops[thnEnd] == MBr(To(end))
    requires Resolves(env.p.ops, end, pos, env.ctx.locals + (Opds(env, vs) + l.rets))
    ensures Sim(env, s, k', LeaveBlock(r, vs), fuel, pos + 1, Live(Opds(env, vs) + l.rets))
  {
    if r.Normal? {
      EndStackTypes(env, l, vs, pos, r, chk);
      var t := Running(thnEnd, Stack(env, r.locals, vs + r.vals), r.store);
      JumpExact(env.p, end, pos, t.stack, r.store);
      One(env.sem, env.p, t);
    }
    k' := LeaveSim(env, l, vs, pos, s, k, r, fuel, thnEnd, pos + 1, chk, 1);
  }

  // ---------------------------------------------------------------- whole functions

  /** The environment of a function body: no operands below it, its label is the return. */
  function FuncEnv(sem: Semantics, f: Func, p: Prog): Env {
    Env(sem, p, FuncCtx(f, SafeLoops), [], [0])
  }

  lemma InitInStep(f: Func, rule: LoopRule)
    ensures InStep(Init(f), FuncCtx(f, rule), [])
  {
    assert f.params + f.locals + [] == f.params + f.locals;
  }

  /** The last `end`: a live body branches to the return block, a dead one needs nothing. */
  lemma FuncEnd(f: Func, rule: LoopRule, c2: Conv, r: Checked)
    requires After(Init(f), c2, FuncCtx(f, rule), [], r) && EndsWith(r, f.results)
    ensures Convert1(c2, OpEnd).Ok? && Convert1(c2, OpEnd).conv.done
    ensures Convert1(c2, OpEnd).out == if r.Dead? then [] else [MBr(ToReturn)]
  {
    assert Grown(Init(f).frames[0], c2.frames[0]);
    if r.Live? {
      ApplyNothing(c2.stack);
      assert c2.(stack := c2.stack) == c2;
    }
  }

  /** A validated function compiles, and its stream is constants, body and final branch. */
  lemma CompileOk(f: Func, rule: LoopRule) returns (p: Prog, body: seq<Op>, dead: bool)
    requires ValidFunc(f, rule)
    ensures Compile(f) == Some(p)
    ensures ConvertCode(Init(f), f.body).Ok? && ConvertCode(Init(f), f.body).out == body
    ensures dead == CheckCode(FuncCtx(f, rule), f.body, []).Dead?
    ensures p == Prog(LocalConsts(f.locals) + (body + if dead then [] else [MBr(ToReturn)]), f.results)
    ensures Unique(p.ops)
  {
    var ctx := FuncCtx(f, rule);
    InitInStep(f, rule);
    CodeOk(Init(f), ctx, f.body, []);
    CodeNames(Init(f), ctx, f.body, []);
    var e := ConvertCode(Init(f), f.body);
    body := e.out;
    var r := CheckCode(ctx, f.body, []);
    dead := r.Dead?;
    FuncEnd(f, rule, e.conv, r);
    CompileAgrees(f);
    var last := if dead then [] else [MBr(ToReturn)];
    p := Prog(LocalConsts(f.locals) + (body + last), f.results);
    UniqueConcat(body, last);
    UniqueConcat(LocalConsts(f.locals), body + last);
  }

  /** The constants of the declared locals complete the parameters to the locals. */
  lemma {:induction false} ConstsRun(sem: Semantics, p: Prog, locals: seq<Ty>, args: seq<Val>, store: Store, n: nat)
    requires n <= |locals| && At(p.ops, 0, LocalConsts(locals))
    ensures Steps(sem, p, n, Running(0, args, store)) == Running(n, args + Zeros(locals)[..n], store)
    decreases n
  {
    if n == 0 {
      assert args + Zeros(locals)[..0] == args;
    } else {
      ConstsRun(sem, p, locals, args, store, n - 1);
      AtIndex(p.ops, 0, LocalConsts(locals), n - 1);
      StepsAdd(sem, p, n - 1, 1, Running(0, args, store));
      One(sem, p, Running(n - 1, args + Zeros(locals)[..n - 1], store));
      NextZero(args, locals, n);
      hide Zeros, Steps, At;
    }
  }

  lemma NextZero(args: seq<Val>, locals: seq<Ty>, n: nat)
    requires 0 < n <= |locals|
    ensures args + Zeros(locals)[..n - 1] + [Val(locals[n - 1], 0)] == args + Zeros(locals)[..n]
  {
    var d := Zeros(locals);
    assert d[..n] == d[..n - 1] + [d[n - 1]];
  }

  lemma FuncReady(sem: Semantics, f: Func, p: Prog, body: seq<Op>, dead: bool, args: seq<Val>)
    requires ValidFunc(f, SafeLoops) && TypesOf(args) == f.params
    requires ConvertCode(Init(f), f.body).Ok? && ConvertCode(Init(f), f.body).out == body
    requires p == Prog(LocalConsts(f.locals) + (body + if dead then [] else [MBr(ToReturn)]), f.results)
    requires Unique(p.ops)
    ensures EnvOk(FuncEnv(sem, f, p))
    ensures Ready(FuncEnv(sem, f, p), Init(f), ConvertCode(Init(f), f.body), args + Zeros(f.locals), [], |f.locals|)
    ensures At(p.ops, 0, LocalConsts(f.locals))
    ensures !dead ==> |f.locals| + |body| < |p.ops| && p.ops[|f.locals| + |body|] == MBr(ToReturn)
    ensures Arities(FuncCtx(f, SafeLoops)) == [|f.results|]
  {
    hide ConvertCode, CheckCode;
    InitInStep(f, SafeLoops);
    CodeOk(Init(f), FuncCtx(f, SafeLoops), f.body, []);
    AfterGrown(Init(f), ConvertCode(Init(f), f.body).conv, FuncCtx(f, SafeLoops), [],
      CheckCode(FuncCtx(f, SafeLoops), f.body, []));
    var consts := LocalConsts(f.locals);
    var last := if dead then [] else [MBr(ToReturn)];
    assert At(p.ops, 0, consts + (body + last));
    AtConcat(p.ops, 0, consts, body + last);
    AtConcat(p.ops, |consts|, body, last);
    TypesConcat(args, Zeros(f.locals));
    assert TypesOf(Zeros(f.locals)) == f.locals;
    var none: seq<Val> := [];
    assert none + none == none;
  }

  /** One run: whatever the source does within some fuel, the machine does. */
  lemma FuncSim(sem: Semantics, f: Func, args: seq<Val>, store: Store, fuel: nat) returns (p: Prog, k: nat)
    requires ValidFunc(f, SafeLoops) && TypesOf(args) == f.params
    ensures Compile(f) == Some(p)
    ensures ExecFunc(sem, f, args, store, fuel) != Finished(Stuck)
    ensures match ExecFunc(sem, f, args, store, fuel)
            case Finished(o) => Steps(sem, p, k, Running(0, args, store)) == Done(o)
            case OutOfFuel => k >= fuel && Steps(sem, p, k, Running(0, args, store)).Running?
  {
    hide ConvertCode, CheckCode, ExecCode, StateOk, InStep, At, TargetsOk, Unique, Convert1, ConvertAll, Step;
    var body, dead;
    p, body, dead := CompileOk(f, SafeLoops);
    FuncReady(sem, f, p, body, dead, args);
    var env := FuncEnv(sem, f, p);
    var locals := args + Zeros(f.locals);
    var n := |f.locals|;
    var k1 := SimCode(env, Init(f), f.body, fuel, locals, [], store, n);
    ConstsRun(sem, p, f.locals, args, store, n);
    assert Zeros(f.locals)[..n] == Zeros(f.locals);
    assert Stack(env, locals, []) == locals;
    StepsAdd(sem, p, n, k1, Running(0, args, store));
    k := n + k1;
    var r := ExecCode(sem, [|f.results|], f.body, fuel, locals, [], store);
    if r.Normal? {
      FuncReturn(env, f, r, n + |body|, CheckCode(FuncCtx(f, SafeLoops), f.body, []));
      StepsAdd(sem, p, n + k1, 1, Running(0, args, store));
      k := n + k1 + 1;
    }
  }

  lemma FuncReturn(env: Env, f: Func, r: Result, pc: nat, chk: Checked)
    requires EnvOk(env) && env.outer == [] && r.Normal? && ResultOk(env, r, chk) && EndsWith(chk, f.results)
    requires env.p.results == f.results && pc < |env.p.ops| && env.p.ops[pc] == MBr(ToReturn)
    ensures Steps(env.sem, env.p, 1, Expect(env, r, pc)) == Done(Outcome.Return(r.vals, r.store))
  {
    hide TypesOf, Unique, Jump;
    assert env.outer + r.vals == r.vals;
    assert Stack(env, r.locals, r.vals) == r.locals + r.vals;
    JumpReturn(env.p, r.locals, r.vals, r.store);
    One(env.sem, env.p, Expect(env, r, pc));
  }

  ghost predicate WasmGives(sem: Semantics, f: Func, args: seq<Val>, store: Store, o: Outcome) {
    exists fuel: nat :: ExecFunc(sem, f, args, store, fuel) == Finished(o)
  }

  ghost predicate MicrowasmGives(sem: Semantics, p: Prog, args: seq<Val>, store: Store, o: Outcome) {
    exists k: nat :: Steps(sem, p, k, Running(0, args, store)) == Done(o)
  }

  /** Meaning preservation.  For every validated function, every meaning of the plain operators
      and all arguments: the Wasm body returns values or traps exactly when the emitted stream
      does, with the same values and store; one diverges exactly when the other does; and the
      machine never gets stuck on a missing label, a wrong stack or a fall-through. */
  lemma MeaningPreserved(sem: Semantics, f: Func, args: seq<Val>, store: Store, o: Outcome)
    requires ValidFunc(f, SafeLoops) && TypesOf(args) == f.params
    ensures Compile(f).Some?
    ensures WasmGives(sem, f, args, store, o) <==> MicrowasmGives(sem, Compile(f).value, args, store, o)
    ensures !MicrowasmGives(sem, Compile(f).value, args, store, Stuck)
  {
    var p, _ := FuncSim(sem, f, args, store, 0);
    if WasmGives(sem, f, args, store, o) {
      var fuel: nat :| ExecFunc(sem, f, args, store, fuel) == Finished(o);
      var _, k := FuncSim(sem, f, args, store, fuel);
      assert MicrowasmGives(sem, p, args, store, o);
    }
    forall q | MicrowasmGives(sem, p, args, store, q)
      ensures WasmGives(sem, f, args, store, q) && q != Stuck
    {
      var k: nat :| Steps(sem, p, k, Running(0, args, store)) == Done(q);
      Backward(sem, f, p, args, store, k, q);
    }
  }

  /** A finished machine run is the source's outcome within that much fuel. */
  lemma Backward(sem: Semantics, f: Func, p: Prog, args: seq<Val>, store: Store, k: nat, o: Outcome)
    requires ValidFunc(f, SafeLoops) && TypesOf(args) == f.params && Compile(f) == Some(p)
    requires Steps(sem, p, k, Running(0, args, store)) == Done(o)
    ensures ExecFunc(sem, f, args, store, k) == Finished(o) && o != Stuck
  {
    var s := Running(0, args, store);
    var _, j := FuncSim(sem, f, args, store, k);
    if j >= k {
      StepsAdd(sem, p, k, j - k, s);
      DoneStays(sem, p, j - k, Done(o));
    } else {
      StepsAdd(sem, p, j, k - j, s);
      DoneStays(sem, p, k - j, Steps(sem, p, j, s));
    }
  }

  // ---------------------------------------------------------------- loops with results

  predicate PlainLoops(code: Code) {
    match code
    case Nil => true
    case Cons(i, rest) => PlainLoopsIn(i) && PlainLoops(rest)
  }

  /** No loop has a result. */
  predicate PlainLoopsIn(i: Instr) {
    match i
    case Block(_, body) => PlainLoops(body)
    case Loop(bt, body) => bt == Empty && PlainLoops(body)
    case IfThen(_, thn) => PlainLoops(thn)
    case IfElse(_, thn, els) => PlainLoops(thn) && PlainLoops(els)
    case _ => true
  }

  ghost predicate PlainLabels(ctx: Ctx) {
    forall i :: 0 <= i < |ctx.labels| ==> ctx.labels[i].isLoop ==> ctx.labels[i].rets == []
  }

  lemma {:induction false} PlainCode(ctx: Ctx, rule: LoopRule, code: Code, opds: seq<Ty>)
    requires ctx.Wf() && PlainLabels(ctx) && PlainLoops(code)
    ensures CheckCode(ctx, code, opds) == CheckCode(ctx.(rule := rule), code, opds)
    decreases code
  {
    match code
    case Nil =>
    case Cons(i, rest) =>
      PlainInstr(ctx, rule, i, opds);
      match CheckInstr(ctx, i, opds) {
        case Live(o) => PlainCode(ctx, rule, rest, o);
        case _ =>
      }
  }

  lemma {:induction false} PlainInstr(ctx: Ctx, rule: LoopRule, i: Instr, opds: seq<Ty>)
    requires ctx.Wf() && PlainLabels(ctx) && PlainLoopsIn(i)
    ensures CheckInstr(ctx, i, opds) == CheckInstr(ctx.(rule := rule), i, opds)
    decreases i
  {
    hide CheckCode;
    var s := ctx.(rule := rule);
    match i
    case Block(bt, body) =>
      var l := Lab(false, Rets(bt), |opds|);
      PlainCode(ctx.Push(l), rule, body, opds);
      assert s.Push(l) == ctx.Push(l).(rule := rule);
    case Loop(bt, body) =>
      var l := Lab(true, Rets(bt), |opds|);
      PlainCode(ctx.Push(l), rule, body, opds);
      assert s.Push(l) == ctx.Push(l).(rule := rule);
    case IfThen(bt, thn) =>
      if |opds| > 0 {
        var l := Lab(false, Rets(bt), |opds| - 1);
        PlainCode(ctx.Push(l), rule, thn, PopTop(opds, 1));
        assert s.Push(l) == ctx.Push(l).(rule := rule);
      }
    case IfElse(bt, thn, els) =>
      if |opds| > 0 {
        var l := Lab(false, Rets(bt), |opds| - 1);
        PlainCode(ctx.Push(l), rule, thn, PopTop(opds, 1));
        PlainCode(ctx.Push(l), rule, els, PopTop(opds, 1));
        assert s.Push(l) == ctx.Push(l).(rule := rule);
      }
    case _ => PlainLeafInstr(ctx, rule, i, opds);
  }

  lemma PlainLeafInstr(ctx: Ctx, rule: LoopRule, i: Instr, opds: seq<Ty>)
    requires ctx.Wf() && PlainLabels(ctx) && !i.Block? && !i.Loop? && !i.IfThen? && !i.IfElse?
    ensures CheckInstr(ctx, i, opds) == CheckInstr(ctx.(rule := rule), i, opds)
  {
    hide BranchOk;
    forall d: nat, o: seq<Ty>
      ensures BranchOk(ctx, d, o) == BranchOk(ctx.(rule := rule), d, o)
    {
      PlainBranch(ctx, rule, d, o);
    }
  }

  lemma PlainBranch(ctx: Ctx, rule: LoopRule, d: nat, o: seq<Ty>)
    requires ctx.Wf() && PlainLabels(ctx)
    ensures BranchOk(ctx, d, o) == BranchOk(ctx.(rule := rule), d, o)
  {
  }

  /** Bodies whose loops have no result, as the MVP toolchains emit them, need only be valid. */
  lemma PlainLoopsSuffice(f: Func, rule: LoopRule)
    requires ValidFunc(f, AllLoops) && PlainLoops(f.body)
    ensures ValidFunc(f, rule)
  {
    PlainCode(FuncCtx(f, AllLoops), rule, f.body, []);
  }
}
