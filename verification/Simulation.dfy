/** Meaning preservation: the emitted Microwasm stream, run on the one-stack machine, does what
    the structured Wasm body does. */
module Simulation {
  import opened Wasm
  import opened Microwasm
  import opened Converter
  import opened ConverterFacts
  import opened ConverterNames

  // ---------------------------------------------------------------- drop ranges

  /** The `to_drop!` range keeps the frame's arguments and the values a branch carries. */
  lemma DropShape<A>(s: seq<A>, f: Frame)
    requires f.arguments + |f.results| <= |s|
    ensures ApplyDrop(s, ToDrop(|s|, f)) == Some(s[..f.arguments] + s[|s| - |f.results|..])
  {
    if ToDrop(|s|, f) == None {
      assert s == s[..f.arguments] + s[|s| - |f.results|..];
    }
  }

  /** A loop label carries nothing, so a branch to it must leave the loop's arguments alone.
      The range is computed from the loop's results: it is right exactly when the loop has no
      result or no operand lies above its entry height. */
  lemma LoopDropShape<A>(s: seq<A>, f: Frame)
    requires f.arguments <= |s|
    ensures ApplyDrop(s, ToDrop(|s|, f)) == Some(s[..f.arguments]) <==> f.results == [] || |s| == f.arguments
  {
    if f.results == [] {
      DropShape(s, f);
      assert s[..f.arguments] + s[|s|..] == s[..f.arguments];
    } else if |s| == f.arguments {
      assert s[..f.arguments] == s;
    } else {
      var r := ApplyDrop(s, ToDrop(|s|, f));
      assert r.Some? ==> |r.value| > f.arguments;
    }
  }

  /** What a jump to the loop takes after the drop: as many values off the top as the loop declares.
      They are the loop's arguments, whatever the values, exactly in these two cases or when the loop
      declares nothing. */
  lemma LoopJumpShape<A>(s: seq<A>, f: Frame)
    requires f.arguments <= |s|
    ensures var r := ApplyDrop(s, ToDrop(|s|, f));
            && r.Some? && f.arguments <= |r.value|
            && (f.results == [] || |s| == f.arguments || f.arguments == 0 ==>
                  LastOf(r.value, f.arguments) == s[..f.arguments])
            && (Distinct(s) && LastOf(r.value, f.arguments) == s[..f.arguments] ==>
                  f.results == [] || |s| == f.arguments || f.arguments == 0)
  {
    LoopDropShape(s, f);
    if f.results != [] && |s| > f.arguments > 0 {
      var r := ApplyDrop(s, ToDrop(|s|, f)).value;
      assert LastOf(r, f.arguments)[f.arguments - 1] == s[|s| - 1];
    }
  }

  function LastOf<A>(s: seq<A>, n: nat): seq<A>
    requires n <= |s|
  {
    s[|s| - n..]
  }

  ghost predicate Distinct<A>(s: seq<A>) {
    forall i, k :: 0 <= i < k < |s| ==> s[i] != s[k]
  }

  // ---------------------------------------------------------------- environment

  /** What stays fixed while one block body runs: the program, the labels in scope, the values
      below the block and the position of each label in scope that is branched to. */
  datatype Env = Env(sem: Semantics, p: Prog, ctx: Ctx, outer: seq<Val>, tgt: seq<nat>)

  function Arities(ctx: Ctx): (r: seq<nat>)
    ensures |r| == |ctx.labels| && forall i :: 0 <= i < |r| ==> r[i] == |ctx.labels[i].Types()|
  {
    seq(|ctx.labels|, i requires 0 <= i < |ctx.labels| => |ctx.labels[i].Types()|)
  }

  ghost predicate EnvOk(env: Env) {
    && Nested(env.ctx) && env.ctx.rule == SafeLoops
    && |env.outer| == env.ctx.Base()
    && |env.tgt| == |env.ctx.labels|
    && Unique(env.p.ops)
    && env.ctx.labels[0] == Lab(false, env.p.results, 0)
  }

  ghost predicate Resolves(ops: seq<Op>, name: Name, pos: nat, params: seq<Ty>) {
    && FindLabel(ops, name) == pos < |ops|
    && FindDecl(ops, name) < |ops|
    && ops[FindDecl(ops, name)].params == params
  }

  predicate Wanted(f: Frame) {
    f.kind.LoopKind? || f.NeedsEndLabel()
  }

  /** The stack a branch to label `i` arrives with. */
  function ParamTypes(env: Env, i: nat): seq<Ty>
    requires i < |env.ctx.labels| && env.ctx.labels[i].height <= |env.outer|
  {
    env.ctx.locals + TypesOf(env.outer[..env.ctx.labels[i].height]) + env.ctx.labels[i].Types()
  }

  ghost predicate TargetsOk(env: Env, frames: seq<Frame>)
    requires EnvOk(env)
  {
    forall i :: 0 < i < |frames| && i < |env.ctx.labels| && Wanted(frames[i]) && frames[i].BrTarget().To? ==>
      Resolves(env.p.ops, frames[i].BrTarget().name, env.tgt[i], ParamTypes(env, i))
  }

  lemma TargetsShrink(env: Env, fs: seq<Frame>, gs: seq<Frame>)
    requires EnvOk(env) && FramesGrown(fs, gs) && TargetsOk(env, gs)
    ensures TargetsOk(env, fs)
  {
    forall i | 0 < i < |fs| && i < |env.ctx.labels| && Wanted(fs[i]) && fs[i].BrTarget().To?
      ensures Resolves(env.p.ops, fs[i].BrTarget().name, env.tgt[i], ParamTypes(env, i))
    {
      assert Grown(fs[i], gs[i]);
    }
  }

  ghost predicate At(ops: seq<Op>, pc: nat, out: seq<Op>) {
    pc + |out| <= |ops| && ops[pc..pc + |out|] == out
  }

  lemma AtIndex(ops: seq<Op>, pc: nat, out: seq<Op>, j: nat)
    requires At(ops, pc, out) && j < |out|
    ensures ops[pc + j] == out[j]
  {
    assert ops[pc..pc + |out|][j] == out[j];
  }

  lemma AtConcat(ops: seq<Op>, pc: nat, a: seq<Op>, b: seq<Op>)
    requires At(ops, pc, a + b)
    ensures At(ops, pc, a) && At(ops, pc + |a|, b)
  {
    var m := ops[pc..pc + |a + b|];
    assert m[..|a|] == a && m[|a|..] == b;
    assert ops[pc..pc + |a|] == m[..|a|];
    assert ops[pc + |a|..pc + |a| + |b|] == m[|a|..];
  }

  // ---------------------------------------------------------------- simulation relation

  function Stack(env: Env, locals: seq<Val>, vs: seq<Val>): seq<Val> {
    locals + env.outer + vs
  }

  ghost predicate StateOk(env: Env, c: Conv, locals: seq<Val>, vs: seq<Val>) {
    && EnvOk(env)
    && TypesOf(locals) == env.ctx.locals
    && InStep(c, env.ctx, TypesOf(env.outer + vs))
  }

  /** Where the machine must be after a source result. */
  function Expect(env: Env, r: Result, endPc: nat): State
    requires |env.tgt| == |env.ctx.labels|
  {
    match r
    case Normal(l, vs, s) => Running(endPc, Stack(env, l, vs), s)
    case Branch(d, l, vs, s) =>
      if d >= |env.ctx.labels| then Done(Stuck) else
      var i := |env.ctx.labels| - 1 - d;
      if i == 0 then Done(Outcome.Return(vs, s))
      else if env.ctx.labels[i].height > |env.outer| then Done(Stuck)
      else Running(env.tgt[i] + 1, l + env.outer[..env.ctx.labels[i].height] + vs, s)
    case Returned(vs, s) => Done(Outcome.Return(vs, s))
    case Trapped => Done(Trap)
    case Timeout => Done(Stuck)
    case Wrong => Done(Stuck)
  }

  /** The source result is well typed and agrees with the validator's verdict. */
  ghost predicate ResultOk(env: Env, r: Result, chk: Checked) {
    match r
    case Normal(l, vs, _) => TypesOf(l) == env.ctx.locals && chk == Live(TypesOf(env.outer + vs))
    case Branch(d, l, vs, _) =>
      && d < |env.ctx.labels| && TypesOf(l) == env.ctx.locals
      && TypesOf(vs) == env.ctx.labels[|env.ctx.labels| - 1 - d].Types()
    case Returned(vs, _) => TypesOf(vs) == env.p.results
    case Trapped => true
    case Timeout => true
    case Wrong => false
  }

  ghost predicate Sim(env: Env, s: State, k: nat, r: Result, fuel: nat, endPc: nat, chk: Checked)
    requires EnvOk(env)
  {
    && ResultOk(env, r, chk)
    && (if r.Timeout? then k >= fuel && Steps(env.sem, env.p, k, s).Running?
        else Steps(env.sem, env.p, k, s) == Expect(env, r, endPc))
    && (r.Branch? ==> k >= 1)
  }

  lemma TypesConcat(a: seq<Val>, b: seq<Val>)
    ensures TypesOf(a + b) == TypesOf(a) + TypesOf(b)
  {
  }

  lemma TypesSlice(a: seq<Val>, lo: nat, hi: nat)
    requires lo <= hi <= |a|
    ensures TypesOf(a[lo..hi]) == TypesOf(a)[lo..hi]
    ensures TypesOf(a[..hi]) == TypesOf(a)[..hi]
    ensures TypesOf(a[lo..]) == TypesOf(a)[lo..]
  {
  }

  lemma StackTypes(env: Env, c: Conv, locals: seq<Val>, vs: seq<Val>)
    requires StateOk(env, c, locals, vs)
    ensures TypesOf(Stack(env, locals, vs)) == c.stack && |Stack(env, locals, vs)| == |c.stack|
  {
    TypesConcat(locals, env.outer + vs);
    assert Stack(env, locals, vs) == locals + (env.outer + vs);
  }

  lemma One(sem: Semantics, p: Prog, s: State)
    ensures Steps(sem, p, 1, s) == Step(sem, p, s)
  {
    assert Steps(sem, p, 0, Step(sem, p, s)) == Step(sem, p, s);
  }

  lemma Two(sem: Semantics, p: Prog, s: State)
    ensures Steps(sem, p, 2, s) == Step(sem, p, Step(sem, p, s))
  {
    One(sem, p, Step(sem, p, s));
  }

  // ---------------------------------------------------------------- branches

  lemma JumpExact(p: Prog, name: Name, pos: nat, stack: seq<Val>, store: Store)
    requires Resolves(p.ops, name, pos, TypesOf(stack))
    ensures Jump(p, To(name), stack, store) == Running(pos + 1, stack, store)
  {
    assert Top(stack, |stack|) == stack;
  }

  lemma JumpReturn(p: Prog, below: seq<Val>, vs: seq<Val>, store: Store)
    requires TypesOf(vs) == p.results
    ensures Jump(p, ToReturn, below + vs, store) == Done(Outcome.Return(vs, store))
  {
    assert Top(below + vs, |vs|) == vs;
  }

  /** The values on top of the current block's operands that match label types. */
  lemma TopValues(env: Env, c: Conv, locals: seq<Val>, vs: seq<Val>, ts: seq<Ty>)
    requires StateOk(env, c, locals, vs)
    requires HasTop(env.ctx.Base(), TypesOf(env.outer + vs), ts)
    ensures |ts| <= |vs| && TypesOf(Top(vs, |ts|)) == ts
    ensures var s := Stack(env, locals, vs); s[|s| - |ts|..] == Top(vs, |ts|)
  {
    var all := env.outer + vs;
    assert Top(vs, |ts|) == all[|all| - |ts|..];
    TypesSlice(all, |all| - |ts|, |all|);
    var s := Stack(env, locals, vs);
    assert s[|s| - |ts|..] == Top(vs, |ts|);
  }

  lemma DropToFrame<A>(locals: seq<A>, outer: seq<A>, vs: seq<A>, f: Frame, h: nat)
    requires f.arguments == |locals| + h && h <= |outer| && |f.results| <= |vs|
    ensures ApplyDrop(locals + outer + vs, ToDrop(|locals + outer + vs|, f)) ==
            Some(locals + outer[..h] + vs[|vs| - |f.results|..])
  {
    var s := locals + outer + vs;
    DropShape(s, f);
    assert s[..f.arguments] == locals + outer[..h];
    assert s[|s| - |f.results|..] == vs[|vs| - |f.results|..];
  }

  lemma DropToLoop<A>(locals: seq<A>, outer: seq<A>, vs: seq<A>, f: Frame, h: nat)
    requires f.arguments == |locals| + h && h <= |outer|
    requires f.results == [] || |locals + outer + vs| == f.arguments
    ensures ApplyDrop(locals + outer + vs, ToDrop(|locals + outer + vs|, f)) == Some(locals + outer[..h])
  {
    var s := locals + outer + vs;
    LoopDropShape(s, f);
    assert s[..f.arguments] == locals + outer[..h];
  }

  /** The frame of a label in scope, seen from a branch. */
  ghost predicate BranchFacts(env: Env, f: Frame, l: Lab, height: nat, locals: seq<Val>, vs: seq<Val>) {
    && l.height <= |env.outer|
    && f.arguments == |locals| + l.height
    && f.results == l.rets
    && height == |Stack(env, locals, vs)|
    && |l.Types()| <= |vs| && TypesOf(Top(vs, |l.Types()|)) == l.Types()
    && (l.isLoop ==> f.results == [] || height == f.arguments || f.arguments == 0)
  }

  lemma BranchFactsHold(env: Env, c: Conv, locals: seq<Val>, vs: seq<Val>, depth: nat)
    requires StateOk(env, c, locals, vs) && BranchOk(env.ctx, depth, TypesOf(env.outer + vs))
    ensures var i := |env.ctx.labels| - 1 - depth;
            BranchFacts(env, c.frames[i], env.ctx.labels[i], |c.stack|, locals, vs)
  {
    var i := |env.ctx.labels| - 1 - depth;
    var l := env.ctx.labels[i];
    StackTypes(env, c, locals, vs);
    TopValues(env, c, locals, vs, l.Types());
    assert FrameMatches(c.frames[i], l, |env.ctx.locals|, i == 0);
  }

  lemma DropFits<A>(s: seq<A>, f: Frame)
    ensures ApplyDrop(s, ToDrop(|s|, f)).Some?
  {
  }

  /** A branch drops to the frame's arguments plus the carried values; to a loop without arguments it
      may leave more. */
  lemma BranchDrop(env: Env, f: Frame, l: Lab, height: nat, locals: seq<Val>, vs: seq<Val>)
    requires BranchFacts(env, f, l, height, locals, vs)
    ensures ApplyDrop(Stack(env, locals, vs), ToDrop(height, f)).Some?
    ensures !(l.isLoop && f.arguments == 0) ==>
              ApplyDrop(Stack(env, locals, vs), ToDrop(height, f)) ==
              Some(locals + env.outer[..l.height] + Top(vs, |l.Types()|))
  {
    hide TypesOf;
    DropFits(Stack(env, locals, vs), f);
    if l.isLoop && f.arguments == 0 {
    } else if l.isLoop {
      DropToLoop(locals, env.outer, vs, f, l.height);
      AppendNone(locals + env.outer[..l.height], vs);
    } else {
      DropToFrame(locals, env.outer, vs, f, l.height);
    }
  }

  lemma AppendNone(t: seq<Val>, vs: seq<Val>)
    ensures t + Top(vs, 0) == t
  {
  }

  lemma ArrivalTypes(env: Env, i: nat, locals: seq<Val>, vs: seq<Val>)
    requires EnvOk(env) && i < |env.ctx.labels| && TypesOf(locals) == env.ctx.locals
    requires TypesOf(vs) == env.ctx.labels[i].Types()
    ensures TypesOf(locals + env.outer[..env.ctx.labels[i].height] + vs) == ParamTypes(env, i)
  {
    var h := env.ctx.labels[i].height;
    TypesConcat(locals + env.outer[..h], vs);
    TypesConcat(locals, env.outer[..h]);
  }

  /** Jumping to label `i` with the stack its frame describes. */
  lemma Arrive(env: Env, f: Frame, frames: seq<Frame>, i: nat, locals: seq<Val>, args: seq<Val>, store: Store)
    requires EnvOk(env) && TargetsOk(env, frames) && |frames| == |env.ctx.labels| && i < |frames|
    requires FrameMatches(f, env.ctx.labels[i], |env.ctx.locals|, i == 0) && Grown(f, frames[i])
    requires Wanted(frames[i]) || i == 0
    requires TypesOf(locals) == env.ctx.locals && TypesOf(args) == env.ctx.labels[i].Types()
    ensures Jump(env.p, f.BrTarget(), locals + env.outer[..env.ctx.labels[i].height] + args, store) ==
            Expect(env, Branch(|frames| - 1 - i, locals, args, store), 0)
  {
    var h := env.ctx.labels[i].height;
    if i == 0 {
      JumpReturn(env.p, locals + env.outer[..h], args, store);
    } else {
      ArrivalTypes(env, i, locals, args);
      assert f.BrTarget() == frames[i].BrTarget();
      JumpExact(env.p, f.BrTarget().name, env.tgt[i], locals + env.outer[..h] + args, store);
    }
  }

  /** A taken branch, with its drop range, arrives where the source branch says. */
  lemma BranchSim(env: Env, c: Conv, frames: seq<Frame>, locals: seq<Val>, vs: seq<Val>, store: Store, depth: nat)
    requires StateOk(env, c, locals, vs) && BranchOk(env.ctx, depth, TypesOf(env.outer + vs))
    requires FramesGrown(c.frames, frames) && TargetsOk(env, frames)
    requires Wanted(Nth(frames, depth)) || depth == |frames| - 1
    ensures var f := Nth(c.frames, depth); var r := ExecBr(Arities(env.ctx), depth, locals, vs, store);
            && r.Branch? && ResultOk(env, r, Dead)
            && JumpDrop(env.p, TargetDrop(f.BrTarget(), ToDrop(|c.stack|, f)), Stack(env, locals, vs), store) ==
               Expect(env, r, 0)
  {
    hide InStep, FramesGrown, TargetsOk, TypesOf, Unique, Nested, ToDrop, Jump, BranchFacts, Stack, FrameMatches,
      JumpDrop;
    hide ExecBr, Arities, BranchOk, Wanted, Grown;
    BranchFactsHold(env, c, locals, vs, depth);
    BranchScope(env, c, frames, locals, vs, depth);
    Landing(env, c.frames[|env.ctx.labels| - 1 - depth], frames, depth, |c.stack|, locals, vs, store);
    BranchTaken(env.ctx, depth, locals, vs, store);
  }

  lemma BranchTaken(ctx: Ctx, depth: nat, locals: seq<Val>, vs: seq<Val>, store: Store)
    requires depth < |ctx.labels| && |ctx.labels[|ctx.labels| - 1 - depth].Types()| <= |vs|
    ensures ExecBr(Arities(ctx), depth, locals, vs, store) ==
            Branch(depth, locals, Top(vs, |ctx.labels[|ctx.labels| - 1 - depth].Types()|), store)
  {
  }

  lemma Landing(env: Env, f: Frame, frames: seq<Frame>, depth: nat, height: nat, locals: seq<Val>, vs: seq<Val>,
      store: Store)
    requires EnvOk(env) && TargetsOk(env, frames) && |frames| == |env.ctx.labels| && depth < |frames|
    requires var i := |frames| - 1 - depth;
             && FrameMatches(f, env.ctx.labels[i], |env.ctx.locals|, i == 0) && Grown(f, frames[i])
             && (Wanted(frames[i]) || i == 0)
             && BranchFacts(env, f, env.ctx.labels[i], height, locals, vs)
    requires TypesOf(locals) == env.ctx.locals
    ensures var args := |env.ctx.labels[|frames| - 1 - depth].Types()|;
            && args <= |vs| && TypesOf(Top(vs, args)) == env.ctx.labels[|frames| - 1 - depth].Types()
            && JumpDrop(env.p, TargetDrop(f.BrTarget(), ToDrop(height, f)), Stack(env, locals, vs), store) ==
               Expect(env, Branch(depth, locals, Top(vs, args), store), 0)
  {
    var i := |frames| - 1 - depth;
    var l := env.ctx.labels[i];
    assert |l.Types()| <= |vs| && TypesOf(Top(vs, |l.Types()|)) == l.Types() && l.height <= |env.outer|;
    hide TargetsOk, TypesOf, Unique, Nested, ToDrop, Jump, BranchFacts, Stack, FrameMatches;
    BranchDrop(env, f, l, height, locals, vs);
    Arrive(env, f, frames, i, locals, Top(vs, |l.Types()|), store);
    if l.isLoop && f.arguments == 0 {
      JumpToEmpty(env, f, frames, i, locals, vs, ApplyDrop(Stack(env, locals, vs), ToDrop(height, f)).value, store);
    }
  }

  /** A loop that declares nothing is entered with nothing. */
  lemma JumpToEmpty(env: Env, f: Frame, frames: seq<Frame>, i: nat, locals: seq<Val>, vs: seq<Val>, stack: seq<Val>,
      store: Store)
    requires EnvOk(env) && TargetsOk(env, frames) && |frames| == |env.ctx.labels| && 0 < i < |frames|
    requires f.arguments == 0 && FrameMatches(f, env.ctx.labels[i], |env.ctx.locals|, false) && Grown(f, frames[i])
    requires Wanted(frames[i]) && env.ctx.labels[i].isLoop && TypesOf(locals) == env.ctx.locals
    ensures Jump(env.p, f.BrTarget(), stack, store) ==
            Jump(env.p, f.BrTarget(), locals + env.outer[..env.ctx.labels[i].height] + Top(vs, 0), store)
  {
    hide Unique, Nested;
    assert f.BrTarget() == frames[i].BrTarget();
    assert ParamTypes(env, i) == [];
    assert locals + env.outer[..env.ctx.labels[i].height] + Top(vs, 0) == [];
    assert Top(stack, 0) == [] && Top([], 0) == [];
  }

  lemma BranchScope(env: Env, c: Conv, frames: seq<Frame>, locals: seq<Val>, vs: seq<Val>, depth: nat)
    requires StateOk(env, c, locals, vs) && BranchOk(env.ctx, depth, TypesOf(env.outer + vs))
    requires FramesGrown(c.frames, frames)
    ensures |frames| == |c.frames| == |env.ctx.labels| && depth < |frames|
    ensures var i := |env.ctx.labels| - 1 - depth;
            FrameMatches(c.frames[i], env.ctx.labels[i], |env.ctx.locals|, i == 0) && Grown(c.frames[i], frames[i])
    ensures EnvOk(env) && TypesOf(locals) == env.ctx.locals
  {
    hide TypesOf, Unique, Nested;
  }

  // ---------------------------------------------------------------- leaves

  function Start(env: Env, pc: nat, locals: seq<Val>, vs: seq<Val>, store: Store): State {
    Running(pc, Stack(env, locals, vs), store)
  }

  function Opds(env: Env, vs: seq<Val>): seq<Ty> {
    TypesOf(env.outer + vs)
  }

  ghost predicate Ready(env: Env, c: Conv, e: Emit, locals: seq<Val>, vs: seq<Val>, pc: nat) {
    && StateOk(env, c, locals, vs)
    && e.Ok? && At(env.p.ops, pc, e.out) && TargetsOk(env, e.conv.frames)
  }

  lemma DropThenBr(sem: Semantics, p: Prog, pc: nat, stack: seq<Val>, store: Store, d: Option<Range>, t: Target)
    returns (k: nat)
    requires At(p.ops, pc, DropOps(d) + [MBr(t)]) && ApplyDrop(stack, d).Some?
    ensures k >= 1 && Steps(sem, p, k, Running(pc, stack, store)) == JumpDrop(p, TargetDrop(t, d), stack, store)
  {
    var out := DropOps(d) + [MBr(t)];
    AtIndex(p.ops, pc, out, 0);
    if d == None {
      k := 1;
      One(sem, p, Running(pc, stack, store));
    } else {
      k := 2;
      AtIndex(p.ops, pc, out, 1);
      Two(sem, p, Running(pc, stack, store));
    }
  }

  lemma TrapSim(env: Env, c: Conv, locals: seq<Val>, vs: seq<Val>, store: Store, pc: nat, fuel: nat)
    requires Ready(env, c, Convert1(c, OpUnreachable), locals, vs, pc)
    ensures Sim(env, Start(env, pc, locals, vs, store), 1, Trapped, fuel, pc + 1, Dead)
  {
    TrapLeaf(c, env.ctx, Opds(env, vs));
    AtIndex(env.p.ops, pc, [MTrap], 0);
    One(env.sem, env.p, Start(env, pc, locals, vs, store));
  }

  lemma MarkedWanted(frames: seq<Frame>, ctx: Ctx, depth: nat)
    requires FramesMatch(frames, ctx) && depth < |frames|
    ensures Wanted(Nth(MarkNth(frames, depth), depth)) || depth == |frames| - 1
  {
    assert FrameMatches(Nth(frames, depth), ctx.labels[|frames| - 1 - depth], |ctx.locals|, depth == |frames| - 1);
  }

  lemma BrSim(env: Env, c: Conv, depth: nat, locals: seq<Val>, vs: seq<Val>, store: Store, pc: nat, fuel: nat)
    returns (k: nat)
    requires Ready(env, c, Convert1(c, OpBr(depth)), locals, vs, pc)
    requires BranchOk(env.ctx, depth, Opds(env, vs))
    ensures Sim(env, Start(env, pc, locals, vs, store), k, ExecBr(Arities(env.ctx), depth, locals, vs, store), fuel,
                pc + |Convert1(c, OpBr(depth)).out|, Dead)
  {
    BrLeaf(c, env.ctx, Opds(env, vs), depth);
    var e := LiveBr(c, depth);
    var f := Nth(c.frames, depth);
    MarkNthGrows(c.frames, depth);
    MarkedWanted(c.frames, env.ctx, depth);
    BranchFactsHold(env, c, locals, vs, depth);
    BranchDrop(env, f, env.ctx.labels[|env.ctx.labels| - 1 - depth], |c.stack|, locals, vs);
    BranchSim(env, c, e.conv.frames, locals, vs, store, depth);
    k := DropThenBr(env.sem, env.p, pc, Stack(env, locals, vs), store, ToDrop(|c.stack|, f), f.BrTarget());
  }

  /** `return` drops to the locals plus the results and leaves through the return block. */
  lemma ReturnSim(env: Env, c: Conv, locals: seq<Val>, vs: seq<Val>, store: Store, pc: nat, fuel: nat)
    returns (k: nat)
    requires Ready(env, c, Convert1(c, OpReturn), locals, vs, pc)
    requires HasTop(env.ctx.Base(), Opds(env, vs), env.ctx.labels[0].rets)
    ensures Arities(env.ctx)[0] <= |vs|
    ensures Sim(env, Start(env, pc, locals, vs, store), k, Returned(Top(vs, Arities(env.ctx)[0]), store), fuel,
                pc + |Convert1(c, OpReturn).out|, Dead)
  {
    hide TargetsOk, Unique, TypesOf, Jump, FramesGrown;
    TrapLeaf(c, env.ctx, Opds(env, vs));
    var f := c.frames[0];
    var ts := env.ctx.labels[0].rets;
    assert FrameMatches(f, env.ctx.labels[0], |env.ctx.locals|, true);
    StackTypes(env, c, locals, vs);
    TopValues(env, c, locals, vs, ts);
    DropToFrame(locals, env.outer, vs, f, 0);
    assert locals + env.outer[..0] == locals;
    JumpReturn(env.p, locals, Top(vs, |ts|), store);
    k := DropThenBr(env.sem, env.p, pc, Stack(env, locals, vs), store, ToDrop(|c.stack|, f), f.BrTarget());
  }

  /** Popping the top operand, in the converter and on the machine. */
  lemma PopOne(env: Env, c: Conv, locals: seq<Val>, vs: seq<Val>)
    requires StateOk(env, c, locals, vs) && HasTop(env.ctx.Base(), Opds(env, vs), [I32])
    ensures |vs| > 0
    ensures PopTop(Opds(env, vs), 1) == Opds(env, vs[..|vs| - 1])
    ensures var s := Stack(env, locals, vs);
            |s| > 0 && s[..|s| - 1] == Stack(env, locals, vs[..|vs| - 1]) && s[|s| - 1] == vs[|vs| - 1]
    ensures StateOk(env, Popped1(c, env.ctx, Opds(env, vs)), locals, vs[..|vs| - 1])
  {
    assert env.outer + vs[..|vs| - 1] == (env.outer + vs)[..|env.outer + vs| - 1];
    TypesSlice(env.outer + vs, 0, |env.outer + vs| - 1);
    var s := Stack(env, locals, vs);
    assert s[..|s| - 1] == Stack(env, locals, vs[..|vs| - 1]);
  }

  lemma SplitLast(env: Env, locals: seq<Val>, vs: seq<Val>)
    requires |vs| > 0
    ensures Stack(env, locals, vs) == Stack(env, locals, vs[..|vs| - 1]) + [vs[|vs| - 1]]
  {
    assert vs == vs[..|vs| - 1] + [vs[|vs| - 1]];
  }

  lemma ResolveHere(ops: seq<Op>, name: Name, decl: nat, pos: nat, params: seq<Ty>)
    requires Unique(ops) && decl < |ops| && pos < |ops|
    requires ops[decl].MBlock? && ops[decl].name == name && ops[decl].params == params
    requires ops[pos] == MLabel(name)
    ensures Resolves(ops, name, pos, params)
  {
    FoundLabel(ops, pos, name);
    FoundDecl(ops, decl, name);
  }

  lemma BrIfSim(env: Env, c: Conv, depth: nat, locals: seq<Val>, vs: seq<Val>, store: Store, pc: nat, fuel: nat)
    requires Ready(env, c, Convert1(c, OpBrIf(depth)), locals, vs, pc)
    requires HasTop(env.ctx.Base(), Opds(env, vs), [I32])
    requires BranchOk(env.ctx, depth, PopTop(Opds(env, vs), 1))
    ensures |vs| > 0
    ensures var rest := vs[..|vs| - 1];
            Sim(env, Start(env, pc, locals, vs, store), 2,
                if vs[|vs| - 1].bits != 0 then ExecBr(Arities(env.ctx), depth, locals, rest, store)
                else Normal(locals, rest, store),
                fuel, pc + |Convert1(c, OpBrIf(depth)).out|, Live(PopTop(Opds(env, vs), 1)))
  {
    PopOne(env, c, locals, vs);
    BrIfLeaf(c, env.ctx, Opds(env, vs), depth);
    var rest := vs[..|vs| - 1];
    var c0 := Popped1(c, env.ctx, Opds(env, vs));
    BrIfRun(env, c0, depth, locals, rest, vs[|vs| - 1], store, pc);
    BrIfArrive(env, c0, depth, locals, rest, store, pc);
    SplitLast(env, locals, vs);
  }

  /** The machine on the three operators of a `br_if`. */
  lemma BrIfRun(env: Env, c0: Conv, depth: nat, locals: seq<Val>, rest: seq<Val>, cond: Val, store: Store, pc: nat)
    requires depth < |c0.frames| && At(env.p.ops, pc, LiveBrIf(c0, depth).out)
    ensures var f := Nth(c0.frames, depth);
            Steps(env.sem, env.p, 2, Running(pc, Stack(env, locals, rest) + [cond], store)) ==
            JumpDrop(env.p,
                     if cond.bits != 0 then TargetDrop(f.BrTarget(), ToDrop(|c0.stack|, f))
                     else TargetDrop(To(Name(c0.nextId, Header)), None),
                     Stack(env, locals, rest), store)
  {
    var out := LiveBrIf(c0, depth).out;
    AtIndex(env.p.ops, pc, out, 0);
    AtIndex(env.p.ops, pc, out, 1);
    var s := Stack(env, locals, rest) + [cond];
    assert s[..|s| - 1] == Stack(env, locals, rest);
    Two(env.sem, env.p, Running(pc, s, store));
  }

  lemma BrIfArrive(env: Env, c0: Conv, depth: nat, locals: seq<Val>, rest: seq<Val>, store: Store, pc: nat)
    requires StateOk(env, c0, locals, rest) && BranchOk(env.ctx, depth, Opds(env, rest))
    requires At(env.p.ops, pc, LiveBrIf(c0, depth).out) && TargetsOk(env, LiveBrIf(c0, depth).conv.frames)
    ensures var f := Nth(c0.frames, depth); var s := Stack(env, locals, rest);
            var r := ExecBr(Arities(env.ctx), depth, locals, rest, store);
            && r.Branch? && ResultOk(env, r, Dead)
            && JumpDrop(env.p, TargetDrop(f.BrTarget(), ToDrop(|c0.stack|, f)), s, store) == Expect(env, r, 0)
            && JumpDrop(env.p, TargetDrop(To(Name(c0.nextId, Header)), None), s, store) == Running(pc + 3, s, store)
  {
    var e := LiveBrIf(c0, depth);
    MarkNthGrows(c0.frames, depth);
    MarkedWanted(c0.frames, env.ctx, depth);
    BranchSim(env, c0, e.conv.frames, locals, rest, store, depth);
    StackTypes(env, c0, locals, rest);
    AtIndex(env.p.ops, pc, e.out, 0);
    AtIndex(env.p.ops, pc, e.out, 2);
    var next := Name(c0.nextId, Header);
    ResolveHere(env.p.ops, next, pc, pc + 2, c0.stack);
    JumpExact(env.p, next, pc + 2, Stack(env, locals, rest), store);
  }

  lemma {:induction false} MarkAllMarks(frames: seq<Frame>, depths: seq<nat>, n: nat)
    requires forall i :: 0 <= i < |depths| ==> depths[i] < |frames|
    requires n < |frames| && (Nth(frames, n) == Nth(frames, n).Marked() || n in depths)
    ensures Nth(MarkAll(frames, depths), n) == Nth(MarkAll(frames, depths), n).Marked()
    decreases |depths|
  {
    if depths != [] {
      MarkAllMarks(MarkNth(frames, depths[0]), depths[1..], n);
    }
  }

  /** Every entry of a branch table ends up marked. */
  lemma TableMarks(frames: seq<Frame>, ds: seq<nat>, d: nat, t: nat) returns (fs: seq<Frame>)
    requires d < |frames| && (forall i :: 0 <= i < |ds| ==> ds[i] < |frames|) && (t == d || t in ds)
    ensures fs == MarkNth(MarkAll(frames, ds), d)
    ensures FramesGrown(frames, fs) && t < |fs| && Nth(fs, t) == Nth(fs, t).Marked()
  {
    var ms := MarkAll(frames, ds);
    fs := MarkNth(ms, d);
    MarkAllGrows(frames, ds);
    MarkNthGrows(ms, d);
    GrownTrans(frames, ms, fs);
    if t in ds {
      MarkAllMarks(frames, ds, t);
    }
  }

  lemma MarkedFrameWanted(frames: seq<Frame>, ctx: Ctx, t: nat)
    requires FramesMatch(frames, ctx) && t < |frames| && Nth(frames, t) == Nth(frames, t).Marked()
    ensures Wanted(Nth(frames, t)) || t == |frames| - 1
  {
    assert FrameMatches(Nth(frames, t), ctx.labels[|frames| - 1 - t], |ctx.locals|, t == |frames| - 1);
  }

  lemma BrTableRun(env: Env, ts: seq<TargetDrop>, td: TargetDrop, s: seq<Val>, sel: Val, store: Store, pc: nat)
    requires At(env.p.ops, pc, [MBrTable(ts, td)])
    ensures Steps(env.sem, env.p, 1, Running(pc, s + [sel], store)) ==
            JumpDrop(env.p, if sel.bits < |ts| then ts[sel.bits] else td, s, store)
  {
    AtIndex(env.p.ops, pc, [MBrTable(ts, td)], 0);
    assert (s + [sel])[..|s|] == s;
    One(env.sem, env.p, Running(pc, s + [sel], store));
  }

  lemma BrTableArrive(env: Env, c0: Conv, ds: seq<nat>, d: nat, n: nat, locals: seq<Val>, rest: seq<Val>, store: Store)
    requires StateOk(env, c0, locals, rest)
    requires d < |c0.frames| && (forall i :: 0 <= i < |ds| ==> ds[i] < |c0.frames|)
    requires BranchOk(env.ctx, if n < |ds| then ds[n] else d, Opds(env, rest))
    requires TargetsOk(env, MarkNth(MarkAll(c0.frames, ds), d))
    ensures var t := if n < |ds| then ds[n] else d;
            var f := Nth(c0.frames, t); var r := ExecBr(Arities(env.ctx), t, locals, rest, store);
            && r.Branch? && ResultOk(env, r, Dead)
            && JumpDrop(env.p, TargetDrop(f.BrTarget(), ToDrop(|c0.stack|, f)), Stack(env, locals, rest), store) ==
               Expect(env, r, 0)
  {
    var t := if n < |ds| then ds[n] else d;
    var fs := TableMarks(c0.frames, ds, d, t);
    GrownMatch(c0.frames, fs, env.ctx);
    MarkedFrameWanted(fs, env.ctx, t);
    BranchSim(env, c0, fs, locals, rest, store, t);
  }

  lemma BrTableSim(env: Env, c: Conv, ds: seq<nat>, d: nat, locals: seq<Val>, vs: seq<Val>, store: Store, pc: nat,
      fuel: nat)
    requires |vs| > 0 && Ready(env, c, Convert1(c, OpBrTable(ds, d)), locals, vs, pc)
    requires HasTop(env.ctx.Base(), Opds(env, vs), [I32])
    requires d < |c.frames| && forall i :: 0 <= i < |ds| ==> ds[i] < |c.frames|
    requires var n := vs[|vs| - 1].bits; BranchOk(env.ctx, if n < |ds| then ds[n] else d, Opds(env, vs[..|vs| - 1]))
    ensures var n := vs[|vs| - 1].bits;
            Sim(env, Start(env, pc, locals, vs, store), 1,
                ExecBr(Arities(env.ctx), if n < |ds| then ds[n] else d, locals, vs[..|vs| - 1], store),
                fuel, pc + |Convert1(c, OpBrTable(ds, d)).out|, Dead)
  {
    PopOne(env, c, locals, vs);
    var c0 := Popped1(c, env.ctx, Opds(env, vs));
    BrTableLeaf(c, env.ctx, Opds(env, vs), ds, d);
    assert LiveBrTable(c0, ds, d).conv.frames == MarkNth(MarkAll(c0.frames, ds), d);
    BrTableRest(env, c0, ds, d, locals, vs[..|vs| - 1], vs[|vs| - 1], store, pc, fuel);
    SplitLast(env, locals, vs);
  }

  lemma BrTableRest(env: Env, c0: Conv, ds: seq<nat>, d: nat, locals: seq<Val>, rest: seq<Val>, sel: Val, store: Store,
                    pc: nat, fuel: nat)
    requires StateOk(env, c0, locals, rest)
    requires d < |c0.frames| && forall i :: 0 <= i < |ds| ==> ds[i] < |c0.frames|
    requires BranchOk(env.ctx, if sel.bits < |ds| then ds[sel.bits] else d, Opds(env, rest))
    requires TargetsOk(env, MarkNth(MarkAll(c0.frames, ds), d))
    requires At(env.p.ops, pc, LiveBrTable(c0, ds, d).out)
    ensures Sim(env, Running(pc, Stack(env, locals, rest) + [sel], store), 1,
                ExecBr(Arities(env.ctx), if sel.bits < |ds| then ds[sel.bits] else d, locals, rest, store),
                fuel, pc + 1, Dead)
  {
    BrTableArrive(env, c0, ds, d, sel.bits, locals, rest, store);
    BrTableRun(env, Targets(|c0.stack|, c0.frames, ds),
               TargetDrop(Nth(c0.frames, d).BrTarget(), ToDrop(|c0.stack|, Nth(c0.frames, d))),
               Stack(env, locals, rest), sel, store, pc);
  }

  // ---------------------------------------------------------------- operand and local operators

  /** A block-local change of the operands, seen on the whole stack. */
  lemma OperandTypes(env: Env, vs: seq<Val>, n: nat, more: seq<Val>)
    requires n <= |vs|
    ensures Opds(env, vs[..|vs| - n] + more) == PopTop(Opds(env, vs), n) + TypesOf(more)
  {
    var keep := vs[..|vs| - n];
    assert env.outer + (keep + more) == (env.outer + keep) + more;
    TypesConcat(env.outer + keep, more);
    assert env.outer + keep == (env.outer + vs)[..|env.outer + vs| - n];
    TypesSlice(env.outer + vs, 0, |env.outer + vs| - n);
  }

  lemma StackSplit(env: Env, locals: seq<Val>, vs: seq<Val>, n: nat)
    requires n <= |vs|
    ensures var s := Stack(env, locals, vs);
            && s[..|s| - n] == Stack(env, locals, vs[..|vs| - n])
            && s[|s| - n..] == Top(vs, n)
  {
    var s := Stack(env, locals, vs);
    assert s[..|s| - n] == Stack(env, locals, vs[..|vs| - n]);
    assert s[|s| - n..] == Top(vs, n);
  }

  lemma StackPush(env: Env, locals: seq<Val>, vs: seq<Val>, more: seq<Val>)
    ensures Stack(env, locals, vs) + more == Stack(env, locals, vs + more)
  {
    assert locals + env.outer + vs + more == locals + env.outer + (vs + more);
  }

  lemma DropTop(sem: Semantics, p: Prog, pc: nat, s: seq<Val>, v: Val, store: Store)
    requires pc < |p.ops| && p.ops[pc] == MDrop(Range(0, 0))
    ensures Step(sem, p, Running(pc, s + [v], store)) == Running(pc + 1, s, store)
  {
    assert DropRange(s + [v], 0, 0) == s;
  }

  lemma DropSim(env: Env, c: Conv, locals: seq<Val>, vs: seq<Val>, store: Store, pc: nat, fuel: nat)
    requires |vs| > 0 && Ready(env, c, Convert1(c, OpDrop), locals, vs, pc)
    requires |Opds(env, vs)| > env.ctx.Base()
    ensures Sim(env, Start(env, pc, locals, vs, store), 1, Normal(locals, vs[..|vs| - 1], store), fuel,
                pc + |Convert1(c, OpDrop).out|, Live(PopTop(Opds(env, vs), 1)))
  {
    DropLeaf(c, env.ctx, Opds(env, vs));
    AtIndex(env.p.ops, pc, [MDrop(Range(0, 0))], 0);
    SplitLast(env, locals, vs);
    DropTop(env.sem, env.p, pc, Stack(env, locals, vs[..|vs| - 1]), vs[|vs| - 1], store);
    One(env.sem, env.p, Start(env, pc, locals, vs, store));
    OperandTypes(env, vs, 1, []);
    assert vs[..|vs| - 1] + [] == vs[..|vs| - 1];
  }

  lemma SelectStep(sem: Semantics, p: Prog, pc: nat, s: seq<Val>, a: Val, b: Val, cond: Val, store: Store)
    requires pc < |p.ops| && p.ops[pc] == MSelect
    ensures Step(sem, p, Running(pc, s + [a, b, cond], store)) ==
            Running(pc + 1, s + [if cond.bits != 0 then a else b], store)
  {
    assert (s + [a, b, cond])[..|s|] == s;
  }

  lemma SelectSim(env: Env, c: Conv, locals: seq<Val>, vs: seq<Val>, store: Store, pc: nat, fuel: nat)
    requires |vs| >= 3 && Ready(env, c, Convert1(c, OpSelect), locals, vs, pc)
    requires CheckInstr(env.ctx, Select, Opds(env, vs)).Live?
    ensures var n := |vs|;
            Sim(env, Start(env, pc, locals, vs, store), 1,
                Normal(locals, vs[..n - 3] + [if vs[n - 1].bits != 0 then vs[n - 3] else vs[n - 2]], store), fuel,
                pc + |Convert1(c, OpSelect).out|, CheckInstr(env.ctx, Select, Opds(env, vs)))
  {
    hide Unique, TargetsOk, TypesOf, Stack, Convert1;
    var n := |vs|;
    var x := if vs[n - 1].bits != 0 then vs[n - 3] else vs[n - 2];
    SelectLeaf(c, env.ctx, Opds(env, vs));
    AtIndex(env.p.ops, pc, [MSelect], 0);
    var keep := Stack(env, locals, vs[..n - 3]);
    SelectTypes(env, vs, x);
    assert Stack(env, locals, vs) == keep + [vs[n - 3], vs[n - 2], vs[n - 1]] by {
      assert vs == vs[..n - 3] + [vs[n - 3], vs[n - 2], vs[n - 1]];
      StackPush(env, locals, vs[..n - 3], [vs[n - 3], vs[n - 2], vs[n - 1]]);
    }
    SelectStep(env.sem, env.p, pc, keep, vs[n - 3], vs[n - 2], vs[n - 1], store);
    StackPush(env, locals, vs[..n - 3], [x]);
    One(env.sem, env.p, Start(env, pc, locals, vs, store));
  }

  lemma SelectTypes(env: Env, vs: seq<Val>, x: Val)
    requires |vs| >= 3 && x in vs[|vs| - 3..|vs| - 1]
    requires var o := Opds(env, vs); o[|o| - 2] == o[|o| - 3]
    ensures Opds(env, vs[..|vs| - 3] + [x]) == PopTop(Opds(env, vs), 2)
  {
    var n := |vs|;
    var o := Opds(env, vs);
    OperandTypes(env, vs, 3, [x]);
    assert (env.outer + vs)[|env.outer + vs| - 3] == vs[n - 3];
    assert (env.outer + vs)[|env.outer + vs| - 2] == vs[n - 2];
    assert TypesOf([x]) == [o[|o| - 3]];
    assert PopTop(o, 2) == PopTop(o, 3) + [o[|o| - 3]];
  }

  lemma ConstSim(env: Env, c: Conv, v: Val, locals: seq<Val>, vs: seq<Val>, store: Store, pc: nat, fuel: nat)
    requires Ready(env, c, Convert1(c, OpConst(v)), locals, vs, pc)
    ensures Sim(env, Start(env, pc, locals, vs, store), 1, Normal(locals, vs + [v], store), fuel,
                pc + |Convert1(c, OpConst(v)).out|, Live(Opds(env, vs) + [v.ty]))
  {
    ConstLeaf(c, env.ctx, Opds(env, vs), v);
    AtIndex(env.p.ops, pc, [MConst(v)], 0);
    One(env.sem, env.p, Start(env, pc, locals, vs, store));
    StackPush(env, locals, vs, [v]);
    PushTypes(env, vs, v);
  }

  lemma PushTypes(env: Env, vs: seq<Val>, v: Val)
    ensures Opds(env, vs + [v]) == Opds(env, vs) + [v.ty]
  {
    assert env.outer + (vs + [v]) == (env.outer + vs) + [v];
    TypesConcat(env.outer + vs, [v]);
  }

  lemma PlainSim(env: Env, c: Conv, op: PlainOp, locals: seq<Val>, vs: seq<Val>, store: Store, pc: nat, fuel: nat)
    requires Ready(env, c, Convert1(c, OpPlain(op)), locals, vs, pc)
    requires HasTop(env.ctx.Base(), Opds(env, vs), op.inputs) && |op.outputs| <= 1
    ensures |op.inputs| <= |vs|
    ensures var res := RunPlain(env.sem, op, store, Top(vs, |op.inputs|));
            Sim(env, Start(env, pc, locals, vs, store), 1,
                if res.Fault? then Trapped else Normal(locals, vs[..|vs| - |op.inputs|] + res.vals, res.store),
                fuel, pc + |Convert1(c, OpPlain(op)).out|,
                Live(PopTop(Opds(env, vs), |op.inputs|) + op.outputs))
  {
    hide Unique, TargetsOk, TypesOf, Convert1;
    PlainLeaf(c, env.ctx, Opds(env, vs), op);
    AtIndex(env.p.ops, pc, [MPlain(op)], 0);
    One(env.sem, env.p, Start(env, pc, locals, vs, store));
    var n := |op.inputs|;
    assert n <= |vs|;
    StackSplit(env, locals, vs, n);
    var res := RunPlain(env.sem, op, store, Top(vs, n));
    if res.Next? {
      StackPush(env, locals, vs[..|vs| - n], res.vals);
      OperandTypes(env, vs, n, res.vals);
    }
  }

  lemma GetLocalSim(env: Env, c: Conv, x: nat, locals: seq<Val>, vs: seq<Val>, store: Store, pc: nat, fuel: nat)
    requires Ready(env, c, Convert1(c, OpGetLocal(x)), locals, vs, pc) && x < |env.ctx.locals|
    ensures x < |locals|
    ensures Sim(env, Start(env, pc, locals, vs, store), 1, Normal(locals, vs + [locals[x]], store), fuel,
                pc + |Convert1(c, OpGetLocal(x)).out|, Live(Opds(env, vs) + [env.ctx.locals[x]]))
  {
    GetLocalLeaf(c, env.ctx, Opds(env, vs), x);
    StackTypes(env, c, locals, vs);
    AtIndex(env.p.ops, pc, [MPick(|c.stack| - 1 - x)], 0);
    One(env.sem, env.p, Start(env, pc, locals, vs, store));
    assert Stack(env, locals, vs)[x] == locals[x];
    StackPush(env, locals, vs, [locals[x]]);
    PushTypes(env, vs, locals[x]);
  }

  /** Swapping with a local and dropping the top assigns the local. */
  lemma SwapDrop(sem: Semantics, p: Prog, pc: nat, s: seq<Val>, v: Val, x: nat, store: Store)
    requires x < |s| && pc + 1 < |p.ops|
    requires p.ops[pc] == MSwap(|s| - x) && p.ops[pc + 1] == MDrop(Range(0, 0))
    ensures Steps(sem, p, 2, Running(pc, s + [v], store)) == Running(pc + 2, s[x := v], store)
  {
    var t := s + [v];
    var n := |t|;
    assert t[n - 1 := t[x]][x := t[n - 1]] == s[x := v] + [s[x]];
    DropTop(sem, p, pc + 1, s[x := v], s[x], store);
    Two(sem, p, Running(pc, t, store));
  }

  lemma UpdateLocal(env: Env, locals: seq<Val>, vs: seq<Val>, x: nat, v: Val)
    requires x < |locals| && v.ty == locals[x].ty
    ensures Stack(env, locals, vs)[x := v] == Stack(env, locals[x := v], vs)
    ensures TypesOf(locals[x := v]) == TypesOf(locals)
  {
    assert Stack(env, locals, vs)[x := v] == Stack(env, locals[x := v], vs);
  }

  lemma LastType(env: Env, vs: seq<Val>, base: nat, ty: Ty)
    requires |vs| > 0 && HasTop(base, Opds(env, vs), [ty])
    ensures vs[|vs| - 1].ty == ty
  {
    var o := Opds(env, vs);
    assert o[|o| - 1..][0] == ty;
    assert (env.outer + vs)[|env.outer + vs| - 1] == vs[|vs| - 1];
  }

  lemma SetLocalSim(env: Env, c: Conv, x: nat, locals: seq<Val>, vs: seq<Val>, store: Store, pc: nat, fuel: nat)
    requires |vs| > 0 && Ready(env, c, Convert1(c, OpSetLocal(x)), locals, vs, pc) && x < |env.ctx.locals|
    requires HasTop(env.ctx.Base(), Opds(env, vs), [env.ctx.locals[x]])
    ensures x < |locals|
    ensures Sim(env, Start(env, pc, locals, vs, store), 2,
                Normal(locals[x := vs[|vs| - 1]], vs[..|vs| - 1], store), fuel,
                pc + |Convert1(c, OpSetLocal(x)).out|, Live(PopTop(Opds(env, vs), 1)))
  {
    SetLocalLeaf(c, env.ctx, Opds(env, vs), x);
    StackTypes(env, c, locals, vs);
    var out := [MSwap(|c.stack| - 1 - x), MDrop(Range(0, 0))];
    AtIndex(env.p.ops, pc, out, 0);
    AtIndex(env.p.ops, pc, out, 1);
    var rest, v := vs[..|vs| - 1], vs[|vs| - 1];
    SplitLast(env, locals, vs);
    LastType(env, vs, env.ctx.Base(), env.ctx.locals[x]);
    SwapDrop(env.sem, env.p, pc, Stack(env, locals, rest), v, x, store);
    UpdateLocal(env, locals, rest, x, v);
    OperandTypes(env, vs, 1, []);
    assert rest + [] == rest;
  }

  lemma PickTop(sem: Semantics, p: Prog, pc: nat, s: seq<Val>, v: Val, store: Store)
    requires pc < |p.ops| && p.ops[pc] == MPick(0)
    ensures Step(sem, p, Running(pc, s + [v], store)) == Running(pc + 1, s + [v] + [v], store)
  {
  }

  lemma TeeLocalSim(env: Env, c: Conv, x: nat, locals: seq<Val>, vs: seq<Val>, store: Store, pc: nat, fuel: nat)
    requires |vs| > 0 && Ready(env, c, Convert1(c, OpTeeLocal(x)), locals, vs, pc) && x < |env.ctx.locals|
    requires HasTop(env.ctx.Base(), Opds(env, vs), [env.ctx.locals[x]])
    ensures x < |locals|
    ensures Sim(env, Start(env, pc, locals, vs, store), 3, Normal(locals[x := vs[|vs| - 1]], vs, store), fuel,
                pc + |Convert1(c, OpTeeLocal(x)).out|, Live(Opds(env, vs)))
  {
    TeeLocalLeaf(c, env.ctx, Opds(env, vs), x);
    StackTypes(env, c, locals, vs);
    var out := [MPick(0), MSwap(|c.stack| - x), MDrop(Range(0, 0))];
    AtIndex(env.p.ops, pc, out, 0);
    AtIndex(env.p.ops, pc, out, 1);
    AtIndex(env.p.ops, pc, out, 2);
    var s, v := Stack(env, locals, vs), vs[|vs| - 1];
    SplitLast(env, locals, vs);
    LastType(env, vs, env.ctx.Base(), env.ctx.locals[x]);
    PickTop(env.sem, env.p, pc, Stack(env, locals, vs[..|vs| - 1]), v, store);
    SwapDrop(env.sem, env.p, pc + 1, s, v, x, store);
    One(env.sem, env.p, Running(pc, s, store));
    StepsAdd(env.sem, env.p, 1, 2, Running(pc, s, store));
    UpdateLocal(env, locals, vs, x, v);
  }
}
