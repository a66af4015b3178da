/** A loop with a result, branched to with an operand above its entry height: valid Wasm whose
    emitted stream computes something else.  `to_drop!` takes the loop's results where the loop
    label's arity (none) is needed. */
module LoopResults {
  import opened Wasm
  import opened Microwasm
  import opened Converter
  import opened ConverterFacts
  import opened Preservation

  function I(n: nat): Val {
    Val(I32, n)
  }

  /** The second local is the condition; it is cleared before the branch back. */
  function LoopBody(): Code {
    Cons(Const(I(0)), Cons(GetLocal(1), Cons(Const(I(0)), Cons(SetLocal(1), Cons(BrIf(0), LoopTail())))))
  }

  function LoopTail(): Code {
    Cons(Drop, Cons(GetLocal(0), Nil))
  }

  function Miscompiled(): Func {
    Func([I32, I32], [], [I32], Cons(Loop(Single(I32), LoopBody()), Nil))
  }

  function Stream(): seq<Op> {
    var h, e, n := Name(1, Header), Name(1, End), Name(2, Header);
    [LoopDecl([I32, I32], h), EndDecl([I32, I32, I32], e), MBr(To(h)), MLabel(h),
     MConst(I(0)), MPick(1), MConst(I(0)), MSwap(3), MDrop(Range(0, 0)),
     BlockDecl([I32, I32, I32], n), MBrIf(TargetDrop(To(h), None), TargetDrop(To(n), None)), MLabel(n),
     MDrop(Range(0, 0)), MPick(1), MBr(ToReturn)]
  }

  lemma MiscompiledIsValid()
    ensures ValidFunc(Miscompiled(), AllLoops) && !ValidFunc(Miscompiled(), SafeLoops)
  {
    MiscompiledChecks(AllLoops);
    MiscompiledChecks(SafeLoops);
    hide CheckCode;
  }

  lemma MiscompiledChecks(rule: LoopRule)
    ensures CheckCode(FuncCtx(Miscompiled(), rule), Miscompiled().body, []) ==
            if rule != AllLoops then Invalid else Live([I32])
  {
    var f := Miscompiled();
    BodyChecks(rule);
    assert FuncCtx(f, rule).Push(Lab(true, [I32], 0)) == LoopCtx(rule);
    assert CheckInstr(FuncCtx(f, rule), Loop(Single(I32), LoopBody()), []) ==
           if rule != AllLoops then Invalid else Live([I32]);
  }

  function LoopCtx(rule: LoopRule): Ctx {
    Ctx([I32, I32], [Lab(false, [I32], 0), Lab(true, [I32], 0)], rule)
  }

  lemma TailChecks(rule: LoopRule)
    ensures CheckCode(LoopCtx(rule), LoopTail(), [I32]) == Live([I32])
  {
    assert CheckCode(LoopCtx(rule), Cons(GetLocal(0), Nil), []) == Live([I32]);
  }

  /** The branch back to the loop is where the checks differ. */
  lemma BranchChecks(rule: LoopRule)
    ensures CheckCode(LoopCtx(rule), Cons(BrIf(0), LoopTail()), [I32, I32]) ==
            if rule != AllLoops then Invalid else Live([I32])
  {
    TailChecks(rule);
    assert CheckInstr(LoopCtx(rule), BrIf(0), [I32, I32]) == if rule != AllLoops then Invalid else Live([I32]);
    hide CheckInstr;
  }

  lemma BodyChecks(rule: LoopRule)
    ensures CheckCode(LoopCtx(rule), LoopBody(), []) == if rule != AllLoops then Invalid else Live([I32])
  {
    hide CheckInstr;
    BranchChecks(rule);
    PushChecks(rule, []);
    PushChecks(rule, [I32]);
    PushChecks(rule, [I32, I32]);
    SetChecks(rule);
    assert [] + [I32] == [I32] && [I32] + [I32] == [I32, I32] && [I32, I32] + [I32] == [I32, I32, I32];
    var ctx, rest := LoopCtx(rule), Cons(BrIf(0), LoopTail());
    assert CheckCode(ctx, Cons(SetLocal(1), rest), [I32, I32, I32]) == CheckCode(ctx, rest, [I32, I32]);
    assert CheckCode(ctx, Cons(Const(I(0)), Cons(SetLocal(1), rest)), [I32, I32]) == CheckCode(ctx, rest, [I32, I32]);
  }

  lemma PushChecks(rule: LoopRule, opds: seq<Ty>)
    ensures CheckInstr(LoopCtx(rule), Const(I(0)), opds) == Live(opds + [I32])
    ensures CheckInstr(LoopCtx(rule), GetLocal(1), opds) == Live(opds + [I32])
  {
  }

  lemma SetChecks(rule: LoopRule)
    ensures CheckInstr(LoopCtx(rule), SetLocal(1), [I32, I32, I32]) == Live([I32, I32])
  {
  }

  // ---------------------------------------------------------------- what the source does

  lemma TailRuns(sem: Semantics, store: Store, fuel: nat, x: Val, c: Val, v: Val)
    ensures ExecCode(sem, [1, 0], LoopTail(), fuel, [x, c], [v], store) == Normal([x, c], [x], store)
  {
    assert ExecInstr(sem, [1, 0], GetLocal(0), fuel, [x, c], [], store) == Normal([x, c], [x], store);
    assert ExecCode(sem, [1, 0], Cons(GetLocal(0), Nil), fuel, [x, c], [], store) == Normal([x, c], [x], store);
    assert ExecInstr(sem, [1, 0], Drop, fuel, [x, c], [v], store) == Normal([x, c], [], store);
  }

  lemma BranchRuns(sem: Semantics, store: Store, fuel: nat, x: Val, c: nat)
    ensures ExecCode(sem, [1, 0], Cons(BrIf(0), LoopTail()), fuel, [x, I(0)], [I(0), I(c)], store) ==
            if c != 0 then Branch(0, [x, I(0)], [], store) else Normal([x, I(0)], [x], store)
  {
    var ls := [x, I(0)];
    TailRuns(sem, store, fuel, x, I(0), I(0));
    assert [I(0), I(c)][..1] == [I(0)];
    assert ExecInstr(sem, [1, 0], BrIf(0), fuel, ls, [I(0), I(c)], store) ==
           if c != 0 then Branch(0, ls, [], store) else Normal(ls, [I(0)], store);
    hide ExecInstr;
  }

  lemma BodyRuns(sem: Semantics, store: Store, fuel: nat, x: Val, c: nat)
    ensures ExecCode(sem, [1, 0], LoopBody(), fuel, [x, I(c)], [], store) ==
            if c != 0 then Branch(0, [x, I(0)], [], store) else Normal([x, I(0)], [x], store)
  {
    var a := [1, 0];
    var ls := [x, I(0)];
    BranchRuns(sem, store, fuel, x, c);
    assert [x, I(c)][1 := I(0)] == ls;
    assert [I(0), I(c), I(0)][..2] == [I(0), I(c)];
    var r := if c != 0 then Branch(0, ls, [], store) else Normal(ls, [x], store);
    var t3 := Cons(SetLocal(1), Cons(BrIf(0), LoopTail()));
    assert ExecInstr(sem, a, SetLocal(1), fuel, [x, I(c)], [I(0), I(c), I(0)], store) == Normal(ls, [I(0), I(c)],
      store);
    assert ExecCode(sem, a, t3, fuel, [x, I(c)], [I(0), I(c), I(0)], store) == r;
    assert ExecInstr(sem, a, Const(I(0)), fuel, [x, I(c)], [I(0), I(c)], store) ==
           Normal([x, I(c)], [I(0), I(c), I(0)], store);
    assert ExecCode(sem, a, Cons(Const(I(0)), t3), fuel, [x, I(c)], [I(0), I(c)], store) == r;
    assert ExecInstr(sem, a, GetLocal(1), fuel, [x, I(c)], [I(0)], store) == Normal([x, I(c)], [I(0), I(c)], store);
    assert ExecCode(sem, a, Cons(GetLocal(1), Cons(Const(I(0)), t3)), fuel, [x, I(c)], [I(0)], store) == r;
    assert ExecInstr(sem, a, Const(I(0)), fuel, [x, I(c)], [], store) == Normal([x, I(c)], [I(0)], store);
  }

  lemma SourceReturns(sem: Semantics, store: Store)
    ensures ExecFunc(sem, Miscompiled(), [I(7), I(1)], store, 1) == Finished(Outcome.Return([I(7)], store))
  {
    LoopRuns(sem, store);
    hide ExecInstr, LoopBody;
    var loop := Loop(Single(I32), LoopBody());
    assert [I(7), I(1)] + Zeros([]) == [I(7), I(1)];
    assert ExecCode(sem, [1], Cons(loop, Nil), 1, [I(7), I(1)], [], store) == Normal([I(7), I(0)], [I(7)], store);
  }

  lemma LoopRuns(sem: Semantics, store: Store)
    ensures ExecInstr(sem, [1], Loop(Single(I32), LoopBody()), 1, [I(7), I(1)], [], store) ==
            Normal([I(7), I(0)], [I(7)], store)
  {
    hide LoopBody, ExecCode;
    var loop := Loop(Single(I32), LoopBody());
    BodyRuns(sem, store, 1, I(7), 1);
    BodyRuns(sem, store, 0, I(7), 0);
    assert [1] + [0] == [1, 0];
    assert ExecInstr(sem, [1], loop, 0, [I(7), I(0)], [], store) == Normal([I(7), I(0)], [] + [I(7)], store);
  }

  // ---------------------------------------------------------------- what is emitted

  /** The converter inside the loop, with `n` operands of type i32 and next id `id`. */
  function InLoop(opds: seq<Ty>, id: nat): Conv {
    Conv([I32, I32] + opds, [Frame(0, 2, [I32], FunctionKind), Frame(1, 2, [I32], LoopKind)], id, None, false)
  }

  lemma LoopInStep(opds: seq<Ty>, id: nat)
    ensures InStep(InLoop(opds, id), LoopCtx(AllLoops), opds)
  {
  }

  lemma FrontEmitted()
    ensures ConvertInstr(InLoop([], 2), Const(I(0))) == Ok(InLoop([I32], 2), [MConst(I(0))])
    ensures ConvertInstr(InLoop([I32], 2), GetLocal(1)) == Ok(InLoop([I32, I32], 2), [MPick(1)])
    ensures ConvertInstr(InLoop([I32, I32], 2), Const(I(0))) == Ok(InLoop([I32, I32, I32], 2), [MConst(I(0))])
    ensures ConvertInstr(InLoop([I32, I32, I32], 2), SetLocal(1)) ==
            Ok(InLoop([I32, I32], 2), [MSwap(3), MDrop(Range(0, 0))])
  {
    hide ConvertInstr;
    ConstInLoop([], 2);
    GetInLoop([I32], 2, 1);
    ConstInLoop([I32, I32], 2);
    SetInLoop();
    assert [] + [I32] == [I32] && [I32] + [I32] == [I32, I32] && [I32, I32] + [I32] == [I32, I32, I32];
  }

  lemma ConstInLoop(opds: seq<Ty>, id: nat)
    ensures ConvertInstr(InLoop(opds, id), Const(I(0))) == Ok(InLoop(opds + [I32], id), [MConst(I(0))])
  {
    hide Convert1, InStep, After;
    LoopInStep(opds, id);
    ConstLeaf(InLoop(opds, id), LoopCtx(AllLoops), opds, I(0));
  }

  lemma GetInLoop(opds: seq<Ty>, id: nat, x: nat)
    requires x < 2
    ensures ConvertInstr(InLoop(opds, id), GetLocal(x)) == Ok(InLoop(opds + [I32], id), [MPick(|opds| + 1 - x)])
  {
    hide Convert1, InStep, After;
    LoopInStep(opds, id);
    GetLocalLeaf(InLoop(opds, id), LoopCtx(AllLoops), opds, x);
  }

  lemma SetInLoop()
    ensures ConvertInstr(InLoop([I32, I32, I32], 2), SetLocal(1)) ==
            Ok(InLoop([I32, I32], 2), [MSwap(3), MDrop(Range(0, 0))])
  {
    hide Convert1, InStep, After;
    LoopInStep([I32, I32, I32], 2);
    assert [I32, I32, I32][2..] == [I32];
    SetLocalLeaf(InLoop([I32, I32, I32], 2), LoopCtx(AllLoops), [I32, I32, I32], 1);
    assert PopTop([I32, I32, I32], 1) == [I32, I32];
  }

  lemma BackBranch()
    ensures LiveBrIf(InLoop([I32], 2), 0) == Ok(InLoop([I32], 3), Stream()[9..12])
  {
    var h, n := Name(1, Header), Name(2, Header);
    assert Stream()[9..12] == [BlockDecl([I32, I32, I32], n), MBrIf(TargetDrop(To(h), None), TargetDrop(To(n),
      None)), MLabel(n)];
    var c := InLoop([I32], 2);
    assert c.stack == [I32, I32, I32];
    assert MarkNth(c.frames, 0) == c.frames;
  }

  lemma BrIfEmitted()
    ensures ConvertInstr(InLoop([I32, I32], 2), BrIf(0)) == Ok(InLoop([I32], 3), Stream()[9..12])
  {
    hide Stream, LiveBrIf, Convert1, InStep, After;
    LoopInStep([I32, I32], 2);
    assert PopTop([I32, I32], 1) == [I32];
    BrIfLeaf(InLoop([I32, I32], 2), LoopCtx(AllLoops), [I32, I32], 0);
    assert Popped1(InLoop([I32, I32], 2), LoopCtx(AllLoops), [I32, I32]) == InLoop([I32], 2);
    BackBranch();
  }

  lemma BackEmitted()
    ensures ConvertCode(InLoop([I32], 3), LoopTail()) == Ok(InLoop([I32], 3), Stream()[12..14])
  {
    DropInLoop();
    GetInLoop([], 3, 0);
    assert [] + [I32] == [I32];
    hide ConvertInstr;
    assert ConvertCode(InLoop([I32], 3), Nil) == Ok(InLoop([I32], 3), []);
    assert ConvertCode(InLoop([], 3), Cons(GetLocal(0), Nil)) == Ok(InLoop([I32], 3), [MPick(1)] + []);
    assert ConvertCode(InLoop([I32], 3), LoopTail()) == Ok(InLoop([I32], 3), [MDrop(Range(0, 0))] + ([MPick(1)] + []));
  }

  lemma DropInLoop()
    ensures ConvertInstr(InLoop([I32], 3), Instr.Drop) == Ok(InLoop([], 3), [MDrop(Range(0, 0))])
  {
    LoopInStep([I32], 3);
    DropLeaf(InLoop([I32], 3), LoopCtx(AllLoops), [I32]);
    assert PopTop([I32], 1) == [];
  }

  lemma BodyEmitted()
    ensures ConvertCode(InLoop([], 2), LoopBody()) == Ok(InLoop([I32], 3), Stream()[4..14])
  {
    FrontEmitted();
    BrIfEmitted();
    BackEmitted();
    hide ConvertInstr;
    var t4 := Cons(BrIf(0), LoopTail());
    assert ConvertCode(InLoop([I32, I32], 2), t4) == Ok(InLoop([I32], 3), Stream()[9..12] + Stream()[12..14]);
    var t3 := Cons(SetLocal(1), t4);
    assert ConvertCode(InLoop([I32, I32, I32], 2), t3) ==
           Ok(InLoop([I32], 3), [MSwap(3), MDrop(Range(0, 0))] + (Stream()[9..12] + Stream()[12..14]));
    var t2 := Cons(Const(I(0)), t3);
    assert ConvertCode(InLoop([I32, I32], 2), t2) == Ok(InLoop([I32], 3), Stream()[6..14]);
    var t1 := Cons(GetLocal(1), t2);
    assert ConvertCode(InLoop([I32], 2), t1) == Ok(InLoop([I32], 3), Stream()[5..14]);
  }

  lemma Emitted()
    ensures Compile(Miscompiled()) == Some(Prog(Stream(), [I32]))
  {
    hide ConvertInstr, ConvertAll, Convert1, InStep;
    var f := Miscompiled();
    CompileAgrees(f);
    assert f.params + f.locals == [I32, I32];
    var c0 := Conv([I32, I32], [Frame(0, 2, [I32], FunctionKind)], 1, None, false);
    assert Init(f) == c0;
    OpenEmitted(c0);
    BodyEmitted();
    var c3 := Conv([I32, I32, I32], [Frame(0, 2, [I32], FunctionKind)], 3, None, false);
    EndsEmitted(c3);
    LoopEmitted(c0, c3);
    assert ConvertCode(c0, f.body) == Ok(c3, Stream()[..14] + []);
    assert Stream() == Stream()[..14] + [] + [MBr(ToReturn)];
    assert LocalConsts(f.locals) + Stream() == Stream();
  }

  lemma OpenEmitted(c0: Conv)
    requires c0 == Conv([I32, I32], [Frame(0, 2, [I32], FunctionKind)], 1, None, false)
    ensures Convert1(c0, OpLoop(Single(I32))) == Ok(InLoop([], 2), Stream()[..4])
  {
    var h, e := Name(1, Header), Name(1, End);
    ApplyNothing(c0.stack);
    assert c0.(stack := c0.stack) == c0;
    assert Convert1(c0, OpLoop(Single(I32))) == OpenLoop(c0, Single(I32));
    assert c0.stack + [I32] == [I32, I32, I32];
    assert Stream()[..4] == [LoopDecl([I32, I32], h), EndDecl([I32, I32, I32], e), MBr(To(h)), MLabel(h)];
  }

  lemma LoopEmitted(c0: Conv, c3: Conv)
    requires Convert1(c0, OpLoop(Single(I32))) == Ok(InLoop([], 2), Stream()[..4])
    requires ConvertCode(InLoop([], 2), LoopBody()) == Ok(InLoop([I32], 3), Stream()[4..14])
    requires Convert1(InLoop([I32], 3), OpEnd) == Ok(c3, [])
    ensures ConvertInstr(c0, Loop(Single(I32), LoopBody())) == Ok(c3, Stream()[..14])
  {
    hide ConvertCode, Convert1;
    assert Stream()[..4] + Stream()[4..14] + [] == Stream()[..14];
  }

  lemma EndsEmitted(c3: Conv)
    requires c3 == Conv([I32, I32, I32], [Frame(0, 2, [I32], FunctionKind)], 3, None, false)
    ensures Convert1(InLoop([I32], 3), OpEnd) == Ok(c3, [])
    ensures Convert1(c3, OpEnd).Ok? && Convert1(c3, OpEnd).out == [MBr(ToReturn)]
  {
    var c := InLoop([I32], 3);
    ApplyNothing(c.stack);
    assert c.stack == [I32, I32, I32];
    assert c.(stack := c.stack) == c;
    assert Truncate(c.stack, 2) + [I32] == [I32, I32, I32];
    ApplyNothing(c3.stack);
    assert c3.(stack := c3.stack) == c3;
  }

  // ---------------------------------------------------------------- what the stream does

  function P(): Prog {
    Prog(Stream(), [I32])
  }

  lemma Found()
    ensures FindLabel(Stream(), Name(1, Header)) == 3 && FindDecl(Stream(), Name(1, Header)) == 0
    ensures FindLabel(Stream(), Name(2, Header)) == 11 && FindDecl(Stream(), Name(2, Header)) == 9
  {
    hide FindLabel, FindDecl;
    FirstLabel(Stream(), Name(1, Header), 3);
    FirstDecl(Stream(), Name(1, Header), 0);
    FirstLabel(Stream(), Name(2, Header), 11);
    FirstDecl(Stream(), Name(2, Header), 9);
  }

  /** One pass from the header: the branch back keeps the top two entries, not the two locals. */
  lemma Pass(sem: Semantics, store: Store, x: nat, c: nat)
    ensures Steps(sem, P(), 7, Running(4, [I(x), I(c)], store)) ==
            if c != 0 then Running(4, [I(0), I(0)], store) else Running(12, [I(x), I(0), I(0)], store)
  {
    hide Steps;
    var s0 := Running(4, [I(x), I(c)], store);
    var s1 := Step(sem, P(), s0);
    assert s1 == Running(5, [I(x), I(c), I(0)], store);
    var s2 := Step(sem, P(), s1);
    assert s2 == Running(6, [I(x), I(c), I(0), I(c)], store);
    var s3 := Step(sem, P(), s2);
    assert s3 == Running(7, [I(x), I(c), I(0), I(c), I(0)], store);
    var s4 := Step(sem, P(), s3);
    assert s4 == Running(8, [I(x), I(0), I(0), I(c), I(c)], store);
    var s5 := Step(sem, P(), s4);
    assert s5 == Running(9, [I(x), I(0), I(0), I(c)], store);
    var s6 := Step(sem, P(), s5);
    assert s6 == Running(10, [I(x), I(0), I(0), I(c)], store);
    PassBranch(sem, store, x, c);
    Seven(sem, s0);
  }

  lemma Seven(sem: Semantics, s: State)
    ensures Steps(sem, P(), 7, s) ==
            Step(sem, P(), Step(sem, P(), Step(sem, P(), Step(sem, P(), Step(sem, P(), Step(sem, P(), Step(sem, P(),
              s)))))))
  {
    hide Step;
    StepsAdd(sem, P(), 1, 6, s);
    StepsAdd(sem, P(), 2, 5, s);
    StepsAdd(sem, P(), 3, 4, s);
    StepsAdd(sem, P(), 4, 3, s);
    StepsAdd(sem, P(), 5, 2, s);
    StepsAdd(sem, P(), 6, 1, s);
    forall t: State
      ensures Steps(sem, P(), 1, t) == Step(sem, P(), t)
    {
      assert Steps(sem, P(), 0, Step(sem, P(), t)) == Step(sem, P(), t);
    }
    var s1 := Step(sem, P(), s);
    var s2 := Step(sem, P(), s1);
    StepsAdd(sem, P(), 1, 1, s);
    assert Steps(sem, P(), 2, s) == s2;
    StepsAdd(sem, P(), 2, 1, s);
    StepsAdd(sem, P(), 3, 1, s);
    StepsAdd(sem, P(), 4, 1, s);
    StepsAdd(sem, P(), 5, 1, s);
  }

  /** A jump, given where its label and its declaration are. */
  lemma Jumps(p: Prog, name: Name, i: nat, d: nat, stack: seq<Val>, store: Store)
    requires FindLabel(p.ops, name) == i < |p.ops| && FindDecl(p.ops, name) == d < |p.ops|
    requires |p.ops[d].params| <= |stack| && TypesOf(Top(stack, |p.ops[d].params|)) == p.ops[d].params
    ensures Jump(p, To(name), stack, store) == Running(i + 1, Top(stack, |p.ops[d].params|), store)
  {
  }

  lemma PassBranch(sem: Semantics, store: Store, x: nat, c: nat)
    ensures Step(sem, P(), Running(10, [I(x), I(0), I(0), I(c)], store)) ==
            if c != 0 then Running(4, [I(0), I(0)], store) else Running(12, [I(x), I(0), I(0)], store)
  {
    hide FindLabel, FindDecl, Jump;
    Found();
    var s := [I(x), I(0), I(0)];
    assert [I(x), I(0), I(0), I(c)][..3] == s;
    assert Top(s, 2) == [I(0), I(0)] && Top(s, 3) == s;
    assert TypesOf([I(0), I(0)]) == [I32, I32] && TypesOf(s) == [I32, I32, I32];
    Jumps(P(), Name(1, Header), 3, 0, s, store);
    Jumps(P(), Name(2, Header), 11, 9, s, store);
  }

  lemma Entry(sem: Semantics, store: Store)
    ensures Steps(sem, P(), 3, Running(0, [I(7), I(1)], store)) == Running(4, [I(7), I(1)], store)
  {
    hide FindLabel, FindDecl, Jump, Steps, Step;
    Found();
    assert TypesOf([I(7), I(1)]) == [I32, I32];
    LoopEntry(FuncEnv(sem, Miscompiled(), P()), Name(1, Header), 0, [I(7), I(1)], store);
  }

  lemma StreamReturns(sem: Semantics, store: Store)
    ensures MicrowasmGives(sem, P(), [I(7), I(1)], store, Outcome.Return([I(0)], store))
  {
    hide Steps, Step;
    var s0 := Running(0, [I(7), I(1)], store);
    Entry(sem, store);
    Pass(sem, store, 7, 1);
    StepsAdd(sem, P(), 3, 7, s0);
    Pass(sem, store, 0, 0);
    StepsAdd(sem, P(), 10, 7, s0);
    LastSteps(sem, store);
    StepsAdd(sem, P(), 17, 3, s0);
    assert Steps(sem, P(), 20, s0) == Done(Outcome.Return([I(0)], store));
  }

  lemma LastSteps(sem: Semantics, store: Store)
    ensures Steps(sem, P(), 3, Running(12, [I(0), I(0), I(0)], store)) == Done(Outcome.Return([I(0)], store))
  {
    assert DropRange([I(0), I(0), I(0)], 0, 0) == [I(0), I(0)];
    assert Step(sem, P(), Running(12, [I(0), I(0), I(0)], store)) == Running(13, [I(0), I(0)], store);
    assert Step(sem, P(), Running(13, [I(0), I(0)], store)) == Running(14, [I(0), I(0), I(0)], store);
    assert Top([I(0), I(0), I(0)], 1) == [I(0)];
    assert TypesOf([I(0)]) == [I32];
    var d := Done(Outcome.Return([I(0)], store));
    assert Step(sem, P(), Running(14, [I(0), I(0), I(0)], store)) == d;
    assert Steps(sem, P(), 0, d) == d;
    assert Steps(sem, P(), 1, Running(14, [I(0), I(0), I(0)], store)) == d;
  }

  /** A valid body for which source and stream disagree: 7 against 0. */
  lemma LoopResultMiscompiled(sem: Semantics, store: Store)
    ensures var f, args := Miscompiled(), [I(7), I(1)];
            && ValidFunc(f, AllLoops) && !ValidFunc(f, SafeLoops)
            && WasmGives(sem, f, args, store, Outcome.Return([I(7)], store))
            && Compile(f).Some?
            && MicrowasmGives(sem, Compile(f).value, args, store, Outcome.Return([I(0)], store))
  {
    MiscompiledIsValid();
    SourceReturns(sem, store);
    Emitted();
    StreamReturns(sem, store);
  }
}
