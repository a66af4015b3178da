/** The source language: structured WebAssembly function bodies as `MicrowasmConv` reads them.

    Value types, the instruction tree, its flattening to the operator stream of the reader,
    the validation algorithm of section 3.3.5 (and its appendix form with an operand stack and
    label heights), and a fuel-indexed big-step semantics of section 4.4.5 of the WebAssembly
    Core Specification 1.0.  Arithmetic, memory and calls are one family of plain operators
    whose meaning is a parameter shared by the source and the target machine. */
module Wasm {

  datatype Ty = I32 | I64 | F32 | F64

  /** A value is its type and its bit pattern read as an unsigned number. */
  datatype Val = Val(ty: Ty, bits: nat)

  /** Declared locals start as zero of their type (section 4.4.7). */
  function Zeros(ts: seq<Ty>): (vs: seq<Val>)
    ensures |vs| == |ts| && forall i :: 0 <= i < |ts| ==> vs[i] == Val(ts[i], 0)
  {
    seq(|ts|, i requires 0 <= i < |ts| => Val(ts[i], 0))
  }

  function TypesOf(vs: seq<Val>): (ts: seq<Ty>)
    ensures |ts| == |vs| && forall i :: 0 <= i < |vs| ==> ts[i] == vs[i].ty
  {
    seq(|vs|, i requires 0 <= i < |vs| => vs[i].ty)
  }

  /** Everything outside the locals and the operand stack. */
  datatype Store = Store(globals: map<nat, Val>, memory: map<nat, nat>)

  /** An operator without control flow: arithmetic, comparison, conversion, memory, global, call. */
  datatype PlainOp = PlainOp(code: nat, inputs: seq<Ty>, outputs: seq<Ty>)

  datatype PlainResult = Fault | Next(store: Store, vals: seq<Val>)

  type Semantics = (PlainOp, Store, seq<Val>) -> PlainResult

  /** A plain operator that does not produce its declared result types faults. */
  function RunPlain(sem: Semantics, op: PlainOp, store: Store, args: seq<Val>): (r: PlainResult)
    ensures r.Next? <==> sem(op, store, args).Next? && TypesOf(sem(op, store, args).vals) == op.outputs
    ensures r.Next? ==> r == sem(op, store, args)
  {
    var r := sem(op, store, args);
    if r.Next? && TypesOf(r.vals) == op.outputs then r else Fault
  }

  /** A block type of the MVP: no result or one. */
  datatype BlockType = Empty | Single(ty: Ty)

  /** `create_returns_from_wasm_type`. */
  function Rets(bt: BlockType): seq<Ty> {
    match bt
    case Empty => []
    case Single(ty) => [ty]
  }

  datatype Instr =
    | Unreachable
    | Nop
    | Block(bt: BlockType, body: Code)
    | Loop(bt: BlockType, body: Code)
    | IfThen(bt: BlockType, thn: Code)
    | IfElse(bt: BlockType, thn: Code, els: Code)
    | Br(depth: nat)
    | BrIf(depth: nat)
    | BrTable(depths: seq<nat>, default: nat)
    | Return
    | Drop
    | Select
    | GetLocal(idx: nat)
    | SetLocal(idx: nat)
    | TeeLocal(idx: nat)
    | Const(v: Val)
    | Plain(op: PlainOp)

  datatype Code = Nil | Cons(head: Instr, tail: Code)

  datatype Func = Func(params: seq<Ty>, locals: seq<Ty>, results: seq<Ty>, body: Code)

  // ---------------------------------------------------------------- flat operators

  /** The operators the reader yields, one at a time. */
  datatype WasmOp =
    | OpUnreachable
    | OpNop
    | OpBlock(bt: BlockType)
    | OpLoop(bt: BlockType)
    | OpIf(bt: BlockType)
    | OpElse
    | OpEnd
    | OpBr(depth: nat)
    | OpBrIf(depth: nat)
    | OpBrTable(depths: seq<nat>, default: nat)
    | OpReturn
    | OpDrop
    | OpSelect
    | OpGetLocal(idx: nat)
    | OpSetLocal(idx: nat)
    | OpTeeLocal(idx: nat)
    | OpConst(v: Val)
    | OpPlain(op: PlainOp)

  function FlattenInstr(i: Instr): seq<WasmOp>
    decreases i
  {
    match i
    case Unreachable => [OpUnreachable]
    case Nop => [OpNop]
    case Block(bt, body) => [OpBlock(bt)] + Flatten(body) + [OpEnd]
    case Loop(bt, body) => [OpLoop(bt)] + Flatten(body) + [OpEnd]
    case IfThen(bt, thn) => [OpIf(bt)] + Flatten(thn) + [OpEnd]
    case IfElse(bt, thn, els) => [OpIf(bt)] + Flatten(thn) + [OpElse] + Flatten(els) + [OpEnd]
    case Br(d) => [OpBr(d)]
    case BrIf(d) => [OpBrIf(d)]
    case BrTable(ds, d) => [OpBrTable(ds, d)]
    case Return => [OpReturn]
    case Drop => [OpDrop]
    case Select => [OpSelect]
    case GetLocal(x) => [OpGetLocal(x)]
    case SetLocal(x) => [OpSetLocal(x)]
    case TeeLocal(x) => [OpTeeLocal(x)]
    case Const(v) => [OpConst(v)]
    case Plain(op) => [OpPlain(op)]
  }

  function Flatten(code: Code): seq<WasmOp>
    decreases code
  {
    match code
    case Nil => []
    case Cons(i, rest) => FlattenInstr(i) + Flatten(rest)
  }

  // ---------------------------------------------------------------- validation

  /** A label: its kind, the results of its block and the operand height at its entry. */
  datatype Lab = Lab(isLoop: bool, rets: seq<Ty>, height: nat) {
    /** What a branch to the label carries: a loop label takes nothing in the MVP. */
    function Types(): seq<Ty> {
      if isLoop then [] else rets
    }
  }

  /** Which branches to a loop that has a result are accepted: all of them, as the standard has it;
      only those that arrive with the right values, because no operand lies above the loop's entry
      height or nothing at all lies below it; only the former of these. */
  datatype LoopRule = AllLoops | SafeLoops | ExactLoops

  /** Locals, and the labels in scope with the innermost last; label 0 is the function body. */
  datatype Ctx = Ctx(locals: seq<Ty>, labels: seq<Lab>, rule: LoopRule) {
    ghost predicate Wf() {
      |labels| > 0
    }
    function Base(): nat
      requires |labels| > 0
    {
      labels[|labels| - 1].height
    }
    function Push(l: Lab): Ctx {
      this.(labels := labels + [l])
    }
  }

  datatype Checked = Live(opds: seq<Ty>) | Dead | Invalid

  /** The operands `ts` are on top of the stack and belong to the current block. */
  predicate HasTop(base: nat, opds: seq<Ty>, ts: seq<Ty>) {
    |opds| >= base + |ts| && opds[|opds| - |ts|..] == ts
  }

  function PopTop(opds: seq<Ty>, n: nat): seq<Ty>
    requires n <= |opds|
  {
    opds[..|opds| - n]
  }

  predicate LoopAccepted(rule: LoopRule, operands: nat, locals: nat, height: nat) {
    match rule
    case AllLoops => true
    case SafeLoops => operands == height || locals + height == 0
    case ExactLoops => operands == height
  }

  predicate BranchOk(ctx: Ctx, depth: nat, opds: seq<Ty>)
    requires |ctx.labels| > 0
  {
    && depth < |ctx.labels|
    && var l := ctx.labels[|ctx.labels| - 1 - depth];
       && HasTop(ctx.Base(), opds, l.Types())
       && (l.isLoop && l.rets != [] ==> LoopAccepted(ctx.rule, |opds|, |ctx.locals|, l.height))
  }

  /** A block body may end with exactly the block's results, or not reach its end. */
  predicate EndsWith(r: Checked, opds: seq<Ty>) {
    r.Dead? || r == Live(opds)
  }

  function Reversed<T>(s: seq<T>): (r: seq<T>)
    ensures |r| == |s| && forall i :: 0 <= i < |s| ==> r[i] == s[|s| - 1 - i]
  {
    seq(|s|, i requires 0 <= i < |s| => s[|s| - 1 - i])
  }

  function CheckInstr(ctx: Ctx, i: Instr, opds: seq<Ty>): Checked
    requires ctx.Wf()
    decreases i
  {
    var base := ctx.Base();
    match i
    case Unreachable => Dead
    case Nop => Live(opds)
    case Block(bt, body) =>
      var r := CheckCode(ctx.Push(Lab(false, Rets(bt), |opds|)), body, opds);
      if EndsWith(r, opds + Rets(bt)) then Live(opds + Rets(bt)) else Invalid
    case Loop(bt, body) =>
      var r := CheckCode(ctx.Push(Lab(true, Rets(bt), |opds|)), body, opds);
      if EndsWith(r, opds + Rets(bt)) then Live(opds + Rets(bt)) else Invalid
    case IfThen(bt, thn) =>
      if !HasTop(base, opds, [I32]) || bt != Empty then Invalid else
      var o := PopTop(opds, 1);
      var r := CheckCode(ctx.Push(Lab(false, Rets(bt), |o|)), thn, o);
      if EndsWith(r, o + Rets(bt)) then Live(o + Rets(bt)) else Invalid
    case IfElse(bt, thn, els) =>
      if !HasTop(base, opds, [I32]) then Invalid else
      var o := PopTop(opds, 1);
      var inner := ctx.Push(Lab(false, Rets(bt), |o|));
      var r0 := CheckCode(inner, thn, o);
      var r1 := CheckCode(inner, els, o);
      if EndsWith(r0, o + Rets(bt)) && EndsWith(r1, o + Rets(bt)) then Live(o + Rets(bt)) else Invalid
    case Br(d) =>
      if BranchOk(ctx, d, opds) then Dead else Invalid
    case BrIf(d) =>
      if HasTop(base, opds, [I32]) && BranchOk(ctx, d, PopTop(opds, 1)) then Live(PopTop(opds, 1)) else Invalid
    case BrTable(ds, d) =>
      if HasTop(base, opds, [I32]) && BranchOk(ctx, d, PopTop(opds, 1))
         && (forall n :: 0 <= n < |ds| ==> BranchOk(ctx, ds[n], PopTop(opds, 1)))
      then Dead else Invalid
    case Return =>
      if HasTop(base, opds, ctx.labels[0].rets) then Dead else Invalid
    case Drop =>
      if |opds| > base then Live(PopTop(opds, 1)) else Invalid
    case Select =>
      if |opds| >= base + 3 && opds[|opds| - 1] == I32 && opds[|opds| - 2] == opds[|opds| - 3]
      then Live(PopTop(opds, 2)) else Invalid
    case GetLocal(x) =>
      if x < |ctx.locals| then Live(opds + [ctx.locals[x]]) else Invalid
    case SetLocal(x) =>
      if x < |ctx.locals| && HasTop(base, opds, [ctx.locals[x]]) then Live(PopTop(opds, 1)) else Invalid
    case TeeLocal(x) =>
      if x < |ctx.locals| && HasTop(base, opds, [ctx.locals[x]]) then Live(opds) else Invalid
    case Const(v) => Live(opds + [v.ty])
    case Plain(op) =>
      if HasTop(base, opds, op.inputs) && |op.outputs| <= 1
      then Live(PopTop(opds, |op.inputs|) + op.outputs) else Invalid
  }

  /** Code after a point that cannot be reached is not looked at: this accepts at least
      what the stack-polymorphic rules of the standard accept. */
  function CheckCode(ctx: Ctx, code: Code, opds: seq<Ty>): Checked
    requires ctx.Wf()
    decreases code
  {
    match code
    case Nil => Live(opds)
    case Cons(i, rest) =>
      match CheckInstr(ctx, i, opds)
      case Live(o) => CheckCode(ctx, rest, o)
      case Dead => Dead
      case Invalid => Invalid
  }

  function FuncCtx(f: Func, rule: LoopRule): Ctx {
    Ctx(f.params + f.locals, [Lab(false, f.results, 0)], rule)
  }

  predicate ValidFunc(f: Func, rule: LoopRule) {
    EndsWith(CheckCode(FuncCtx(f, rule), f.body, []), f.results)
  }

  // ---------------------------------------------------------------- execution

  datatype Result =
    | Normal(locals: seq<Val>, vals: seq<Val>, store: Store)
    | Branch(depth: nat, locals: seq<Val>, vals: seq<Val>, store: Store)
    | Returned(vals: seq<Val>, store: Store)
    | Trapped
    | Timeout
    | Wrong

  function Top(vs: seq<Val>, n: nat): seq<Val>
    requires n <= |vs|
  {
    vs[|vs| - n..]
  }

  /** Leaving a block whose label is an exit: its own branch and its end continue after it. */
  function LeaveBlock(r: Result, vs: seq<Val>): Result {
    match r
    case Normal(l, rs, s) => Normal(l, vs + rs, s)
    case Branch(d, l, rs, s) => if d == 0 then Normal(l, vs + rs, s) else Branch(d - 1, l, rs, s)
    case _ => r
  }

  function ExecBr(arities: seq<nat>, depth: nat, locals: seq<Val>, vs: seq<Val>, store: Store): Result {
    if depth < |arities| && arities[|arities| - 1 - depth] <= |vs|
    then Branch(depth, locals, Top(vs, arities[|arities| - 1 - depth]), store)
    else Wrong
  }

  /** `arities` holds the number of values each label in scope takes, innermost last.
      `vs` is the operand stack of the current block only.  Each return to a loop header
      costs one unit of fuel. */
  function ExecInstr(sem: Semantics, arities: seq<nat>, i: Instr, fuel: nat,
                     locals: seq<Val>, vs: seq<Val>, store: Store): Result
    decreases fuel, i
  {
    match i
    case Unreachable => Trapped
    case Nop => Normal(locals, vs, store)
    case Block(bt, body) =>
      LeaveBlock(ExecCode(sem, arities + [|Rets(bt)|], body, fuel, locals, [], store), vs)
    case Loop(bt, body) =>
      var r := ExecCode(sem, arities + [0], body, fuel, locals, [], store);
      if r.Branch? && r.depth == 0 then
        if fuel == 0 then Timeout else ExecInstr(sem, arities, i, fuel - 1, r.locals, vs, r.store)
      else LeaveBlock(r, vs)
    case IfThen(bt, thn) =>
      if vs == [] then Wrong else
      var rest := vs[..|vs| - 1];
      if vs[|vs| - 1].bits != 0
      then LeaveBlock(ExecCode(sem, arities + [|Rets(bt)|], thn, fuel, locals, [], store), rest)
      else Normal(locals, rest, store)
    case IfElse(bt, thn, els) =>
      if vs == [] then Wrong else
      var rest := vs[..|vs| - 1];
      LeaveBlock(ExecCode(sem, arities + [|Rets(bt)|], if vs[|vs| - 1].bits != 0 then thn else els,
                          fuel, locals, [], store), rest)
    case Br(d) => ExecBr(arities, d, locals, vs, store)
    case BrIf(d) =>
      if vs == [] then Wrong else
      var rest := vs[..|vs| - 1];
      if vs[|vs| - 1].bits != 0 then ExecBr(arities, d, locals, rest, store) else Normal(locals, rest, store)
    case BrTable(ds, d) =>
      if vs == [] then Wrong else
      var n := vs[|vs| - 1].bits;
      ExecBr(arities, if n < |ds| then ds[n] else d, locals, vs[..|vs| - 1], store)
    case Return =>
      if |arities| > 0 && arities[0] <= |vs| then Returned(Top(vs, arities[0]), store) else Wrong
    case Drop =>
      if vs == [] then Wrong else Normal(locals, vs[..|vs| - 1], store)
    case Select =>
      if |vs| < 3 then Wrong else
      Normal(locals, vs[..|vs| - 3] + [if vs[|vs| - 1].bits != 0 then vs[|vs| - 3] else vs[|vs| - 2]], store)
    case GetLocal(x) =>
      if x < |locals| then Normal(locals, vs + [locals[x]], store) else Wrong
    case SetLocal(x) =>
      if x < |locals| && vs != [] then Normal(locals[x := vs[|vs| - 1]], vs[..|vs| - 1], store) else Wrong
    case TeeLocal(x) =>
      if x < |locals| && vs != [] then Normal(locals[x := vs[|vs| - 1]], vs, store) else Wrong
    case Const(v) => Normal(locals, vs + [v], store)
    case Plain(op) =>
      if |op.inputs| > |vs| then Wrong else
      match RunPlain(sem, op, store, Top(vs, |op.inputs|))
      case Fault => Trapped
      case Next(s, rs) => Normal(locals, vs[..|vs| - |op.inputs|] + rs, s)
  }

  function ExecCode(sem: Semantics, arities: seq<nat>, code: Code, fuel: nat,
                    locals: seq<Val>, vs: seq<Val>, store: Store): Result
    decreases fuel, code
  {
    match code
    case Nil => Normal(locals, vs, store)
    case Cons(i, rest) =>
      var r := ExecInstr(sem, arities, i, fuel, locals, vs, store);
      if r.Normal? then ExecCode(sem, arities, rest, fuel, r.locals, r.vals, r.store) else r
  }

  datatype Outcome = Return(vals: seq<Val>, store: Store) | Trap | Stuck

  datatype Verdict = Finished(o: Outcome) | OutOfFuel

  /** Falling off the end of the body and branching to its label both return. */
  function ExecFunc(sem: Semantics, f: Func, args: seq<Val>, store: Store, fuel: nat): Verdict {
    match ExecCode(sem, [|f.results|], f.body, fuel, args + Zeros(f.locals), [], store)
    case Normal(_, vs, s) => Finished(Outcome.Return(vs, s))
    case Branch(_, _, vs, s) => Finished(Outcome.Return(vs, s))
    case Returned(vs, s) => Finished(Outcome.Return(vs, s))
    case Trapped => Finished(Trap)
    case Timeout => OutOfFuel
    case Wrong => Finished(Stuck)
  }
}
