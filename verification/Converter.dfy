/** `MicrowasmConv` as a transition function on values: one Wasm operator in, a chunk of
    Microwasm operators out.  The imperative iterator is in MicrowasmConv.dfy. */
module Converter {
  import opened Wasm
  import opened Microwasm

  datatype Kind = BlockKind(needsEndLabel: bool) | FunctionKind | LoopKind | IfKind(hasElse: bool)

  /** `ControlFrame`. */
  datatype Frame = Frame(id: nat, arguments: nat, results: seq<Ty>, kind: Kind) {
    predicate NeedsEndLabel() {
      match kind
      case BlockKind(n) => n
      case IfKind(_) => true
      case LoopKind => false
      case FunctionKind => false
    }

    function Marked(): Frame {
      if kind.BlockKind? then this.(kind := BlockKind(true)) else this
    }

    function BrTarget(): Target {
      match kind
      case LoopKind => To(Name(id, Header))
      case FunctionKind => ToReturn
      case _ => To(Name(id, End))
    }
  }

  // ---------------------------------------------------------------- signatures

  datatype SigT = T | Concrete(ty: Ty)

  datatype Sig = Sig(input: seq<SigT>, output: seq<SigT>)

  function Concretes(ts: seq<Ty>): (r: seq<SigT>)
    ensures |r| == |ts| && forall i :: 0 <= i < |ts| ==> r[i] == Concrete(ts[i])
  {
    seq(|ts|, i requires 0 <= i < |ts| => Concrete(ts[i]))
  }

  datatype Popped = Popped(stack: seq<Ty>, param: Option<Ty>)

  /** The first loop of `apply_op`: inputs are popped last first, and every `T` is one type.
      None is the panic on an empty stack or a mismatched type. */
  function PopInputs(stack: seq<Ty>, input: seq<SigT>, param: Option<Ty>): Option<Popped>
    decreases |input|
  {
    if input == [] then Some(Popped(stack, param))
    else if stack == [] then None
    else
      var top := stack[|stack| - 1];
      match input[|input| - 1]
      case Concrete(ty) =>
        if ty == top then PopInputs(stack[..|stack| - 1], input[..|input| - 1], param) else None
      case T =>
        if param == None || param == Some(top)
        then PopInputs(stack[..|stack| - 1], input[..|input| - 1], Some(top)) else None
  }

  /** The second loop of `apply_op`: outputs are pushed last first. */
  function PushOutputs(stack: seq<Ty>, output: seq<SigT>, param: Option<Ty>): Option<seq<Ty>>
    decreases |output|
  {
    if output == [] then Some(stack)
    else
      match output[|output| - 1]
      case Concrete(ty) => PushOutputs(stack + [ty], output[..|output| - 1], param)
      case T => if param == None then None else PushOutputs(stack + [param.value], output[..|output| - 1], param)
  }

  function ApplySig(stack: seq<Ty>, sig: Sig): Option<seq<Ty>> {
    match PopInputs(stack, sig.input, None)
    case None => None
    case Some(p) => PushOutputs(p.stack, sig.output, p.param)
  }

  /** `op_sig`: None is the panic of an out-of-range local. */
  function OpSig(stack: seq<Ty>, op: WasmOp): Option<Sig> {
    match op
    case OpIf(_) => Some(Sig([Concrete(I32)], []))
    case OpBrIf(_) => Some(Sig([Concrete(I32)], []))
    case OpBrTable(_, _) => Some(Sig([Concrete(I32)], []))
    case OpDrop => Some(Sig([T], []))
    case OpSelect => Some(Sig([T, T, Concrete(I32)], [T]))
    case OpGetLocal(x) => if x < |stack| then Some(Sig([], [Concrete(stack[x])])) else None
    case OpSetLocal(x) => if x < |stack| then Some(Sig([Concrete(stack[x])], [])) else None
    case OpTeeLocal(x) => if x < |stack| then Some(Sig([Concrete(stack[x])], [Concrete(stack[x])])) else None
    case OpConst(v) => Some(Sig([], [Concrete(v.ty)]))
    case OpPlain(p) => Some(Sig(Concretes(p.inputs), Concretes(p.outputs)))
    case _ => Some(Sig([], []))
  }

  function ApplyOp(stack: seq<Ty>, op: WasmOp): Option<seq<Ty>> {
    match OpSig(stack, op)
    case None => None
    case Some(sig) => ApplySig(stack, sig)
  }

  // ---------------------------------------------------------------- state

  /** `skip` is the nesting depth inside skipped dead code, None when code is live. */
  datatype Conv = Conv(stack: seq<Ty>, frames: seq<Frame>, nextId: nat, skip: Option<nat>, done: bool)

  datatype Emit = Panic | Ok(conv: Conv, out: seq<Op>)

  /** `nth_block`: depth 0 is the innermost frame. */
  function Nth(frames: seq<Frame>, depth: nat): Frame
    requires depth < |frames|
  {
    frames[|frames| - 1 - depth]
  }

  function MarkNth(frames: seq<Frame>, depth: nat): (r: seq<Frame>)
    requires depth < |frames|
    ensures |r| == |frames|
  {
    frames[|frames| - 1 - depth := Nth(frames, depth).Marked()]
  }

  function MarkAll(frames: seq<Frame>, depths: seq<nat>): (r: seq<Frame>)
    requires forall i :: 0 <= i < |depths| ==> depths[i] < |frames|
    ensures |r| == |frames|
    decreases |depths|
  {
    if depths == [] then frames else MarkAll(MarkNth(frames, depths[0]), depths[1..])
  }

  /** The `to_drop!` macro with its two checked subtractions. */
  function ToDrop(height: nat, f: Frame): Option<Range> {
    if height >= 1 && height - 1 >= f.arguments && |f.results| <= height - 1 - f.arguments
    then Some(Range(|f.results|, height - 1 - f.arguments)) else None
  }

  function DropOps(d: Option<Range>): seq<Op> {
    match d
    case None => []
    case Some(r) => [MDrop(r)]
  }

  function Truncate<A>(s: seq<A>, n: nat): seq<A> {
    if n < |s| then s[..n] else s
  }

  function Targets(height: nat, frames: seq<Frame>, depths: seq<nat>): (r: seq<TargetDrop>)
    requires forall i :: 0 <= i < |depths| ==> depths[i] < |frames|
    ensures |r| == |depths|
    ensures forall i :: 0 <= i < |depths| ==>
      r[i] == TargetDrop(Nth(frames, depths[i]).BrTarget(), ToDrop(height, Nth(frames, depths[i])))
  {
    seq(|depths|, i requires 0 <= i < |depths| =>
      TargetDrop(Nth(frames, depths[i]).BrTarget(), ToDrop(height, Nth(frames, depths[i]))))
  }

  // ---------------------------------------------------------------- live operators

  function OpenBlock(c: Conv, bt: BlockType): Emit {
    Ok(c.(nextId := c.nextId + 1,
          frames := c.frames + [Frame(c.nextId, |c.stack|, Rets(bt), BlockKind(false))]),
       [EndDecl(c.stack + Rets(bt), Name(c.nextId, End))])
  }

  function OpenLoop(c: Conv, bt: BlockType): Emit {
    var header := Name(c.nextId, Header);
    Ok(c.(nextId := c.nextId + 1,
          frames := c.frames + [Frame(c.nextId, |c.stack|, Rets(bt), LoopKind)]),
       [LoopDecl(c.stack, header), EndDecl(c.stack + Rets(bt), Name(c.nextId, End)),
        MBr(To(header)), MLabel(header)])
  }

  function OpenIf(c: Conv, bt: BlockType): Emit {
    var thn, els := Name(c.nextId, Header), Name(c.nextId, Else);
    Ok(c.(nextId := c.nextId + 1,
          frames := c.frames + [Frame(c.nextId, |c.stack|, Rets(bt), IfKind(false))]),
       [BlockDecl(c.stack, thn), BlockDecl(c.stack, els), EndDecl(c.stack + Rets(bt), Name(c.nextId, End)),
        MBrIf(TargetDrop(To(thn), None), TargetDrop(To(els), None)), MLabel(thn)])
  }

  function SetHasElse(f: Frame): Frame {
    if f.kind.IfKind? then f.(kind := IfKind(true)) else f
  }

  function LiveElse(c: Conv): Emit {
    if c.frames == [] then Panic else
    var f := c.frames[|c.frames| - 1];
    Ok(c.(frames := c.frames[|c.frames| - 1 := SetHasElse(f)], stack := Truncate(c.stack, f.arguments)),
       DropOps(ToDrop(|c.stack|, f)) + [MBr(To(Name(f.id, End))), MLabel(Name(f.id, Else))])
  }

  function LiveEnd(c: Conv): Emit {
    if c.frames == [] then Panic else
    var f := c.frames[|c.frames| - 1];
    var d := DropOps(ToDrop(|c.stack|, f));
    var c' := c.(frames := c.frames[..|c.frames| - 1], stack := Truncate(c.stack, f.arguments) + f.results);
    var end := Name(f.id, End);
    if f.kind == IfKind(false) then
      Ok(c', d + [MBr(To(end)), MLabel(Name(f.id, Else)), MBr(To(end)), MLabel(end)])
    else if c'.frames == [] then
      Ok(c'.(done := true), [MBr(ToReturn)])
    else if f.NeedsEndLabel() then
      Ok(c', d + [MBr(To(end)), MLabel(end)])
    else
      Ok(c', d)
  }

  function LiveBr(c: Conv, depth: nat): Emit {
    if depth >= |c.frames| then Panic else
    var f := Nth(c.frames, depth);
    Ok(c.(skip := Some(0), frames := MarkNth(c.frames, depth)),
       DropOps(ToDrop(|c.stack|, f)) + [MBr(f.BrTarget())])
  }

  function LiveBrIf(c: Conv, depth: nat): Emit {
    if depth >= |c.frames| then Panic else
    var f := Nth(c.frames, depth);
    var next := Name(c.nextId, Header);
    Ok(c.(nextId := c.nextId + 1, frames := MarkNth(c.frames, depth)),
       [BlockDecl(c.stack, next),
        MBrIf(TargetDrop(f.BrTarget(), ToDrop(|c.stack|, f)), TargetDrop(To(next), None)),
        MLabel(next)])
  }

  function LiveBrTable(c: Conv, depths: seq<nat>, default: nat): Emit {
    if !(forall i :: 0 <= i < |depths| ==> depths[i] < |c.frames|) || default >= |c.frames| then Panic else
    Ok(c.(skip := Some(0), frames := MarkNth(MarkAll(c.frames, depths), default)),
       [MBrTable(Targets(|c.stack|, c.frames, depths),
                 TargetDrop(Nth(c.frames, default).BrTarget(), ToDrop(|c.stack|, Nth(c.frames, default))))])
  }

  function LiveReturn(c: Conv): Emit {
    if c.frames == [] then Panic else
    Ok(c.(skip := Some(0)), DropOps(ToDrop(|c.stack|, c.frames[0])) + [MBr(c.frames[0].BrTarget())])
  }

  /** `local_depth`, after the operator's stack effect has been applied. */
  function LocalDepth(height: nat, idx: nat): int {
    height - 1 - idx
  }

  function LiveLocal(c: Conv, op: WasmOp): Emit
    requires op.OpGetLocal? || op.OpSetLocal? || op.OpTeeLocal?
  {
    var d := LocalDepth(|c.stack|, op.idx) + (if op.OpGetLocal? then -1 else 1);
    if d < 0 then Panic
    else if op.OpGetLocal? then Ok(c, [MPick(d)])
    else if op.OpSetLocal? then Ok(c, [MSwap(d), MDrop(Range(0, 0))])
    else Ok(c, [MPick(0), MSwap(d), MDrop(Range(0, 0))])
  }

  /** The main match of `next`, on the state whose stack already has the operator applied. */
  function LiveOp(c: Conv, op: WasmOp): Emit {
    match op
    case OpUnreachable => Ok(c.(skip := Some(0)), [MTrap])
    case OpNop => Ok(c, [])
    case OpBlock(bt) => OpenBlock(c, bt)
    case OpLoop(bt) => OpenLoop(c, bt)
    case OpIf(bt) => OpenIf(c, bt)
    case OpElse => LiveElse(c)
    case OpEnd => LiveEnd(c)
    case OpBr(d) => LiveBr(c, d)
    case OpBrIf(d) => LiveBrIf(c, d)
    case OpBrTable(ds, d) => LiveBrTable(c, ds, d)
    case OpReturn => LiveReturn(c)
    case OpDrop => Ok(c, [MDrop(Range(0, 0))])
    case OpSelect => Ok(c, [MSelect])
    case OpGetLocal(_) => LiveLocal(c, op)
    case OpSetLocal(_) => LiveLocal(c, op)
    case OpTeeLocal(_) => LiveLocal(c, op)
    case OpConst(v) => Ok(c, [MConst(v)])
    case OpPlain(p) => Ok(c, [MPlain(p)])
  }

  // ---------------------------------------------------------------- dead operators

  function DeadElse(c: Conv): Emit {
    if c.frames == [] then Panic else
    var f := c.frames[|c.frames| - 1];
    Ok(c.(skip := None, frames := c.frames[|c.frames| - 1 := SetHasElse(f)],
          stack := Truncate(c.stack, f.arguments)),
       [MLabel(Name(f.id, Else))])
  }

  function DeadEnd(c: Conv): Emit {
    if c.frames == [] then Panic else
    var f := c.frames[|c.frames| - 1];
    var rest := c.frames[..|c.frames| - 1];
    if rest == [] then Ok(c.(skip := None, frames := rest, done := true), []) else
    var c' := c.(skip := None, frames := rest, stack := Truncate(c.stack, f.arguments) + f.results);
    var end := Name(f.id, End);
    if f.kind == IfKind(false)
    then Ok(c', [MLabel(Name(f.id, Else)), MBr(To(end)), MLabel(end)])
    else Ok(c', [MLabel(end)])
  }

  function DeadOp(c: Conv, depth: nat, op: WasmOp): Emit {
    match op
    case OpBlock(_) => Ok(c.(skip := Some(depth + 1)), [])
    case OpLoop(_) => Ok(c.(skip := Some(depth + 1)), [])
    case OpIf(_) => Ok(c.(skip := Some(depth + 1)), [])
    case OpElse => if depth == 0 then DeadElse(c) else Ok(c, [])
    case OpEnd => if depth == 0 then DeadEnd(c) else Ok(c.(skip := Some(depth - 1)), [])
    case _ => Ok(c, [])
  }

  // ---------------------------------------------------------------- runs

  function Convert1(c: Conv, op: WasmOp): Emit {
    if c.done then Ok(c, [])
    else if c.skip.Some? then DeadOp(c, c.skip.value, op)
    else
      match ApplyOp(c.stack, op)
      case None => Panic
      case Some(st) => LiveOp(c.(stack := st), op)
  }

  function Append(a: Emit, b: Emit): Emit
    requires a.Ok?
  {
    if b.Panic? then Panic else Ok(b.conv, a.out + b.out)
  }

  function ConvertAll(c: Conv, ops: seq<WasmOp>): Emit
    decreases |ops|
  {
    if ops == [] then Ok(c, [])
    else
      var r := Convert1(c, ops[0]);
      if r.Panic? then Panic else Append(r, ConvertAll(r.conv, ops[1..]))
  }

  /** `MicrowasmConv::new`, and the constants that its first item emits for the declared locals. */
  function Init(f: Func): Conv {
    Conv(f.params + f.locals, [Frame(0, |f.params + f.locals|, f.results, FunctionKind)], 1, None, false)
  }

  /** `Value::default_for_type`. */
  function Default(ty: Ty): Val {
    match ty
    case I32 => Val(I32, 0)
    case I64 => Val(I64, 0)
    case F32 => Val(F32, 0)
    case F64 => Val(F64, 0)
  }

  function LocalConsts(locals: seq<Ty>): (r: seq<Op>)
    ensures |r| == |locals| && forall i :: 0 <= i < |locals| ==> r[i] == MConst(Val(locals[i], 0))
  {
    seq(|locals|, i requires 0 <= i < |locals| => MConst(Default(locals[i])))
  }

  /** The whole stream of a function body, or None if the converter panics. */
  function Compile(f: Func): Option<Prog> {
    match ConvertAll(Init(f), Flatten(f.body) + [OpEnd])
    case Panic => None
    case Ok(_, out) => Some(Prog(LocalConsts(f.locals) + out, f.results))
  }

  // ---------------------------------------------------------------- the structured view

  function Then(a: Emit, op: WasmOp): Emit {
    if a.Panic? then Panic else Append(a, Convert1(a.conv, op))
  }

  function ThenCode(a: Emit, code: Code): Emit
    decreases code, 1
  {
    if a.Panic? then Panic else Append(a, ConvertCode(a.conv, code))
  }

  /** The same run following the instruction tree. */
  function ConvertInstr(c: Conv, i: Instr): Emit
    decreases i, 0
  {
    match i
    case Block(bt, body) => Then(ThenCode(Convert1(c, OpBlock(bt)), body), OpEnd)
    case Loop(bt, body) => Then(ThenCode(Convert1(c, OpLoop(bt)), body), OpEnd)
    case IfThen(bt, thn) => Then(ThenCode(Convert1(c, OpIf(bt)), thn), OpEnd)
    case IfElse(bt, thn, els) =>
      Then(ThenCode(Then(ThenCode(Convert1(c, OpIf(bt)), thn), OpElse), els), OpEnd)
    case Unreachable => Convert1(c, OpUnreachable)
    case Nop => Convert1(c, OpNop)
    case Br(d) => Convert1(c, OpBr(d))
    case BrIf(d) => Convert1(c, OpBrIf(d))
    case BrTable(ds, d) => Convert1(c, OpBrTable(ds, d))
    case Return => Convert1(c, OpReturn)
    case Drop => Convert1(c, OpDrop)
    case Select => Convert1(c, OpSelect)
    case GetLocal(x) => Convert1(c, OpGetLocal(x))
    case SetLocal(x) => Convert1(c, OpSetLocal(x))
    case TeeLocal(x) => Convert1(c, OpTeeLocal(x))
    case Const(v) => Convert1(c, OpConst(v))
    case Plain(p) => Convert1(c, OpPlain(p))
  }

  function ConvertCode(c: Conv, code: Code): Emit
    decreases code, 0
  {
    match code
    case Nil => Ok(c, [])
    case Cons(i, rest) => ThenCode(ConvertInstr(c, i), rest)
  }

  // ---------------------------------------------------------------- the two views agree

  function ThenAll(a: Emit, ops: seq<WasmOp>): Emit {
    if a.Panic? then Panic else Append(a, ConvertAll(a.conv, ops))
  }

  lemma {:induction false} ConvertConcat(c: Conv, xs: seq<WasmOp>, ys: seq<WasmOp>)
    ensures ConvertAll(c, xs + ys) == ThenAll(ConvertAll(c, xs), ys)
    decreases |xs|
  {
    if xs == [] {
      assert xs + ys == ys;
      var r := ConvertAll(c, ys);
      assert r.Ok? ==> [] + r.out == r.out;
    } else {
      assert (xs + ys)[1..] == xs[1..] + ys;
      var r := Convert1(c, xs[0]);
      if r.Ok? {
        ConvertConcat(r.conv, xs[1..], ys);
        var r1 := ConvertAll(r.conv, xs[1..]);
        if r1.Ok? {
          var r2 := ConvertAll(r1.conv, ys);
          assert r2.Ok? ==> r.out + (r1.out + r2.out) == (r.out + r1.out) + r2.out;
        }
      }
    }
  }

  lemma ConvertOne(c: Conv, op: WasmOp)
    ensures ConvertAll(c, [op]) == Convert1(c, op)
  {
    var r := Convert1(c, op);
    assert [op][1..] == [];
    assert r.Ok? ==> r.out + [] == r.out;
  }

  lemma ThenIsThenAll(a: Emit, op: WasmOp)
    ensures Then(a, op) == ThenAll(a, [op])
  {
    if a.Ok? {
      ConvertOne(a.conv, op);
    }
  }

  lemma {:induction false} InstrAgrees(c: Conv, i: Instr)
    ensures ConvertAll(c, FlattenInstr(i)) == ConvertInstr(c, i)
    decreases i
  {
    match i
    case Block(bt, body) => BracketAgrees(c, OpBlock(bt), body);
    case Loop(bt, body) => BracketAgrees(c, OpLoop(bt), body);
    case IfThen(bt, thn) => BracketAgrees(c, OpIf(bt), thn);
    case IfElse(bt, thn, els) =>
      OpenAgrees(c, OpIf(bt), thn);
      var xs := [OpIf(bt)] + Flatten(thn);
      var a := ThenCode(Convert1(c, OpIf(bt)), thn);
      ConvertConcat(c, xs, [OpElse]);
      ThenIsThenAll(a, OpElse);
      var b := Then(a, OpElse);
      ConvertConcat(c, xs + [OpElse], Flatten(els));
      if b.Ok? {
        CodeAgrees(b.conv, els);
      }
      ConvertConcat(c, xs + [OpElse] + Flatten(els), [OpEnd]);
      ThenIsThenAll(ThenCode(b, els), OpEnd);
    case Unreachable => ConvertOne(c, OpUnreachable);
    case Nop => ConvertOne(c, OpNop);
    case Br(d) => ConvertOne(c, OpBr(d));
    case BrIf(d) => ConvertOne(c, OpBrIf(d));
    case BrTable(ds, d) => ConvertOne(c, OpBrTable(ds, d));
    case Return => ConvertOne(c, OpReturn);
    case Drop => ConvertOne(c, OpDrop);
    case Select => ConvertOne(c, OpSelect);
    case GetLocal(x) => ConvertOne(c, OpGetLocal(x));
    case SetLocal(x) => ConvertOne(c, OpSetLocal(x));
    case TeeLocal(x) => ConvertOne(c, OpTeeLocal(x));
    case Const(v) => ConvertOne(c, OpConst(v));
    case Plain(p) => ConvertOne(c, OpPlain(p));
  }

  lemma {:induction false} OpenAgrees(c: Conv, open: WasmOp, body: Code)
    ensures ConvertAll(c, [open] + Flatten(body)) == ThenCode(Convert1(c, open), body)
    decreases body, 1
  {
    ConvertConcat(c, [open], Flatten(body));
    ConvertOne(c, open);
    var r := Convert1(c, open);
    if r.Ok? {
      CodeAgrees(r.conv, body);
    }
  }

  lemma {:induction false} BracketAgrees(c: Conv, open: WasmOp, body: Code)
    ensures ConvertAll(c, [open] + Flatten(body) + [OpEnd]) == Then(ThenCode(Convert1(c, open), body), OpEnd)
    decreases body, 2
  {
    OpenAgrees(c, open, body);
    ConvertConcat(c, [open] + Flatten(body), [OpEnd]);
    ThenIsThenAll(ThenCode(Convert1(c, open), body), OpEnd);
  }

  /** Reading the flat stream and following the tree give the same converter run. */
  lemma {:induction false} CodeAgrees(c: Conv, code: Code)
    ensures ConvertAll(c, Flatten(code)) == ConvertCode(c, code)
    decreases code, 0
  {
    match code
    case Nil =>
    case Cons(i, rest) =>
      InstrAgrees(c, i);
      ConvertConcat(c, FlattenInstr(i), Flatten(rest));
      var r := ConvertInstr(c, i);
      if r.Ok? {
        CodeAgrees(r.conv, rest);
      }
  }

  lemma CompileAgrees(f: Func)
    ensures ConvertAll(Init(f), Flatten(f.body) + [OpEnd]) == Then(ConvertCode(Init(f), f.body), OpEnd)
  {
    CodeAgrees(Init(f), f.body);
    ConvertConcat(Init(f), Flatten(f.body), [OpEnd]);
    ThenIsThenAll(ConvertCode(Init(f), f.body), OpEnd);
  }

  lemma ConcatAssoc<A>(a: seq<A>, b: seq<A>, c: seq<A>)
    ensures a + b + c == a + (b + c)
  {
  }
}
