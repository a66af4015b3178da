/** Every label of an emitted stream is fresh: declared at most once and defined at most once. */
module ConverterNames {
  import opened Wasm
  import opened Microwasm
  import opened Converter
  import opened ConverterFacts

  predicate Named(op: Op) {
    op.MLabel? || op.MBlock?
  }

  predicate Terminator(op: Op) {
    op.MBr? || op.MBrIf? || op.MBrTable? || op.MTrap?
  }

  ghost predicate NamesIn(out: seq<Op>, lo: nat, hi: nat) {
    forall k :: 0 <= k < |out| && Named(out[k]) ==> lo <= out[k].name.id < hi
  }

  /** The two operators do not name the same label in the same role. */
  predicate Distinct(a: Op, b: Op) {
    && (a.MLabel? && b.MLabel? ==> a.name != b.name)
    && (a.MBlock? && b.MBlock? ==> a.name != b.name)
  }

  ghost predicate Unique(out: seq<Op>) {
    forall j, k {:trigger Distinct(out[j], out[k])} :: 0 <= j < k < |out| ==> Distinct(out[j], out[k])
  }

  ghost predicate Apart(xs: seq<Op>, ys: seq<Op>) {
    forall j, k {:trigger Distinct(xs[j], ys[k])} :: 0 <= j < |xs| && 0 <= k < |ys| ==> Distinct(xs[j], ys[k])
  }

  lemma UniqueConcat(xs: seq<Op>, ys: seq<Op>)
    requires Unique(xs) && Unique(ys) && Apart(xs, ys)
    ensures Unique(xs + ys)
  {
    var zs := xs + ys;
    forall j, k | 0 <= j < k < |zs|
      ensures Distinct(zs[j], zs[k])
    {
      if k < |xs| {
        assert Distinct(xs[j], xs[k]);
      } else if j < |xs| {
        assert Distinct(xs[j], ys[k - |xs|]);
      } else {
        assert Distinct(ys[j - |xs|], ys[k - |xs|]);
      }
    }
  }

  lemma ApartByRange(xs: seq<Op>, ys: seq<Op>, lo: nat, mid: nat, hi: nat)
    requires NamesIn(xs, lo, mid) && NamesIn(ys, mid, hi)
    ensures Apart(xs, ys) && Apart(ys, xs)
  {
  }

  lemma NamesConcat(xs: seq<Op>, ys: seq<Op>, lo: nat, hi: nat)
    requires NamesIn(xs, lo, hi) && NamesIn(ys, lo, hi)
    ensures NamesIn(xs + ys, lo, hi)
  {
  }

  lemma NamesWiden(xs: seq<Op>, lo: nat, hi: nat, lo': nat, hi': nat)
    requires NamesIn(xs, lo, hi) && lo' <= lo && hi <= hi'
    ensures NamesIn(xs, lo', hi')
  {
  }

  lemma ApartConcat(xs: seq<Op>, ys: seq<Op>, zs: seq<Op>)
    requires Apart(xs, zs) && Apart(ys, zs)
    ensures Apart(xs + ys, zs)
  {
    forall j, k | 0 <= j < |xs + ys| && 0 <= k < |zs|
      ensures Distinct((xs + ys)[j], zs[k])
    {
      if j < |xs| {
        assert Distinct(xs[j], zs[k]);
      } else {
        assert Distinct(ys[j - |xs|], zs[k]);
      }
    }
  }

  /** Opening and closing operators of one bracket, around a body with later names. */
  lemma Bracket(a: seq<Op>, body: seq<Op>, z: seq<Op>, id: nat, hi: nat)
    requires id < hi
    requires NamesIn(a, id, id + 1) && NamesIn(z, id, id + 1) && NamesIn(body, id + 1, hi)
    requires Unique(a) && Unique(body) && Unique(z) && Apart(a, z)
    ensures Unique(a + body + z) && NamesIn(a + body + z, id, hi)
  {
    ApartByRange(a, body, id, id + 1, hi);
    ApartByRange(z, body, id, id + 1, hi);
    UniqueConcat(a, body);
    ApartConcat(a, body, z);
    UniqueConcat(a + body, z);
  }

  // ---------------------------------------------------------------- single chunks

  lemma EndOutNames(f: Frame, dead: bool)
    ensures NamesIn(EndOut(f, dead), f.id, f.id + 1) && Unique(EndOut(f, dead))
    ensures forall k :: 0 <= k < |EndOut(f, dead)| ==> !EndOut(f, dead)[k].MBlock?
    ensures forall k :: 0 <= k < |EndOut(f, dead)| && EndOut(f, dead)[k].MLabel? ==>
      EndOut(f, dead)[k].name.tag == End || (EndOut(f, dead)[k].name.tag == Else && f.kind == IfKind(false))
  {
  }

  lemma IfChunks(c: Conv, bt: BlockType, f: Frame, g: Frame, dead: bool, dead': bool)
    requires f.id == g.id == c.nextId && g.kind == IfKind(true)
    ensures NamesIn(ElseOut(f, dead), f.id, f.id + 1) && Unique(ElseOut(f, dead))
    ensures NamesIn(EndOut(g, dead'), f.id, f.id + 1) && Unique(EndOut(g, dead'))
    ensures Apart(OpenIf(c, bt).out, ElseOut(f, dead))
    ensures Apart(OpenIf(c, bt).out, EndOut(g, dead'))
    ensures Apart(ElseOut(f, dead), EndOut(g, dead'))
  {
  }

  lemma OpeningNames(c: Conv, bt: BlockType)
    ensures NamesIn(OpenBlock(c, bt).out, c.nextId, c.nextId + 1) && Unique(OpenBlock(c, bt).out)
    ensures NamesIn(OpenLoop(c, bt).out, c.nextId, c.nextId + 1) && Unique(OpenLoop(c, bt).out)
    ensures NamesIn(OpenIf(c, bt).out, c.nextId, c.nextId + 1) && Unique(OpenIf(c, bt).out)
    ensures forall k :: 0 <= k < |OpenBlock(c, bt).out| ==> !OpenBlock(c, bt).out[k].MLabel?
    ensures forall k :: 0 <= k < |OpenLoop(c, bt).out| && OpenLoop(c, bt).out[k].MLabel? ==>
      OpenLoop(c, bt).out[k].name.tag == Header
    ensures forall k :: 0 <= k < |OpenIf(c, bt).out| && OpenIf(c, bt).out[k].MLabel? ==>
      OpenIf(c, bt).out[k].name.tag == Header
  {
  }

  // ---------------------------------------------------------------- whole code

  /** All labels of a chunk are new, and none is declared or defined twice. */
  lemma {:induction false} CodeNames(c: Conv, ctx: Ctx, code: Code, opds: seq<Ty>)
    requires InStep(c, ctx, opds) && !CheckCode(ctx, code, opds).Invalid?
    ensures ConvertCode(c, code).Ok?
    ensures Unique(ConvertCode(c, code).out)
    ensures NamesIn(ConvertCode(c, code).out, c.nextId, ConvertCode(c, code).conv.nextId)
    decreases code, 0
  {
    match code
    case Nil =>
    case Cons(i, rest) =>
      InstrNames(c, ctx, i, opds);
      InstrOk(c, ctx, i, opds);
      var r := ConvertInstr(c, i);
      match CheckInstr(ctx, i, opds) {
        case Live(o) =>
          AfterInStep(c, r.conv, ctx, opds, o);
          CodeNames(r.conv, ctx, rest, o);
          CodeOk(r.conv, ctx, rest, o);
          var q := ConvertCode(r.conv, rest);
          ApartByRange(r.out, q.out, c.nextId, r.conv.nextId, q.conv.nextId);
          UniqueConcat(r.out, q.out);
          NamesWiden(r.out, c.nextId, r.conv.nextId, c.nextId, q.conv.nextId);
          NamesWiden(q.out, r.conv.nextId, q.conv.nextId, c.nextId, q.conv.nextId);
          NamesConcat(r.out, q.out, c.nextId, q.conv.nextId);
        case Dead =>
          SkipCode(r.conv, rest);
          assert r.out + [] == r.out;
      }
  }

  lemma {:induction false} InstrNames(c: Conv, ctx: Ctx, i: Instr, opds: seq<Ty>)
    requires InStep(c, ctx, opds) && !CheckInstr(ctx, i, opds).Invalid?
    ensures ConvertInstr(c, i).Ok?
    ensures Unique(ConvertInstr(c, i).out)
    ensures NamesIn(ConvertInstr(c, i).out, c.nextId, ConvertInstr(c, i).conv.nextId)
    decreases i, 1
  {
    hide CheckCode, ConvertCode, InStep, StagesOf, Convert1;
    match i
    case Block(bt, body) =>
      var st := BlockOk(c, ctx, i, opds);
      OpeningNames(c, bt);
      StageNames(st, c, ctx, opds, Lab(false, Rets(bt), |opds|), body, ConvertInstr(c, i), c.nextId);
    case Loop(bt, body) =>
      var st := LoopOk(c, ctx, i, opds);
      OpeningNames(c, bt);
      StageNames(st, c, ctx, opds, Lab(true, Rets(bt), |opds|), body, ConvertInstr(c, i), c.nextId);
    case IfThen(bt, thn) =>
      var st := IfThenOk(c, ctx, i, opds);
      var c0 := Popped1(c, ctx, opds);
      OpeningNames(c0, bt);
      StageNames(st, c0, ctx, PopTop(opds, 1), Lab(false, Rets(bt), |opds| - 1), thn, ConvertInstr(c, i), c.nextId);
    case IfElse(bt, thn, els) => IfElseNames(c, ctx, i, opds);
    case BrIf(d) => BrIfNames(c, ctx, opds, d);
    case _ => LeafNames(c, ctx, i, opds);
  }

  lemma LeafNames(c: Conv, ctx: Ctx, i: Instr, opds: seq<Ty>)
    requires InStep(c, ctx, opds) && !CheckInstr(ctx, i, opds).Invalid?
    requires !i.Block? && !i.Loop? && !i.IfThen? && !i.IfElse? && !i.BrIf?
    ensures ConvertInstr(c, i).Ok?
    ensures Unique(ConvertInstr(c, i).out)
    ensures NamesIn(ConvertInstr(c, i).out, c.nextId, ConvertInstr(c, i).conv.nextId)
  {
    hide CheckInstr, ConvertInstr, After;
    LeafUnnamed(c, ctx, i, opds);
    InstrOk(c, ctx, i, opds);
  }

  lemma BrIfNames(c: Conv, ctx: Ctx, opds: seq<Ty>, d: nat)
    requires InStep(c, ctx, opds) && HasTop(ctx.Base(), opds, [I32]) && d < |ctx.labels|
    ensures var e := Convert1(c, OpBrIf(d)); e.Ok? && Unique(e.out) && NamesIn(e.out, c.nextId, e.conv.nextId)
  {
    BrIfLeaf(c, ctx, opds, d);
  }

  /** No operator of the chunk branches. */
  lemma StraightLeaf(c: Conv, ctx: Ctx, i: Instr, opds: seq<Ty>)
    requires InStep(c, ctx, opds) && CheckInstr(ctx, i, opds).Live?
    requires !i.Block? && !i.Loop? && !i.IfThen? && !i.IfElse? && !i.BrIf?
    ensures ConvertInstr(c, i).Ok?
    ensures var out := ConvertInstr(c, i).out; forall k :: 0 <= k < |out| ==> !Named(out[k]) && !Terminator(out[k])
  {
    hide Convert1;
    hide CheckCode, ConvertCode, InStep, After;
    match i
    case Nop => TrapLeaf(c, ctx, opds);
    case Drop => DropLeaf(c, ctx, opds);
    case Select => SelectLeaf(c, ctx, opds);
    case GetLocal(x) => GetLocalLeaf(c, ctx, opds, x);
    case SetLocal(x) => SetLocalLeaf(c, ctx, opds, x);
    case TeeLocal(x) => TeeLocalLeaf(c, ctx, opds, x);
    case Const(v) => ConstLeaf(c, ctx, opds, v);
    case Plain(op) => PlainLeaf(c, ctx, opds, op);
  }

  lemma LeafUnnamed(c: Conv, ctx: Ctx, i: Instr, opds: seq<Ty>)
    requires InStep(c, ctx, opds) && !CheckInstr(ctx, i, opds).Invalid?
    requires !i.Block? && !i.Loop? && !i.IfThen? && !i.IfElse? && !i.BrIf?
    ensures ConvertInstr(c, i).Ok?
    ensures forall k :: 0 <= k < |ConvertInstr(c, i).out| ==> !Named(ConvertInstr(c, i).out[k])
  {
    hide CheckInstr, ConvertInstr, Terminator, Named;
    if CheckInstr(ctx, i, opds).Live? {
      StraightLeaf(c, ctx, i, opds);
    } else {
      EndingUnnamed(c, ctx, i, opds);
    }
  }

  lemma EndingUnnamed(c: Conv, ctx: Ctx, i: Instr, opds: seq<Ty>)
    requires InStep(c, ctx, opds) && CheckInstr(ctx, i, opds).Dead?
    requires !i.Block? && !i.Loop? && !i.IfThen? && !i.IfElse?
    ensures ConvertInstr(c, i).Ok?
    ensures forall k :: 0 <= k < |ConvertInstr(c, i).out| ==> !Named(ConvertInstr(c, i).out[k])
  {
    hide InStep, Convert1, After;
    match i
    case Unreachable => TrapLeaf(c, ctx, opds);
    case Return => TrapLeaf(c, ctx, opds);
    case Br(d) => BrLeaf(c, ctx, opds, d);
    case BrTable(ds, d) => CheckedTable(c, ctx, opds, ds, d);
  }

  lemma StageFrame(st: Stages, c: Conv, ctx: Ctx, opds: seq<Ty>, l: Lab, code: Code, e: Emit)
    requires StagesOf(st, c, ctx, opds, l, code, e)
    ensures |st.inner.frames| == |st.open.frames| == |c.frames| + 1
    ensures Grown(st.open.frames[|c.frames|], st.inner.frames[|c.frames|])
    ensures st.inner.frames[|c.frames|].id == st.open.frames[|c.frames|].id
    ensures st.inner.frames[|c.frames|].kind.IfKind? ==> st.inner.frames[|c.frames|] == st.open.frames[|c.frames|]
  {
  }

  lemma {:induction false} StageNames(st: Stages, c: Conv, ctx: Ctx, opds: seq<Ty>, l: Lab, code: Code, e: Emit,
      id: nat)
    requires StagesOf(st, c, ctx, opds, l, code, e)
    requires st.open.frames[|c.frames|].id == id && st.open.nextId == id + 1
    requires NamesIn(st.opening, id, id + 1) && Unique(st.opening)
    requires forall k :: 0 <= k < |st.opening| && st.opening[k].MLabel? ==> st.opening[k].name.tag == Header
    ensures e.Ok? && Unique(e.out) && NamesIn(e.out, id, e.conv.nextId)
    decreases code, 1
  {
    StageFrame(st, c, ctx, opds, l, code, e);
    CodeNames(st.open, ctx.Push(l), code, opds);
    EndOutNames(st.inner.frames[|c.frames|], st.dead);
    assert Apart(st.opening, st.closing);
    Bracket(st.opening, st.body, st.closing, id, st.inner.nextId);
  }

  lemma {:induction false} IfElseNames(c: Conv, ctx: Ctx, i: Instr, opds: seq<Ty>)
    requires InStep(c, ctx, opds) && i.IfElse? && !CheckInstr(ctx, i, opds).Invalid?
    ensures ConvertInstr(c, i).Ok?
    ensures Unique(ConvertInstr(c, i).out)
    ensures NamesIn(ConvertInstr(c, i).out, c.nextId, ConvertInstr(c, i).conv.nextId)
    decreases i, 0
  {
    var open, inner, thn, dead, st := IfElseOk(c, ctx, i, opds);
    var o := PopTop(opds, 1);
    var l := Lab(false, Rets(i.bt), |o|);
    var id := c.nextId;
    var c1 := c.(frames := inner.frames[..|c.frames|]);
    StageFrame(st, c1, ctx, o, l, i.els, ConvertInstr(c, i));
    OpeningNames(Popped1(c, ctx, opds), i.bt);
    var a := OpenIf(Popped1(c, ctx, opds), i.bt).out;
    var fi := inner.frames[|c.frames|];
    assert Grown(open.frames[|c.frames|], fi);
    var m := ElseOut(fi, dead);
    var fl := st.inner.frames[|c.frames|];
    IfChunks(Popped1(c, ctx, opds), i.bt, fi, fl, dead, st.dead);
    CodeNames(open, ctx.Push(l), i.thn, o);
    CodeNames(st.open, ctx.Push(l), i.els, o);
    Bracket(a, thn, m, id, inner.nextId);
    ElseSide(a + thn + m, st.body, st.closing, a, thn, m, id, inner.nextId, st.inner.nextId);
  }

  lemma ElseSide(front: seq<Op>, body: seq<Op>, z: seq<Op>, a: seq<Op>, thn: seq<Op>, m: seq<Op>,
                 id: nat, mid: nat, hi: nat)
    requires front == a + thn + m && id < mid <= hi
    requires Unique(front) && NamesIn(front, id, mid)
    requires NamesIn(thn, id + 1, mid) && NamesIn(body, mid, hi) && Unique(body)
    requires NamesIn(z, id, id + 1) && Unique(z) && Apart(a, z) && Apart(m, z)
    ensures Unique(front + body + z) && NamesIn(front + body + z, id, hi)
  {
    ApartByRange(front, body, id, mid, hi);
    UniqueConcat(front, body);
    NamesWiden(thn, id + 1, mid, id + 1, hi);
    NamesWiden(body, mid, hi, id + 1, hi);
    ApartByRange(z, thn, id, id + 1, hi);
    ApartByRange(z, body, id, id + 1, hi);
    ApartConcat(a, thn, z);
    ApartConcat(a + thn, m, z);
    ApartConcat(front, body, z);
    UniqueConcat(front + body, z);
  }

  // ---------------------------------------------------------------- lookups

  lemma FoundLabel(ops: seq<Op>, i: nat, name: Name)
    requires Unique(ops) && i < |ops| && ops[i] == MLabel(name)
    ensures FindLabel(ops, name) == i
  {
    var k := FindLabel(ops, name);
    assert k == i || Distinct(ops[k], ops[i]);
  }

  lemma FoundDecl(ops: seq<Op>, i: nat, name: Name)
    requires Unique(ops) && i < |ops| && Declares(ops[i], name)
    ensures FindDecl(ops, name) == i
  {
    var k := FindDecl(ops, name);
    assert k == i || Distinct(ops[k], ops[i]);
  }
}
