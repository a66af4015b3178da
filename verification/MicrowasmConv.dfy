/** The iterator `MicrowasmConv` itself: fields updated in place, one reader, one chunk per call.
    Every call is proved against the transition function of module Converter. */
module MicrowasmConv {
  import opened Wasm
  import opened Microwasm
  import opened Converter
  import opened ConverterFacts
  import opened Preservation

  /** What one call of `next` gives: None, a reader error, a panic, or a chunk. */
  datatype Item = Exhausted | ReadError | Panicked | Chunk(ops: seq<Op>)

  class Iterator {
    const input: seq<WasmOp>
    var pos: nat
    var constsToEmit: Option<seq<Op>>
    var stack: seq<Ty>
    var frames: seq<Frame>
    var currentId: nat
    var unreachable: bool
    var isDone: bool

    ghost predicate Valid()
      reads this
    {
      pos <= |input|
    }

    ghost function View(): Conv
      reads this
    {
      Conv(stack, frames, currentId, if unreachable then Some(0) else None, isDone)
    }

    /** `new`: parameters and declared locals make up the stack, with a frame for the function. */
    constructor (f: Func, ops: seq<WasmOp>)
      ensures Valid() && input == ops && pos == 0
      ensures View() == Init(f) && constsToEmit == Some(LocalConsts(f.locals))
      ensures forall i :: 0 <= i < |f.locals| ==> constsToEmit.value[i] == MConst(Val(f.locals[i], 0))
    {
      input := ops;
      pos := 0;
      isDone := false;
      unreachable := false;
      stack := f.params + f.locals;
      constsToEmit := Some(LocalConsts(f.locals));
      currentId := 1;
      frames := [Frame(0, |f.params + f.locals|, f.results, FunctionKind)];
    }

    /** `apply_op`: false is the panic of an empty stack or a wrong type. */
    method ApplyOp(sig: Sig) returns (ok: bool)
      modifies this`stack
      ensures ok == ApplySig(old(stack), sig).Some?
      ensures ok ==> stack == ApplySig(old(stack), sig).value
    {
      var param: Option<Ty> := None;
      var i := |sig.input|;
      assert sig.input[..i] == sig.input;
      while i > 0
        invariant 0 <= i <= |sig.input|
        invariant PopInputs(stack, sig.input[..i], param) == PopInputs(old(stack), sig.input, None)
      {
        if stack == [] {
          return false;
        }
        var top := stack[|stack| - 1];
        assert sig.input[..i][..i - 1] == sig.input[..i - 1];
        match sig.input[i - 1] {
          case Concrete(ty) =>
            if ty != top {
              return false;
            }
          case T =>
            if param.Some? && param.value != top {
              return false;
            }
            param := Some(top);
        }
        stack := stack[..|stack| - 1];
        i := i - 1;
      }
      ghost var popped := stack;
      var j := |sig.output|;
      assert sig.output[..j] == sig.output;
      while j > 0
        invariant 0 <= j <= |sig.output|
        invariant PushOutputs(stack, sig.output[..j], param) == PushOutputs(popped, sig.output, param)
      {
        assert sig.output[..j][..j - 1] == sig.output[..j - 1];
        match sig.output[j - 1] {
          case Concrete(ty) => stack := stack + [ty];
          case T =>
            if param == None {
              return false;
            }
            stack := stack + [param.value];
        }
        j := j - 1;
      }
      return true;
    }

    /** Marking the targets of a branch table while its entries are collected. */
    method CollectTargets(depths: seq<nat>) returns (ok: bool, targets: seq<TargetDrop>)
      modifies this`frames
      ensures ok == forall i :: 0 <= i < |depths| ==> depths[i] < |old(frames)|
      ensures ok ==> frames == MarkAll(old(frames), depths) && targets == Targets(|stack|, old(frames), depths)
    {
      hide MarkNth;
      targets := [];
      var k := 0;
      while k < |depths|
        invariant k <= |depths| && |frames| == |old(frames)|
        invariant forall i :: 0 <= i < k ==> depths[i] < |old(frames)|
        invariant frames == MarkAll(old(frames), depths[..k])
        invariant targets == Targets(|stack|, old(frames), depths[..k])
      {
        if depths[k] >= |frames| {
          return false, [];
        }
        frames := MarkNth(frames, depths[k]);
        var block := Nth(frames, depths[k]);
        targets := targets + [TargetDrop(block.BrTarget(), ToDrop(|stack|, block))];
        assert depths[..k + 1] == depths[..k] + [depths[k]];
        MarkAllSnoc(old(frames), depths[..k], depths[k]);
        MarkAllGrows(old(frames), depths[..k + 1]);
        assert Grown(Nth(old(frames), depths[k]), block);
        k := k + 1;
      }
      assert depths[..k] == depths;
      return true, targets;
    }

    /** The main match of `next`: one operator of live code, its stack effect already applied. */
    method LiveNext(op: WasmOp) returns (ok: bool, out: seq<Op>)
      requires !unreachable && !isDone
      modifies this`stack, this`frames, this`currentId, this`unreachable, this`isDone
      ensures ok == LiveOp(old(View()), op).Ok?
      ensures ok ==> LiveOp(old(View()), op) == Ok(View(), out)
    {
      ok, out := true, [];
      match op
      case OpUnreachable =>
        unreachable := true;
        out := [MTrap];
      case OpNop =>
      case OpBlock(bt) => out := PushBlock(bt);
      case OpLoop(bt) => out := PushLoop(bt);
      case OpIf(bt) => out := PushIf(bt);
      case OpElse => ok, out := ElseLive();
      case OpEnd => ok, out := EndLive();
      case OpBr(depth) => ok, out := BranchTo(depth);
      case OpBrIf(depth) => ok, out := BranchIfTo(depth);
      case OpBrTable(depths, default) => ok, out := BranchTable(depths, default);
      case OpReturn =>
        if frames == [] {
          return false, [];
        }
        unreachable := true;
        out := DropOps(ToDrop(|stack|, frames[0])) + [MBr(frames[0].BrTarget())];
      case OpDrop => out := [MDrop(Range(0, 0))];
      case OpSelect => out := [MSelect];
      case OpGetLocal(x) =>
        var depth := LocalDepth(|stack|, x) - 1;
        if depth < 0 {
          return false, [];
        }
        out := [MPick(depth)];
      case OpSetLocal(x) =>
        var depth := LocalDepth(|stack|, x) + 1;
        if depth < 0 {
          return false, [];
        }
        out := [MSwap(depth), MDrop(Range(0, 0))];
      case OpTeeLocal(x) =>
        var depth := LocalDepth(|stack|, x) + 1;
        if depth < 0 {
          return false, [];
        }
        out := [MPick(0), MSwap(depth), MDrop(Range(0, 0))];
      case OpConst(v) => out := [MConst(v)];
      case OpPlain(p) => out := [MPlain(p)];
    }

    method NextId() returns (id: nat)
      modifies this`currentId
      ensures id == old(currentId) && currentId == old(currentId) + 1
    {
      id := currentId;
      currentId := currentId + 1;
    }

    method PushBlock(bt: BlockType) returns (out: seq<Op>)
      modifies this`frames, this`currentId
      ensures OpenBlock(old(View()), bt) == Ok(View(), out)
    {
      var id := NextId();
      frames := frames + [Frame(id, |stack|, Rets(bt), BlockKind(false))];
      out := [EndDecl(stack + Rets(bt), Name(id, End))];
    }

    method PushLoop(bt: BlockType) returns (out: seq<Op>)
      modifies this`frames, this`currentId
      ensures OpenLoop(old(View()), bt) == Ok(View(), out)
    {
      var id := NextId();
      frames := frames + [Frame(id, |stack|, Rets(bt), LoopKind)];
      var header := Name(id, Header);
      out := [LoopDecl(stack, header), EndDecl(stack + Rets(bt), Name(id, End)), MBr(To(header)), MLabel(header)];
    }

    method PushIf(bt: BlockType) returns (out: seq<Op>)
      modifies this`frames, this`currentId
      ensures OpenIf(old(View()), bt) == Ok(View(), out)
    {
      var id := NextId();
      frames := frames + [Frame(id, |stack|, Rets(bt), IfKind(false))];
      var thn, els := Name(id, Header), Name(id, Else);
      out := [BlockDecl(stack, thn), BlockDecl(stack, els), EndDecl(stack + Rets(bt), Name(id, End)),
              MBrIf(TargetDrop(To(thn), None), TargetDrop(To(els), None)), MLabel(thn)];
    }

    method ElseLive() returns (ok: bool, out: seq<Op>)
      modifies this`frames, this`stack
      ensures ok == LiveElse(old(View())).Ok?
      ensures ok ==> LiveElse(old(View())) == Ok(View(), out)
    {
      if frames == [] {
        return false, [];
      }
      var last := |frames| - 1;
      var block := frames[last];
      var toDrop := ToDrop(|stack|, block);
      if block.kind.IfKind? {
        frames := frames[last := block.(kind := IfKind(true))];
      }
      stack := Truncate(stack, block.arguments);
      return true, DropOps(toDrop) + [MBr(To(Name(block.id, End))), MLabel(Name(block.id, Else))];
    }

    method EndLive() returns (ok: bool, out: seq<Op>)
      requires !isDone
      modifies this`frames, this`stack, this`isDone
      ensures ok == LiveEnd(old(View())).Ok?
      ensures ok ==> LiveEnd(old(View())) == Ok(View(), out)
    {
      if frames == [] {
        return false, [];
      }
      ok := true;
      var block := frames[|frames| - 1];
      frames := frames[..|frames| - 1];
      var drops := DropOps(ToDrop(|stack|, block));
      stack := Truncate(stack, block.arguments) + block.results;
      var end := Name(block.id, End);
      if block.kind == IfKind(false) {
        out := drops + [MBr(To(end)), MLabel(Name(block.id, Else)), MBr(To(end)), MLabel(end)];
      } else if frames == [] {
        isDone := true;
        out := [MBr(ToReturn)];
      } else if block.NeedsEndLabel() {
        out := drops + [MBr(To(end)), MLabel(end)];
      } else {
        out := drops;
      }
    }

    method BranchTo(depth: nat) returns (ok: bool, out: seq<Op>)
      requires !unreachable
      modifies this`frames, this`unreachable
      ensures ok == LiveBr(old(View()), depth).Ok?
      ensures ok ==> LiveBr(old(View()), depth) == Ok(View(), out)
    {
      if depth >= |frames| {
        return false, [];
      }
      unreachable := true;
      var toDrop := ToDrop(|stack|, Nth(frames, depth));
      frames := MarkNth(frames, depth);
      return true, DropOps(toDrop) + [MBr(Nth(frames, depth).BrTarget())];
    }

    method BranchIfTo(depth: nat) returns (ok: bool, out: seq<Op>)
      modifies this`frames, this`currentId
      ensures ok == LiveBrIf(old(View()), depth).Ok?
      ensures ok ==> LiveBrIf(old(View()), depth) == Ok(View(), out)
    {
      if depth >= |frames| {
        return false, [];
      }
      var toDrop := ToDrop(|stack|, Nth(frames, depth));
      var id := NextId();
      var header := Name(id, Header);
      frames := MarkNth(frames, depth);
      return true, [BlockDecl(stack, header),
                    MBrIf(TargetDrop(Nth(frames, depth).BrTarget(), toDrop), TargetDrop(To(header), None)),
                    MLabel(header)];
    }

    method BranchTable(depths: seq<nat>, default: nat) returns (ok: bool, out: seq<Op>)
      requires !unreachable
      modifies this`frames, this`unreachable
      ensures ok == LiveBrTable(old(View()), depths, default).Ok?
      ensures ok ==> LiveBrTable(old(View()), depths, default) == Ok(View(), out)
    {
      unreachable := true;
      var targets;
      ok, targets := CollectTargets(depths);
      if !ok || default >= |frames| {
        return false, [];
      }
      ghost var marked := frames;
      frames := MarkNth(frames, default);
      var block := Nth(frames, default);
      MarkAllGrows(old(frames), depths);
      assert Grown(Nth(old(frames), default), Nth(marked, default));
      out := [MBrTable(targets, TargetDrop(block.BrTarget(), ToDrop(|stack|, block)))];
    }

    /** The skipping loop of `next`: reads on until the `else` or `end` of the current frame. */
    method SkipNext() returns (item: Item)
      requires Valid() && unreachable && !isDone
      modifies this`pos, this`stack, this`frames, this`unreachable, this`isDone
      ensures Valid() && old(pos) <= pos
      ensures item.ReadError? ==>
        && pos == |input|
        && var r := ConvertAll(old(View()), input[old(pos)..pos]); r.Ok? && !r.conv.done
      ensures item.Chunk? ==> old(pos) < pos
      ensures item.Chunk? ==> ConvertAll(old(View()), input[old(pos)..pos]) == Ok(View(), item.ops)
      ensures item.Exhausted? ==> ConvertAll(old(View()), input[old(pos)..pos]) == Ok(View(), []) && isDone
      ensures item.Panicked? ==> ConvertAll(old(View()), input[old(pos)..pos]).Panic?
    {
      hide ConvertAll, Convert1, DeadElse, DeadEnd;
      ConvertNone(View());
      unreachable := false;
      var depth := 0;
      ghost var start, from := old(View()), old(pos);
      assert input[from..pos] == [];
      while true
        invariant Valid() && from <= pos && start == old(View()) && from == old(pos)
        invariant !unreachable && !isDone && stack == old(stack) && frames == old(frames) && currentId == old(currentId)
        invariant ConvertAll(start, input[from..pos]) == Ok(start.(skip := Some(depth)), [])
        decreases |input| - pos
      {
        if pos == |input| {
          return ReadError;
        }
        var op := input[pos];
        pos := pos + 1;
        assert input[from..pos] == input[from..pos - 1] + [op];
        DeadSnoc(start, input[from..pos - 1], op, depth);
        match op
        case OpBlock(_) => depth := depth + 1;
        case OpLoop(_) => depth := depth + 1;
        case OpIf(_) => depth := depth + 1;
        case OpElse =>
          if depth == 0 {
            ElseResumes(start);
            item := SkippedToElse();
            return;
          }
        case OpEnd =>
          if depth == 0 {
            EndResumes(start);
            item := SkippedToEnd();
            return;
          } else {
            depth := depth - 1;
          }
        case _ =>
      }
    }

    /** The item stands for what the transition function emits, and the state is its state. */
    ghost predicate Yields(e: Emit, item: Item)
      reads this
    {
      match e
      case Panic => item.Panicked?
      case Ok(c, out) => c == View() && if c.done then item.Exhausted? && out == [] else item == Chunk(out)
    }

    /** At the `else` of the current frame the code can be reached again. */
    method SkippedToElse() returns (item: Item)
      requires !unreachable && !isDone
      modifies this`stack, this`frames
      ensures Yields(DeadElse(old(View())), item)
    {
      if frames == [] {
        return Panicked;
      }
      var block := frames[|frames| - 1];
      stack := Truncate(stack, block.arguments);
      frames := frames[|frames| - 1 := SetHasElse(block)];
      return Chunk([MLabel(Name(block.id, Else))]);
    }

    /** At its `end` the frame is left; the function's own `end` is the last operator. */
    method SkippedToEnd() returns (item: Item)
      requires !unreachable && !isDone
      modifies this`stack, this`frames, this`isDone
      ensures Yields(DeadEnd(old(View())), item)
    {
      if frames == [] {
        return Panicked;
      }
      var block := frames[|frames| - 1];
      frames := frames[..|frames| - 1];
      if frames == [] {
        isDone := true;
        return Exhausted;
      }
      stack := Truncate(stack, block.arguments) + block.results;
      var end := Name(block.id, End);
      if block.kind == IfKind(false) {
        return Chunk([MLabel(Name(block.id, Else)), MBr(To(end)), MLabel(end)]);
      } else {
        return Chunk([MLabel(end)]);
      }
    }

    /** `next`.  The operators read by the call and the chunk it returns are one stretch of the
        transition function's run; the very first call emits the constants of the locals. */
    method Next() returns (item: Item)
      requires Valid()
      modifies this
      ensures Valid() && old(pos) <= pos
      ensures item.ReadError? ==>
        && pos == |input|
        && var r := ConvertAll(old(View()), input[old(pos)..pos]); r.Ok? && !r.conv.done
      ensures old(constsToEmit).Some? && !old(isDone) ==>
        item == Chunk(old(constsToEmit).value) && constsToEmit == None && View() == old(View()) && pos == old(pos)
      ensures old(isDone) ==> item == Exhausted && View() == old(View()) && pos == old(pos)
      ensures old(constsToEmit) == None && !old(isDone) ==>
        && constsToEmit == None
        && (item.Chunk? ==> old(pos) < pos && ConvertAll(old(View()), input[old(pos)..pos]) == Ok(View(), item.ops))
        && (item.Exhausted? ==> ConvertAll(old(View()), input[old(pos)..pos]) == Ok(View(), []) && isDone)
        && (item.Panicked? ==> ConvertAll(old(View()), input[old(pos)..pos]).Panic?)
    {
      if isDone {
        return Exhausted;
      }
      if constsToEmit.Some? {
        var consts := constsToEmit.value;
        constsToEmit := None;
        return Chunk(consts);
      }
      if unreachable {
        item := SkipNext();
        return;
      }
      if pos == |input| {
        return ReadError;
      }
      var op := input[pos];
      pos := pos + 1;
      assert input[old(pos)..pos] == [op];
      ConvertOne(old(View()), op);
      var sig := OpSig(stack, op);
      if sig == None {
        return Panicked;
      }
      var applied := ApplyOp(sig.value);
      if !applied {
        return Panicked;
      }
      var ok, out := LiveNext(op);
      return if ok then Chunk(out) else Panicked;
    }
  }

  lemma {:induction false} MarkAllSnoc(frames: seq<Frame>, ds: seq<nat>, d: nat)
    requires d < |frames| && forall i :: 0 <= i < |ds| ==> ds[i] < |frames|
    ensures MarkAll(frames, ds + [d]) == MarkNth(MarkAll(frames, ds), d)
    decreases |ds|
  {
    if ds == [] {
      assert ds + [d] == [d];
      assert MarkAll(MarkNth(frames, d), [d][1..]) == MarkNth(frames, d);
    } else {
      assert (ds + [d])[1..] == ds[1..] + [d];
      MarkAllSnoc(MarkNth(frames, ds[0]), ds[1..], d);
    }
  }

  lemma ElseResumes(c: Conv)
    ensures DeadElse(c.(skip := Some(0))) == DeadElse(c.(skip := None))
  {
  }

  lemma EndResumes(c: Conv)
    ensures DeadEnd(c.(skip := Some(0))) == DeadEnd(c.(skip := None))
  {
  }

  lemma ConvertNone(c: Conv)
    ensures ConvertAll(c, []) == Ok(c, [])
  {
  }

  /** One more operator in dead code. */
  lemma DeadSnoc(c: Conv, ops: seq<WasmOp>, op: WasmOp, depth: nat)
    requires !c.done && ConvertAll(c, ops) == Ok(c.(skip := Some(depth)), [])
    ensures ConvertAll(c, ops + [op]) == DeadOp(c.(skip := Some(depth)), depth, op)
  {
    hide ConvertAll;
    ConvertSnoc(c, ops, op);
  }

  lemma ConvertSnoc(c: Conv, ops: seq<WasmOp>, op: WasmOp)
    requires ConvertAll(c, ops).Ok? && ConvertAll(c, ops).out == []
    ensures ConvertAll(c, ops + [op]) == Convert1(ConvertAll(c, ops).conv, op)
  {
    ConvertConcat(c, ops, [op]);
    var a := ConvertAll(c, ops);
    ConvertOne(a.conv, op);
    var r := Convert1(a.conv, op);
    assert r.Ok? ==> [] + r.out == r.out;
  }

  /** Operators after the end of the function are not read. */
  lemma {:induction false} DoneReadsNothing(c: Conv, ops: seq<WasmOp>)
    requires c.done
    ensures ConvertAll(c, ops) == Ok(c, [])
    decreases |ops|
  {
    if ops != [] {
      DoneReadsNothing(c, ops[1..]);
      assert ConvertAll(c, ops) == Ok(c, [] + []);
    }
  }

  lemma Resume(c: Conv, ops: seq<WasmOp>, from: nat, to: nat)
    requires from <= to <= |ops| && ConvertAll(c, ops[..from]).Ok?
    ensures ConvertAll(c, ops[..to]) == ThenAll(ConvertAll(c, ops[..from]), ops[from..to])
  {
    assert ops[..to] == ops[..from] + ops[from..to];
    ConvertConcat(c, ops[..from], ops[from..to]);
  }

  lemma WholeRun(c: Conv, ops: seq<WasmOp>, at: nat)
    requires at <= |ops| && ConvertAll(c, ops[..at]).Ok?
    requires at == |ops| || ConvertAll(c, ops[..at]).conv.done
    ensures ConvertAll(c, ops) == ConvertAll(c, ops[..at])
  {
    assert ops[..|ops|] == ops;
    Resume(c, ops, at, |ops|);
    var r := ConvertAll(c, ops[..at]);
    if r.conv.done {
      DoneReadsNothing(r.conv, ops[at..]);
    } else {
      assert ops[at..] == [];
    }
    assert r.out + [] == r.out;
  }

  lemma WholePanics(c: Conv, ops: seq<WasmOp>, at: nat)
    requires at <= |ops| && ConvertAll(c, ops[..at]).Panic?
    ensures ConvertAll(c, ops).Panic?
  {
    assert ops == ops[..at] + ops[at..];
    ConvertConcat(c, ops[..at], ops[at..]);
  }

  /** The run up to position `at` of the operators. */
  ghost predicate SoFar(c: Conv, ops: seq<WasmOp>, at: nat, v: Conv, emitted: seq<Op>) {
    at <= |ops| && ConvertAll(c, ops[..at]) == Ok(v, emitted)
  }

  /** One more stretch of the run. */
  lemma Advance(c: Conv, ops: seq<WasmOp>, from: nat, to: nat, v: Conv, emitted: seq<Op>, v': Conv, chunk: seq<Op>)
    requires SoFar(c, ops, from, v, emitted) && from <= to <= |ops|
    requires ConvertAll(v, ops[from..to]) == Ok(v', chunk)
    ensures SoFar(c, ops, to, v', emitted + chunk)
  {
    Resume(c, ops, from, to);
  }

  /** On a body that converts to its end, the run can neither panic nor lack operators. */
  lemma NoFailure(c: Conv, ops: seq<WasmOp>, from: nat, to: nat, v: Conv, emitted: seq<Op>)
    requires SoFar(c, ops, from, v, emitted) && from <= to <= |ops|
    requires ConvertAll(c, ops).Ok? && ConvertAll(c, ops).conv.done
    ensures ConvertAll(v, ops[from..to]).Ok?
    ensures to == |ops| ==> ConvertAll(v, ops[from..to]).conv.done
  {
    Resume(c, ops, from, to);
    if ConvertAll(v, ops[from..to]).Panic? {
      WholePanics(c, ops, to);
    } else if to == |ops| {
      WholeRun(c, ops, to);
    }
  }

  lemma AtEnd(c: Conv, ops: seq<WasmOp>, at: nat, v: Conv, emitted: seq<Op>)
    requires SoFar(c, ops, at, v, emitted) && v.done
    ensures ConvertAll(c, ops) == Ok(v, emitted)
  {
    WholeRun(c, ops, at);
  }

  /** `translate_wasm` flattens the iterator's chunks.  On a validated body the iterator runs to
      its end without an error, and the chunks make up the compiled stream, to which
      `MeaningPreserved` applies. */
  method Collect(f: Func, ghost rule: LoopRule) returns (p: Prog)
    requires ValidFunc(f, rule)
    ensures Compile(f) == Some(p)
  {
    var ops := Flatten(f.body) + [OpEnd];
    CompileEnds(f, rule);
    assert SoFar(Init(f), ops, 0, Init(f), []);
    hide ConvertAll, Flatten, ValidFunc, Init, LocalConsts, SoFar;
    var it := new Iterator(f, ops);
    var first := it.Next();
    var out := first.ops;
    ghost var emitted: seq<Op> := [];
    while !it.isDone
      invariant it.Valid() && fresh(it) && it.input == ops && it.constsToEmit == None
      invariant out == LocalConsts(f.locals) + emitted
      invariant SoFar(Init(f), ops, it.pos, it.View(), emitted)
      decreases |ops| - it.pos, !it.isDone
    {
      ghost var at, v := it.pos, it.View();
      var item := it.Next();
      NoFailure(Init(f), ops, at, it.pos, v, emitted);
      if item.Chunk? {
        Advance(Init(f), ops, at, it.pos, v, emitted, it.View(), item.ops);
        ConcatAssoc(LocalConsts(f.locals), emitted, item.ops);
        out, emitted := out + item.ops, emitted + item.ops;
      } else {
        Advance(Init(f), ops, at, it.pos, v, emitted, it.View(), []);
        assert emitted + [] == emitted;
      }
    }
    AtEnd(Init(f), ops, it.pos, it.View(), emitted);
    return Prog(out, f.results);
  }

  lemma CompileEnds(f: Func, rule: LoopRule)
    requires ValidFunc(f, rule)
    ensures var r := ConvertAll(Init(f), Flatten(f.body) + [OpEnd]); r.Ok? && r.conv.done
  {
    InitInStep(f, rule);
    CodeOk(Init(f), FuncCtx(f, rule), f.body, []);
    FuncEnd(f, rule, ConvertCode(Init(f), f.body).conv, CheckCode(FuncCtx(f, rule), f.body, []));
    CompileAgrees(f);
  }
}
