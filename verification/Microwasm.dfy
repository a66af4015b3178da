/** The target language: Microwasm operators and the one-stack machine that the doc comments of
    `Operator` describe. */
module Microwasm {
  import opened Wasm

  datatype Option<+T> = None | Some(value: T)

  function Max(a: nat, b: nat): nat {
    if a < b then b else a
  }

  datatype NameTag = Header | Else | End

  /** `WasmLabel`. */
  datatype Name = Name(id: nat, tag: NameTag)

  datatype Target = ToReturn | To(name: Name)

  /** An inclusive range of depths; depth 0 is the top of the stack. */
  datatype Range = Range(lo: nat, hi: nat)

  /** `BrTargetDrop`. */
  datatype TargetDrop = TargetDrop(target: Target, drop: Option<Range>)

  datatype Op =
    | MTrap
    | MBlock(name: Name, params: seq<Ty>, backwards: bool, numCallers: Option<nat>)
    | MLabel(name: Name)
    | MBr(target: Target)
    | MBrIf(thn: TargetDrop, els: TargetDrop)
    | MBrTable(targets: seq<TargetDrop>, default: TargetDrop)
    | MDrop(range: Range)
    | MSelect
    | MPick(depth: nat)
    | MSwap(depth: nat)
    | MConst(v: Val)
    | MPlain(op: PlainOp)

  /** `Operator::end`, `Operator::block` and `Operator::loop_`. */
  function EndDecl(params: seq<Ty>, name: Name): Op {
    MBlock(name, params, false, None)
  }
  function BlockDecl(params: seq<Ty>, name: Name): Op {
    MBlock(name, params, false, Some(1))
  }
  function LoopDecl(params: seq<Ty>, name: Name): Op {
    MBlock(name, params, true, None)
  }

  /** A whole function: its operators and its result types. */
  datatype Prog = Prog(ops: seq<Op>, results: seq<Ty>)

  // ---------------------------------------------------------------- label lookup

  function FindLabel(ops: seq<Op>, name: Name): (i: nat)
    ensures i <= |ops|
    ensures i < |ops| ==> ops[i] == MLabel(name)
    ensures forall j :: 0 <= j < i ==> ops[j] != MLabel(name)
  {
    if ops == [] then 0
    else if ops[0] == MLabel(name) then 0
    else
      var r := FindLabel(ops[1..], name);
      assert forall j :: 0 < j < 1 + r ==> ops[j] == ops[1..][j - 1];
      1 + r
  }

  predicate Declares(op: Op, name: Name) {
    op.MBlock? && op.name == name
  }

  function FindDecl(ops: seq<Op>, name: Name): (i: nat)
    ensures i <= |ops|
    ensures i < |ops| ==> Declares(ops[i], name)
    ensures forall j :: 0 <= j < i ==> !Declares(ops[j], name)
  {
    if ops == [] then 0
    else if Declares(ops[0], name) then 0
    else
      var r := FindDecl(ops[1..], name);
      assert forall j :: 0 < j < 1 + r ==> ops[j] == ops[1..][j - 1];
      1 + r
  }

  lemma FirstLabel(ops: seq<Op>, name: Name, i: nat)
    requires i < |ops| && ops[i] == MLabel(name) && forall j :: 0 <= j < i ==> ops[j] != MLabel(name)
    ensures FindLabel(ops, name) == i
  {
  }

  lemma FirstDecl(ops: seq<Op>, name: Name, i: nat)
    requires i < |ops| && Declares(ops[i], name) && forall j :: 0 <= j < i ==> !Declares(ops[j], name)
    ensures FindDecl(ops, name) == i
  {
  }

  // ---------------------------------------------------------------- the machine

  datatype State = Running(pc: nat, stack: seq<Val>, store: Store) | Done(o: Outcome)

  /** Removing the depths `lo..=hi`. */
  function DropRange<T>(s: seq<T>, lo: nat, hi: nat): seq<T>
    requires lo <= hi < |s|
  {
    s[..|s| - 1 - hi] + s[|s| - lo..]
  }

  function ApplyDrop<T>(s: seq<T>, d: Option<Range>): Option<seq<T>> {
    match d
    case None => Some(s)
    case Some(r) => if r.lo <= r.hi < |s| then Some(DropRange(s, r.lo, r.hi)) else None
  }

  /** Entering a block passes as many values off the top as it declares; they must have the
      declared types.  Whatever remains below is discarded. */
  function Jump(p: Prog, t: Target, stack: seq<Val>, store: Store): State {
    match t
    case ToReturn =>
      if |p.results| <= |stack| && TypesOf(Top(stack, |p.results|)) == p.results
      then Done(Outcome.Return(Top(stack, |p.results|), store)) else Done(Stuck)
    case To(name) =>
      var i, d := FindLabel(p.ops, name), FindDecl(p.ops, name);
      if i < |p.ops| && d < |p.ops|
         && |p.ops[d].params| <= |stack| && TypesOf(Top(stack, |p.ops[d].params|)) == p.ops[d].params
      then Running(i + 1, Top(stack, |p.ops[d].params|), store) else Done(Stuck)
  }

  function JumpDrop(p: Prog, t: TargetDrop, stack: seq<Val>, store: Store): State {
    match ApplyDrop(stack, t.drop)
    case None => Done(Stuck)
    case Some(s) => Jump(p, t.target, s, store)
  }

  /** One operator.  Running into a label without a branch is an error. */
  function Step(sem: Semantics, p: Prog, s: State): State {
    if s.Done? then s
    else if s.pc >= |p.ops| then Done(Stuck)
    else
      var n := |s.stack|;
      match p.ops[s.pc]
      case MTrap => Done(Trap)
      case MBlock(_, _, _, _) => s.(pc := s.pc + 1)
      case MLabel(_) => Done(Stuck)
      case MBr(t) => Jump(p, t, s.stack, s.store)
      case MBrIf(thn, els) =>
        if n == 0 then Done(Stuck) else
        JumpDrop(p, if s.stack[n - 1].bits != 0 then thn else els, s.stack[..n - 1], s.store)
      case MBrTable(ts, d) =>
        if n == 0 then Done(Stuck) else
        var k := s.stack[n - 1].bits;
        JumpDrop(p, if k < |ts| then ts[k] else d, s.stack[..n - 1], s.store)
      case MDrop(r) =>
        if r.lo <= r.hi < n then Running(s.pc + 1, DropRange(s.stack, r.lo, r.hi), s.store) else Done(Stuck)
      case MSelect =>
        if n < 3 then Done(Stuck) else
        Running(s.pc + 1, s.stack[..n - 3] + [if s.stack[n - 1].bits != 0 then s.stack[n - 3] else s.stack[n - 2]],
                s.store)
      case MPick(d) =>
        if d < n then Running(s.pc + 1, s.stack + [s.stack[n - 1 - d]], s.store) else Done(Stuck)
      case MSwap(d) =>
        if d < n then
          Running(s.pc + 1, s.stack[n - 1 := s.stack[n - 1 - d]][n - 1 - d := s.stack[n - 1]], s.store)
        else Done(Stuck)
      case MConst(v) => Running(s.pc + 1, s.stack + [v], s.store)
      case MPlain(op) =>
        if |op.inputs| > n then Done(Stuck) else
        match RunPlain(sem, op, s.store, Top(s.stack, |op.inputs|))
        case Fault => Done(Trap)
        case Next(st, rs) => Running(s.pc + 1, s.stack[..n - |op.inputs|] + rs, st)
  }

  function Steps(sem: Semantics, p: Prog, k: nat, s: State): State
    decreases k
  {
    if k == 0 then s else Steps(sem, p, k - 1, Step(sem, p, s))
  }

  lemma {:induction false} StepsAdd(sem: Semantics, p: Prog, j: nat, k: nat, s: State)
    ensures Steps(sem, p, j + k, s) == Steps(sem, p, k, Steps(sem, p, j, s))
    decreases j
  {
    hide Step;
    if j > 0 {
      StepsAdd(sem, p, j - 1, k, Step(sem, p, s));
    }
  }

  lemma {:induction false} DoneStays(sem: Semantics, p: Prog, k: nat, s: State)
    requires s.Done?
    ensures Steps(sem, p, k, s) == s
    decreases k
  {
    if k > 0 {
      assert Step(sem, p, s) == s;
      DoneStays(sem, p, k - 1, s);
    }
  }
}
