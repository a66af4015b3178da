/** The block driver: one pass over an operator stream that keeps a table of declared blocks,
    counts callers, deletes table entries it believes nobody needs any more and drops the code of
    blocks that no emitted operator branches to. */
module Driver {
  import opened Wasm
  import opened Microwasm
  import opened ConverterNames
  import opened Converter
  import opened Preservation
  import opened Streams

  /** Whether a block has a calling convention: none yet, fixed places, or the virtual stack of its
      one caller. */
  datatype Cc = NoCc | Fixed | Virtual

  /** A table entry; of the calling convention only its kind. */
  datatype BlockInfo = BlockInfo(
    params: nat, numCallers: Option<nat>, backwards: bool, isNext: bool, actual: nat, cc: Cc)
  {
    predicate Single() {
      numCallers == Some(1) && !backwards
    }

    /** `should_serialize_args`. */
    predicate Serializes() {
      cc.NoCc? && !Single()
    }
  }

  type Blocks = map<Target, BlockInfo>

  function Declare(op: Op): BlockInfo
    requires op.MBlock?
  {
    BlockInfo(|op.params|, op.numCallers, op.backwards, false, 0, NoCc)
  }

  function Targets(op: Op): (r: set<Target>)
    ensures forall n :: To(n) in r <==> Calls(op, n)
  {
    match op
    case MBr(t) => {t}
    case MBrIf(a, b) => {a.target, b.target}
    case MBrTable(ts, d) => {d.target} + set i | 0 <= i < |ts| :: ts[i].target
    case _ => {}
  }

  /** What became of an operator: skipped, or emitted with no jump to the targets in `falls`,
      which are reached by running off its end. */
  datatype Fate = Skipped | Emitted(falls: set<Target>)

  // ---------------------------------------------------------------- which operators are emitted

  /** The first operator is emitted; an operator that is not a label shares the fate of the one
      before it; a label is emitted when an emitted operator before it branches to it. */
  ghost predicate Kept(ops: seq<Op>, i: nat)
    requires i < |ops|
    decreases i
  {
    if ops[i].MLabel? then exists p :: 0 <= p < i && Calls(ops[p], ops[i].name) && Kept(ops, p)
    else i == 0 || Kept(ops, i - 1)
  }

  /** Inside a loop whose code is entered through its header only, something is kept only if the
      header is. */
  lemma {:induction false} HeaderKept(ops: seq<Op>, q: nat, e: nat, i: nat)
    requires q < i < e <= |ops| && Sealed(ops, q, e) && Kept(ops, i)
    ensures Kept(ops, q)
    decreases i
  {
    if ops[i].MLabel? {
      var p :| 0 <= p < i && Calls(ops[p], ops[i].name) && Kept(ops, p);
      HeaderKept(ops, q, e, p);
    } else if q < i - 1 {
      HeaderKept(ops, q, e, i - 1);
    }
  }

  /** A kept operator never branches to a label that is not kept, forwards or backwards. */
  lemma CallsKept(ops: seq<Op>, i: nat, q: nat)
    requires WellFormed(ops) && i < |ops| && q < |ops| && Kept(ops, i)
    requires ops[q].MLabel? && Calls(ops[i], ops[q].name)
    ensures Kept(ops, q)
  {
    hide OneCaller, FreshElse, KnownCounts, Guarded, DeclaredFirst, Unique;
    if q < i {
      assert LoopRegion(ops, q, i);
      var e :| i < e <= |ops| && Sealed(ops, q, e);
      HeaderKept(ops, q, e, i);
    }
  }

  // ---------------------------------------------------------------- dead-block elimination

  /** Skipped operators replaced by traps; block declarations are honoured everywhere. */
  ghost function Prune(ops: seq<Op>): (r: seq<Op>)
    ensures |r| == |ops|
  {
    seq(|ops|, i requires 0 <= i < |ops| => if Kept(ops, i) || ops[i].MBlock? then ops[i] else MTrap)
  }

  lemma PruneUnique(ops: seq<Op>)
    requires Unique(ops)
    ensures Unique(Prune(ops))
  {
    var r := Prune(ops);
    forall j, k | 0 <= j < k < |r|
      ensures Distinct(r[j], r[k])
    {
      assert Distinct(ops[j], ops[k]);
    }
  }

  lemma PruneDecl(ops: seq<Op>, n: Name)
    requires Unique(ops)
    ensures FindDecl(Prune(ops), n) == FindDecl(ops, n)
  {
    var r := Prune(ops);
    PruneUnique(ops);
    var i, j := FindDecl(ops, n), FindDecl(r, n);
    if i < |ops| {
      assert r[i] == ops[i];
      FoundDecl(r, i, n);
    }
  }

  lemma PruneLabel(ops: seq<Op>, i: nat, n: Name)
    requires WellFormed(ops) && i < |ops| && Kept(ops, i) && Calls(ops[i], n)
    ensures FindLabel(Prune(ops), n) == FindLabel(ops, n)
    ensures FindLabel(ops, n) < |ops| ==> Kept(ops, FindLabel(ops, n))
  {
    hide Calls, OneCaller, FreshElse, KnownCounts, Guarded, BackEdges, DeclaredFirst;
    var r := Prune(ops);
    PruneUnique(ops);
    var q := FindLabel(ops, n);
    if q < |ops| {
      CallsKept(ops, i, q);
      assert r[q] == ops[q];
      FoundLabel(r, q, n);
    }
  }

  ghost predicate OnKept(ops: seq<Op>, s: State) {
    s.Running? ==> s.pc == |ops| || (s.pc < |ops| && Kept(ops, s.pc))
  }

  lemma AfterLabel(ops: seq<Op>, q: nat)
    requires Guarded(false, ops) && q < |ops| && Kept(ops, q) && !Terminator(ops[q])
    ensures q + 1 == |ops| || (q + 1 < |ops| && Kept(ops, q + 1))
  {
    assert q + 1 < |ops| ==> !ops[q + 1].MLabel?;
  }

  lemma JumpPruned(p: Prog, i: nat, t: Target, stack: seq<Val>, store: Store)
    requires WellFormed(p.ops) && i < |p.ops| && Kept(p.ops, i)
    requires t.To? ==> Calls(p.ops[i], t.name)
    ensures Jump(Prog(Prune(p.ops), p.results), t, stack, store) == Jump(p, t, stack, store)
    ensures OnKept(p.ops, Jump(p, t, stack, store))
  {
    hide WellFormed, Unique, DeclaredFirst, BackEdges, OneCaller, FreshElse, KnownCounts, Calls, Kept;
    WellFormedGuarded(p.ops);
    if t.To? {
      PruneLabel(p.ops, i, t.name);
      PruneDecl(p.ops, t.name);
      var q, d := FindLabel(p.ops, t.name), FindDecl(p.ops, t.name);
      if d < |p.ops| {
        assert Prune(p.ops)[d] == p.ops[d];
      }
      if q < |p.ops| {
        AfterLabel(p.ops, q);
      }
    }
  }

  lemma JumpDropPruned(p: Prog, i: nat, t: TargetDrop, stack: seq<Val>, store: Store)
    requires WellFormed(p.ops) && i < |p.ops| && Kept(p.ops, i)
    requires t.target.To? ==> Calls(p.ops[i], t.target.name)
    ensures JumpDrop(Prog(Prune(p.ops), p.results), t, stack, store) == JumpDrop(p, t, stack, store)
    ensures OnKept(p.ops, JumpDrop(p, t, stack, store))
  {
    match ApplyDrop(stack, t.drop)
    case None =>
    case Some(s) => JumpPruned(p, i, t.target, s, store);
  }

  lemma StepPruned(sem: Semantics, p: Prog, s: State)
    requires WellFormed(p.ops) && OnKept(p.ops, s)
    ensures Step(sem, Prog(Prune(p.ops), p.results), s) == Step(sem, p, s)
    ensures OnKept(p.ops, Step(sem, p, s))
  {
    hide WellFormed, Jump, JumpDrop, RunPlain;
    if s.Running? && s.pc < |p.ops| {
      assert Prune(p.ops)[s.pc] == p.ops[s.pc];
      WellFormedGuarded(p.ops);
      if !Terminator(p.ops[s.pc]) {
        AfterLabel(p.ops, s.pc);
      }
      var n := |s.stack|;
      match p.ops[s.pc]
      case MBr(t) => JumpPruned(p, s.pc, t, s.stack, s.store);
      case MBrIf(a, b) =>
        if n > 0 {
          JumpDropPruned(p, s.pc, if s.stack[n - 1].bits != 0 then a else b, s.stack[..n - 1], s.store);
        }
      case MBrTable(ts, d) =>
        if n > 0 {
          var k := s.stack[n - 1].bits;
          JumpDropPruned(p, s.pc, if k < |ts| then ts[k] else d, s.stack[..n - 1], s.store);
        }
      case _ =>
    }
  }

  lemma WellFormedGuarded(ops: seq<Op>)
    requires WellFormed(ops)
    ensures Guarded(false, ops) && Unique(ops)
  {
  }

  /** Dropping the code of blocks without kept callers changes no run, and no run ever reaches an
      operator that was dropped. */
  lemma {:induction false} PruningPreserves(sem: Semantics, p: Prog, k: nat, s: State)
    requires WellFormed(p.ops) && OnKept(p.ops, s)
    ensures Steps(sem, Prog(Prune(p.ops), p.results), k, s) == Steps(sem, p, k, s)
    ensures OnKept(p.ops, Steps(sem, p, k, s))
    decreases k
  {
    if k > 0 {
      StepPruned(sem, p, s);
      PruningPreserves(sem, p, k - 1, Step(sem, p, s));
    }
  }

  /** Conversion followed by dead-block elimination preserves the meaning of validated bodies. */
  lemma PrunedMeaning(sem: Semantics, f: Func, args: seq<Val>, store: Store, o: Outcome)
    requires ValidFunc(f, SafeLoops) && TypesOf(args) == f.params
    ensures Compile(f).Some?
    ensures var p := Compile(f).value;
            WasmGives(sem, f, args, store, o) <==> MicrowasmGives(sem, Prog(Prune(p.ops), p.results), args, store, o)
  {
    StreamWellFormed(f, SafeLoops);
    MeaningPreserved(sem, f, args, store, o);
    hide WellFormed, Compile, ValidFunc, ExecFunc;
    var p := Compile(f).value;
    var s := Running(0, args, store);
    FirstKept(p.ops);
    forall k: nat
      ensures Steps(sem, Prog(Prune(p.ops), p.results), k, s) == Steps(sem, p, k, s)
    {
      PruningPreserves(sem, p, k, s);
    }
  }

  lemma FirstKept(ops: seq<Op>)
    requires WellFormed(ops)
    ensures ops != [] ==> !ops[0].MLabel? && Kept(ops, 0)
  {
    assert ops != [] ==> !ops[0].MLabel?;
  }

  // ---------------------------------------------------------------- the block table

  ghost predicate Called(ops: seq<Op>, i: nat, n: Name)
    requires i <= |ops|
  {
    exists p :: 0 <= p < i && Calls(ops[p], n) && Kept(ops, p)
  }

  /** The label was passed before `i`, and was emitted (or not). */
  ghost predicate Passed(ops: seq<Op>, i: nat, n: Name, kept: bool)
    requires i <= |ops|
  {
    exists q :: 0 <= q < i && ops[q] == MLabel(n) && Kept(ops, q) == kept
  }

  predicate LabelAt(ops: seq<Op>, i: nat, n: Name) {
    i < |ops| && ops[i] == MLabel(n)
  }

  /** The entry of the block declared by `op` once the operators before `i` are done: it is gone
      only after its label was emitted and only if it has no backward callers, its caller count
      is positive and it has a convention exactly when an emitted operator branches to it, the
      convention is virtual only if that is its one caller, and it is marked as coming next
      only if it is, or if its label was skipped. */
  ghost predicate EntryOk(ops: seq<Op>, i: nat, next: nat, op: Op, blocks: Blocks)
    requires i <= |ops| && op.MBlock?
  {
    var t := To(op.name);
    && (t in blocks <==> op.backwards || !Passed(ops, i, op.name, true))
    && (t in blocks ==>
          var b := blocks[t];
          && b.backwards == op.backwards && b.numCallers == op.numCallers && b.params == |op.params|
          && (b.actual > 0 <==> Called(ops, i, op.name)) && (b.cc.NoCc? <==> !Called(ops, i, op.name))
          && (b.cc.Virtual? ==> b.Single())
          && (b.isNext ==> LabelAt(ops, i, op.name) || LabelAt(ops, next, op.name) || Passed(ops, i, op.name, false)))
  }

  ghost predicate TableOk(ops: seq<Op>, i: nat, next: nat, blocks: Blocks) {
    && i <= |ops|
    && ToReturn in blocks && !blocks[ToReturn].isNext && blocks[ToReturn].cc.Fixed? &&
       blocks[ToReturn].numCallers == None
    && (forall j :: 0 <= j < i && ops[j].MBlock? ==> EntryOk(ops, i, next, ops[j], blocks))
  }

  lemma CalledStep(ops: seq<Op>, i: nat, n: Name)
    requires i < |ops|
    ensures Called(ops, i + 1, n) <==> Called(ops, i, n) || (Kept(ops, i) && Calls(ops[i], n))
  {
  }

  lemma PassedStep(ops: seq<Op>, i: nat, n: Name, kept: bool)
    requires i < |ops|
    ensures Passed(ops, i + 1, n, kept) <==> Passed(ops, i, n, kept) || (ops[i] == MLabel(n) && Kept(ops, i) == kept)
  {
  }

  lemma NotPassed(ops: seq<Op>, i: nat, n: Name)
    requires Unique(ops) && LabelAt(ops, i, n)
    ensures !Passed(ops, i, n, true) && !Passed(ops, i, n, false)
  {
    forall q | 0 <= q < i
      ensures ops[q] != MLabel(n)
    {
      assert Distinct(ops[q], ops[i]);
    }
  }

  /** No entry a branch needs is ever missing, and `isNext` can be trusted. */
  lemma LookupOk(ops: seq<Op>, i: nat, blocks: Blocks, n: Name)
    requires WellFormed(ops) && i < |ops| && Kept(ops, i) && Calls(ops[i], n) && TableOk(ops, i, i + 1, blocks)
    ensures To(n) in blocks
    ensures blocks[To(n)].isNext ==> LabelAt(ops, i + 1, n)
  {
    hide OneCaller, FreshElse, KnownCounts, Guarded, BackEdges;
    assert DeclaredBy(ops, i, n);
    var j :| 0 <= j < i && j < |ops| && Declares(ops[j], n);
    assert EntryOk(ops, i, i + 1, ops[j], blocks);
    if Passed(ops, i, n, true) && !ops[j].backwards {
      var q :| 0 <= q < i && ops[q] == MLabel(n) && Kept(ops, q) == true;
      ForwardOnly(ops, j, q, i);
    }
    if Passed(ops, i, n, false) {
      var q :| 0 <= q < i && ops[q] == MLabel(n) && Kept(ops, q) == false;
      CallsKept(ops, i, q);
    }
  }

  /** A label that comes next, or that is reached, has an entry. */
  lemma LabelFound(ops: seq<Op>, i: nat, next: nat, blocks: Blocks, k: nat)
    requires WellFormed(ops) && k < |ops| && ops[k].MLabel? && (k == i || k == i + 1) && TableOk(ops, i, next, blocks)
    ensures To(ops[k].name) in blocks
    ensures k == i ==> (blocks[To(ops[k].name)].actual > 0 <==> Kept(ops, i))
    ensures k == i && Kept(ops, i) ==> !blocks[To(ops[k].name)].cc.NoCc?
  {
    hide Calls, BackEdges, OneCaller, FreshElse, KnownCounts;
    var n := ops[k].name;
    assert DeclaredBy(ops, k, n);
    var j :| 0 <= j < k && j < |ops| && Declares(ops[j], n);
    assert GuardedAt(false, ops, k);
    assert j < i;
    assert EntryOk(ops, i, next, ops[j], blocks);
    NotPassed(ops, k, n);
  }

  /** A block with one announced caller is called by one conditional branch and nothing else. */
  lemma SingleCaller(ops: seq<Op>, j: nat, i: nat, n: Name)
    requires WellFormed(ops) && j < |ops| && i < |ops| && Declares(ops[j], n) && ops[j].numCallers == Some(1)
    requires Calls(ops[i], n)
    ensures ops[i].MBrIf? && !Called(ops, i, n)
  {
    var k :| OnlyCaller(ops, n, k);
    assert i == k;
  }

  /** What the table says about the target of an emitted branch: it has no convention yet or a fixed
      one; only a conditional branch leads to a block with one caller, which then has none. */
  lemma TargetConvention(ops: seq<Op>, i: nat, blocks: Blocks, t: Target)
    requires WellFormed(ops) && i < |ops| && Kept(ops, i) && t in Targets(ops[i]) && TableOk(ops, i, i + 1, blocks)
    ensures t in blocks && !blocks[t].cc.Virtual?
    ensures !ops[i].MBrIf? ==> blocks[t].numCallers == None
    ensures ops[i].MBrIf? && t == ops[i].els.target ==> blocks[t].Single() && blocks[t].cc.NoCc?
  {
    if t.To? {
      var n := t.name;
      LookupOk(ops, i, blocks, n);
      assert DeclaredBy(ops, i, n);
      var j :| 0 <= j < i && j < |ops| && Declares(ops[j], n);
      assert EntryOk(ops, i, i + 1, ops[j], blocks);
      if ops[j].numCallers == Some(1) {
        SingleCaller(ops, j, i, n);
      }
      if ops[i].MBrIf? && t == ops[i].els.target {
        ElseDecl(ops, i, j);
      }
    } else if ops[i].MBrIf? {
      assert ops[i].els.target.To?;
    }
  }

  lemma ElseDecl(ops: seq<Op>, i: nat, j: nat)
    requires WellFormed(ops) && i < |ops| && j < |ops| && ops[i].MBrIf? && ops[i].els.target.To?
    requires Declares(ops[j], ops[i].els.target.name)
    ensures ops[j].numCallers == Some(1) && !ops[j].backwards
  {
    hide Calls, OneCaller, KnownCounts, Guarded, BackEdges, DeclaredFirst;
    var n := ops[i].els.target.name;
    assert HasSingleDecl(ops, n);
    var k :| 0 <= k < |ops| && SingleDecl(ops[k], n);
    SameDecl(ops, k, j);
  }

  function Peeked(ops: seq<Op>, i: nat, blocks: Blocks): Blocks
    requires i + 1 < |ops| && ops[i + 1].MLabel? ==> To(ops[i + 1].name) in blocks
  {
    if i + 1 < |ops| && ops[i + 1].MLabel? then
      var t := To(ops[i + 1].name);
      blocks[t := blocks[t].(isNext := true)]
    else blocks
  }

  lemma PeekStep(ops: seq<Op>, i: nat, blocks: Blocks)
    requires WellFormed(ops) && i < |ops| && TableOk(ops, i, i, blocks)
    ensures i + 1 < |ops| && ops[i + 1].MLabel? ==> To(ops[i + 1].name) in blocks
    ensures TableOk(ops, i, i + 1, Peeked(ops, i, blocks))
  {
    hide WellFormed, Called, Passed, Kept, Calls;
    if i + 1 < |ops| && ops[i + 1].MLabel? {
      LabelFound(ops, i, i, blocks, i + 1);
    }
    var out := Peeked(ops, i, blocks);
    forall j | 0 <= j < i && ops[j].MBlock?
      ensures EntryOk(ops, i, i + 1, ops[j], out)
    {
      assert EntryOk(ops, i, i, ops[j], blocks);
    }
  }

  /** Callers of `targets` are counted and these have conventions, virtual ones only for blocks with
      one caller; nothing else changes. */
  ghost predicate Assigned(blocks: Blocks, out: Blocks, targets: set<Target>) {
    && out.Keys == blocks.Keys
    && forall t :: t in blocks ==>
         if t in targets then
           && out[t] == blocks[t].(actual := out[t].actual, cc := out[t].cc)
           && out[t].actual > 0 && !out[t].cc.NoCc? && (out[t].cc.Virtual? ==> blocks[t].Single())
         else out[t] == blocks[t]
  }

  /** Caller counts of `targets` go up, nothing else changes. */
  ghost predicate Counted(blocks: Blocks, out: Blocks, targets: set<Target>) {
    && out.Keys == blocks.Keys
    && forall t :: t in blocks ==>
         && out[t] == blocks[t].(actual := out[t].actual)
         && (if t in targets then out[t].actual > 0 else out[t].actual == blocks[t].actual)
  }

  lemma CountStep(ops: seq<Op>, i: nat, blocks: Blocks, out: Blocks)
    requires Unique(ops) && i < |ops| && !Named(ops[i]) && Kept(ops, i)
    requires TableOk(ops, i, i + 1, blocks) && Assigned(blocks, out, Targets(ops[i]))
    ensures TableOk(ops, i + 1, i + 1, out)
  {
    hide Kept, Calls, Targets, Called, Passed;
    forall j | 0 <= j < i + 1 && ops[j].MBlock?
      ensures EntryOk(ops, i + 1, i + 1, ops[j], out)
    {
      var n := ops[j].name;
      assert EntryOk(ops, i, i + 1, ops[j], blocks);
      CalledStep(ops, i, n);
      PassedStep(ops, i, n, true);
      PassedStep(ops, i, n, false);
    }
  }

  lemma NotCalledBefore(ops: seq<Op>, i: nat)
    requires WellFormed(ops) && i < |ops| && ops[i].MBlock?
    ensures !Called(ops, i + 1, ops[i].name)
    ensures !Passed(ops, i + 1, ops[i].name, true) && !Passed(ops, i + 1, ops[i].name, false)
  {
    var n := ops[i].name;
    forall p | 0 <= p <= i
      ensures !Calls(ops[p], n) && ops[p] != MLabel(n)
    {
      forall j | 0 <= j < p && Declares(ops[j], n)
        ensures false
      {
        SameDecl(ops, i, j);
      }
      assert !DeclaredBy(ops, p, n);
    }
  }

  lemma DeclareStep(ops: seq<Op>, i: nat, next: nat, blocks: Blocks)
    requires WellFormed(ops) && i < |ops| && ops[i].MBlock? && (next == i || next == i + 1)
    requires TableOk(ops, i, next, blocks)
    ensures TableOk(ops, i + 1, i + 1, blocks[To(ops[i].name) := Declare(ops[i])])
  {
    hide WellFormed, Kept, Calls, Called, Passed, EntryOk, Guarded;
    NotCalledBefore(ops, i);
    WellFormedGuarded(ops);
    DeclaredEntry(ops, i, blocks);
    var out := blocks[To(ops[i].name) := Declare(ops[i])];
    forall j | 0 <= j < i + 1 && ops[j].MBlock?
      ensures EntryOk(ops, i + 1, i + 1, ops[j], out)
    {
      if j < i {
        assert Distinct(ops[j], ops[i]);
        OlderEntry(ops, i, next, blocks, ops[j], out);
      }
    }
  }

  lemma DeclaredEntry(ops: seq<Op>, i: nat, blocks: Blocks)
    requires i < |ops| && ops[i].MBlock? && !Called(ops, i + 1, ops[i].name)
    requires !Passed(ops, i + 1, ops[i].name, true) && !Passed(ops, i + 1, ops[i].name, false)
    ensures EntryOk(ops, i + 1, i + 1, ops[i], blocks[To(ops[i].name) := Declare(ops[i])])
  {
    hide Called, Passed;
  }

  lemma OlderEntry(ops: seq<Op>, i: nat, next: nat, blocks: Blocks, op: Op, out: Blocks)
    requires i < |ops| && ops[i].MBlock? && op.MBlock? && op.name != ops[i].name && (next == i || next == i + 1)
    requires EntryOk(ops, i, next, op, blocks) && out == blocks[To(ops[i].name) := Declare(ops[i])]
    ensures EntryOk(ops, i + 1, i + 1, op, out)
  {
    NoCall(ops[i], op.name);
    CalledStep(ops, i, op.name);
    PassedStep(ops, i, op.name, true);
    PassedStep(ops, i, op.name, false);
    hide Kept, Calls, Called, Passed;
  }

  lemma NoCall(op: Op, n: Name)
    requires Named(op)
    ensures !Calls(op, n)
  {
  }

  /** A skipped operator that declares nothing leaves the table as it is. */
  lemma SkipStep(ops: seq<Op>, i: nat, next: nat, blocks: Blocks)
    requires WellFormed(ops) && i < |ops| && !ops[i].MBlock? && !Kept(ops, i) && (next == i || next == i + 1)
    requires TableOk(ops, i, next, blocks)
    ensures TableOk(ops, i + 1, i + 1, blocks)
  {
    hide Kept, Calls, Called, Passed;
    forall j | 0 <= j < i + 1 && ops[j].MBlock?
      ensures EntryOk(ops, i + 1, i + 1, ops[j], blocks)
    {
      var n := ops[j].name;
      assert EntryOk(ops, i, next, ops[j], blocks);
      CalledStep(ops, i, n);
      PassedStep(ops, i, n, true);
      PassedStep(ops, i, n, false);
    }
  }

  function Entered(blocks: Blocks, t: Target): Blocks
    requires t in blocks
  {
    if blocks[t].backwards then blocks[t := blocks[t].(isNext := false)] else blocks - {t}
  }

  lemma EnterEntry(ops: seq<Op>, i: nat, blocks: Blocks, op: Op)
    requires i < |ops| && ops[i].MLabel? && Kept(ops, i) && op.MBlock?
    requires EntryOk(ops, i, i + 1, op, blocks) && To(ops[i].name) in blocks
    requires op.name == ops[i].name ==> !Passed(ops, i, op.name, true) && !Passed(ops, i, op.name, false)
    ensures EntryOk(ops, i + 1, i + 1, op, Entered(blocks, To(ops[i].name)))
  {
    hide Kept, Calls, Called, Passed;
    NoCall(ops[i], op.name);
    CalledStep(ops, i, op.name);
    PassedStep(ops, i, op.name, true);
    PassedStep(ops, i, op.name, false);
  }

  lemma EnterStep(ops: seq<Op>, i: nat, blocks: Blocks)
    requires WellFormed(ops) && i < |ops| && ops[i].MLabel? && Kept(ops, i)
    requires TableOk(ops, i, i + 1, blocks) && To(ops[i].name) in blocks
    ensures TableOk(ops, i + 1, i + 1, Entered(blocks, To(ops[i].name)))
  {
    hide Kept, EntryOk, WellFormed, Passed, Unique, Guarded;
    WellFormedGuarded(ops);
    NotPassed(ops, i, ops[i].name);
    var out := Entered(blocks, To(ops[i].name));
    forall j | 0 <= j < i && ops[j].MBlock?
      ensures EntryOk(ops, i + 1, i + 1, ops[j], out)
    {
      EnterEntry(ops, i, blocks, ops[j]);
    }
  }

  // ---------------------------------------------------------------- the pass

  /** The fate of operator `i` is right: it is emitted exactly when it is kept, and it falls
      through to a branch target exactly when that target's label comes next. */
  ghost predicate FateOk(ops: seq<Op>, i: nat, fate: Fate)
    requires i < |ops|
  {
    && (fate.Emitted? <==> Kept(ops, i))
    && (fate.Emitted? ==> fate.falls == FallsInto(ops, i))
  }

  function FallsInto(ops: seq<Op>, i: nat): set<Target>
    requires i < |ops|
  {
    set t | t in Targets(ops[i]) && t.To? && LabelAt(ops, i + 1, t.name)
  }

  function NextOnes(blocks: Blocks, targets: set<Target>): set<Target>
    requires targets <= blocks.Keys
  {
    set t | t in targets && blocks[t].isNext
  }

  lemma FallsOk(ops: seq<Op>, i: nat, blocks: Blocks)
    requires WellFormed(ops) && i < |ops| && Kept(ops, i) && TableOk(ops, i, i, blocks)
    ensures i + 1 < |ops| && ops[i + 1].MLabel? ==> To(ops[i + 1].name) in blocks
    ensures var b := Peeked(ops, i, blocks);
      Targets(ops[i]) <= b.Keys && NextOnes(b, Targets(ops[i])) == FallsInto(ops, i)
  {
    PeekStep(ops, i, blocks);
    var b := Peeked(ops, i, blocks);
    forall t | t in Targets(ops[i])
      ensures t in b && (b[t].isNext <==> t.To? && LabelAt(ops, i + 1, t.name))
    {
      if t.To? {
        LookupOk(ops, i, b, t.name);
      }
    }
  }

  function TargetSet(all: seq<TargetDrop>): set<Target> {
    set k | 0 <= k < |all| :: all[k].target
  }

  /** The conditional and table branches: look every distinct target up, count the call and see
      which come next. */
  method CountCalls(all: seq<TargetDrop>, blocks: Blocks) returns (ok: bool, out: Blocks, falls: set<Target>)
    ensures ok <==> TargetSet(all) <= blocks.Keys
    ensures ok ==> Counted(blocks, out, TargetSet(all)) && falls == NextOnes(blocks, TargetSet(all))
  {
    ok, out, falls := true, blocks, {};
    var seen: set<TargetDrop> := {};
    for i := 0 to |all|
      invariant ok
      invariant seen == set k | 0 <= k < i :: all[k]
      invariant forall k :: 0 <= k < i ==> all[k].target in blocks
      invariant Counted(blocks, out, set k | 0 <= k < i :: all[k].target)
      invariant falls == set k | 0 <= k < i && blocks[all[k].target].isNext :: all[k].target
    {
      var t := all[i].target;
      if t !in blocks {
        return false, blocks, {};
      }
      if all[i] !in seen {
        out := out[t := out[t].(actual := out[t].actual + 1)];
        if blocks[t].isNext {
          falls := falls + {t};
        }
        seen := seen + {all[i]};
      }
    }
  }

  /** After a label without callers, everything up to the next label is skipped; declarations
      among it are still entered in the table. */
  method SkipDead(ops: seq<Op>, start: nat, blocks: Blocks) returns (i: nat, out: Blocks)
    requires start <= |ops|
    ensures start <= i <= |ops| && (i < |ops| ==> ops[i].MLabel?)
    ensures forall k :: start <= k < i ==> !ops[k].MLabel?
    ensures WellFormed(ops) && 0 < start && !Kept(ops, start - 1) && TableOk(ops, start, start, blocks) ==>
      TableOk(ops, i, i, out) && forall k :: start <= k < i ==> !Kept(ops, k)
  {
    hide WellFormed, TableOk, Calls;
    i, out := start, blocks;
    while i < |ops| && !ops[i].MLabel?
      invariant start <= i <= |ops|
      invariant forall k :: start <= k < i ==> !ops[k].MLabel?
      invariant WellFormed(ops) && 0 < start && !Kept(ops, start - 1) && TableOk(ops, start, start, blocks) ==>
        TableOk(ops, i, i, out) && forall k :: start - 1 <= k < i ==> !Kept(ops, k)
    {
      if WellFormed(ops) && 0 < start && !Kept(ops, start - 1) && TableOk(ops, start, start, blocks) {
        if ops[i].MBlock? {
          DeclareStep(ops, i, i, out);
        } else {
          SkipStep(ops, i, i, out);
        }
      }
      if ops[i].MBlock? {
        out := out[To(ops[i].name) := Declare(ops[i])];
      }
      i := i + 1;
    }
  }

  ghost predicate FatesOk(ops: seq<Op>, fates: seq<Fate>) {
    |fates| <= |ops| && forall k :: 0 <= k < |fates| ==> FateOk(ops, k, fates[k])
  }

  lemma PairTargets(a: TargetDrop, b: TargetDrop)
    ensures TargetSet([a, b]) == Targets(MBrIf(a, b)) == {a.target, b.target}
  {
    var s := [a, b];
    assert s[0] == a && s[1] == b;
    assert s[0].target in TargetSet(s) && s[1].target in TargetSet(s);
  }

  lemma TableTargets(ts: seq<TargetDrop>, d: TargetDrop)
    ensures TargetSet(ts + [d]) == Targets(MBrTable(ts, d))
  {
    var s := ts + [d];
    assert s[|ts|] == d;
    forall k | 0 <= k < |ts|
      ensures ts[k].target in TargetSet(s)
    {
      assert s[k] == ts[k];
    }
  }

  // ---------------------------------------------------------------- calling conventions

  /** The combinations of conventions a conditional branch can deal with. */
  predicate PairOk(a: Cc, b: Cc) {
    (a.NoCc? && !b.Virtual?) || (b.NoCc? && !a.Virtual?)
  }

  /** The convention a side has afterwards: its own, the other side's places, or a new one. */
  function Joined(b: BlockInfo, other: BlockInfo): Cc {
    if !b.cc.NoCc? then b.cc else if other.cc.Fixed? || b.Serializes() then Fixed else Virtual
  }

  function Convened(blocks: Blocks, t: Target, cc: Cc): Blocks
    requires t in blocks
  {
    blocks[t := blocks[t].(cc := cc)]
  }

  lemma TableConventions(ops: seq<Op>, i: nat, blocks: Blocks, all: seq<TargetDrop>)
    requires WellFormed(ops) && i < |ops| && Kept(ops, i) && ops[i].MBrTable? && TableOk(ops, i, i + 1, blocks)
    requires TargetSet(all) == Targets(ops[i])
    ensures forall k :: 0 <= k < |all| ==>
      all[k].target in blocks && !blocks[all[k].target].cc.Virtual? && blocks[all[k].target].numCallers == None
  {
    forall k | 0 <= k < |all|
      ensures all[k].target in blocks && !blocks[all[k].target].cc.Virtual? && blocks[all[k].target].numCallers == None
    {
      assert all[k].target in TargetSet(all);
      TargetConvention(ops, i, blocks, all[k].target);
    }
  }

  /** The convention of a table branch: that of a target that has one, otherwise a new one.  Targets
      with conventions of different kinds are an error; two of the same kind are taken to agree. */
  method TableKind(all: seq<TargetDrop>, blocks: Blocks) returns (ok: bool, cc: Cc)
    requires |all| > 0 && forall k :: 0 <= k < |all| ==> all[k].target in blocks
    ensures (forall k :: 0 <= k < |all| ==>
               !blocks[all[k].target].cc.Virtual? && blocks[all[k].target].numCallers == None) ==> ok && cc.Fixed?
  {
    ghost var plain := forall k :: 0 <= k < |all| ==>
      !blocks[all[k].target].cc.Virtual? && blocks[all[k].target].numCallers == None;
    cc := NoCc;
    var most := blocks[all[|all| - 1].target].numCallers;
    for i := 0 to |all|
      invariant plain ==> most == None && !cc.Virtual?
    {
      var b := blocks[all[i].target];
      if !b.cc.NoCc? {
        if !cc.NoCc? && cc != b.cc {
          return false, NoCc;
        }
        cc := b.cc;
      }
      if most.Some? {
        most := if b.numCallers.Some? then Some(Max(most.value, b.numCallers.value)) else None;
      }
    }
    ok := true;
    if cc.NoCc? {
      cc := if most.Some? && most.value <= 1 then Virtual else Fixed;
    }
  }

  function ConveneAll(blocks: Blocks, all: seq<TargetDrop>, cc: Cc): (out: Blocks)
    requires forall k :: 0 <= k < |all| ==> all[k].target in blocks
    ensures out.Keys == blocks.Keys
    ensures forall t :: t in blocks ==> out[t] == if t in TargetSet(all) then blocks[t].(cc := cc) else blocks[t]
  {
    map t | t in blocks :: if t in TargetSet(all) then blocks[t].(cc := cc) else blocks[t]
  }

  lemma AllFixed(blocks: Blocks, counted: Blocks, out: Blocks, all: seq<TargetDrop>)
    requires TargetSet(all) <= blocks.Keys && Counted(blocks, counted, TargetSet(all))
    requires forall k :: 0 <= k < |all| ==> all[k].target in counted
    requires out == ConveneAll(counted, all, Fixed)
    ensures Assigned(blocks, out, TargetSet(all))
  {
    hide TargetSet;
  }

  /** One operator that is not a label; `blocks` has been peeked. */
  method Emit(ops: seq<Op>, i: nat, blocks: Blocks) returns (ok: bool, out: Blocks, fate: Fate)
    requires i < |ops| && !ops[i].MLabel?
    requires WellFormed(ops) ==> Kept(ops, i) && TableOk(ops, i, i + 1, blocks)
    requires WellFormed(ops) ==>
      Targets(ops[i]) <= blocks.Keys && NextOnes(blocks, Targets(ops[i])) == FallsInto(ops, i)
    ensures WellFormed(ops) ==> ok && TableOk(ops, i + 1, i + 1, out) && FateOk(ops, i, fate)
  {
    hide WellFormed, TableOk, Kept, FateOk, NextOnes, Targets, FallsInto;
    ok, out, fate := true, blocks, Emitted({});
    match ops[i]
    case MBlock(name, params, backwards, callers) =>
      out := out[To(name) := Declare(ops[i])];
      if WellFormed(ops) {
        DeclareStep(ops, i, i + 1, blocks);
        NoFall(ops, i);
      }
    case MBr(t) => ok, out, fate := EmitBr(ops, i, blocks);
    case MBrIf(thn, els) => ok, out, fate := EmitBrIf(ops, i, blocks);
    case MBrTable(ts, d) => ok, out, fate := EmitBrTable(ops, i, blocks);
    case _ =>
      if WellFormed(ops) {
        OtherStep(ops, i, blocks);
        NoFall(ops, i);
      }
  }

  lemma NoFall(ops: seq<Op>, i: nat)
    requires i < |ops| && Kept(ops, i) && !ops[i].MBr? && !ops[i].MBrIf? && !ops[i].MBrTable?
    ensures FateOk(ops, i, Emitted({}))
  {
  }

  lemma OtherStep(ops: seq<Op>, i: nat, blocks: Blocks)
    requires WellFormed(ops) && i < |ops| && Kept(ops, i) && TableOk(ops, i, i + 1, blocks)
    requires !Named(ops[i]) && !ops[i].MBr? && !ops[i].MBrIf? && !ops[i].MBrTable?
    ensures TableOk(ops, i + 1, i + 1, blocks)
  {
    WellFormedGuarded(ops);
    hide WellFormed, TableOk, Kept;
    assert Assigned(blocks, blocks, Targets(ops[i]));
    CountStep(ops, i, blocks, blocks);
  }

  method EmitBr(ops: seq<Op>, i: nat, blocks: Blocks) returns (ok: bool, out: Blocks, fate: Fate)
    requires i < |ops| && ops[i].MBr?
    requires WellFormed(ops) ==> Kept(ops, i) && TableOk(ops, i, i + 1, blocks)
    requires WellFormed(ops) ==>
      Targets(ops[i]) <= blocks.Keys && NextOnes(blocks, Targets(ops[i])) == FallsInto(ops, i)
    ensures WellFormed(ops) ==> ok && TableOk(ops, i + 1, i + 1, out) && FateOk(ops, i, fate)
  {
    hide WellFormed, TableOk, Kept, FallsInto;
    var t := ops[i].target;
    if t !in blocks {
      return false, blocks, Skipped;
    }
    var b := blocks[t];
    ok, out := true, blocks[t := b.(actual := b.actual + 1, cc := if b.Serializes() then Fixed else b.cc)];
    fate := Emitted(if b.isNext then {t} else {});
    if WellFormed(ops) {
      WellFormedGuarded(ops);
      TargetConvention(ops, i, blocks, t);
      CountStep(ops, i, blocks, out);
    }
  }

  /** A conditional branch.  The comment in the source hopes that at least one side has no convention
      yet; for emitted streams that is so, and neither side is virtual. */
  method EmitBrIf(ops: seq<Op>, i: nat, blocks: Blocks) returns (ok: bool, out: Blocks, fate: Fate)
    requires i < |ops| && ops[i].MBrIf?
    requires WellFormed(ops) ==> Kept(ops, i) && TableOk(ops, i, i + 1, blocks)
    requires WellFormed(ops) ==>
      Targets(ops[i]) <= blocks.Keys && NextOnes(blocks, Targets(ops[i])) == FallsInto(ops, i)
    ensures WellFormed(ops) ==> ok && TableOk(ops, i + 1, i + 1, out) && FateOk(ops, i, fate)
  {
    hide WellFormed, TableOk, Kept, FallsInto, NextOnes, Targets;
    var thn, els := ops[i].thn, ops[i].els;
    PairTargets(thn, els);
    if thn.target == els.target {
      SidesDiffer(ops, i);
      return false, blocks, Skipped;
    }
    var falls;
    ok, out, falls := CountCalls([thn, els], blocks);
    if WellFormed(ops) {
      BothSides(ops, i, blocks);
    }
    if !ok || (thn.target in falls && els.target in falls) {
      return false, blocks, Skipped;
    }
    var a, b := blocks[thn.target], blocks[els.target];
    if !PairOk(a.cc, b.cc) {
      return false, blocks, Skipped;
    }
    ghost var counted := out;
    out := Convened(Convened(out, thn.target, Joined(a, b)), els.target, Joined(b, a));
    fate := Emitted(falls);
    if WellFormed(ops) {
      PairAssigned(blocks, counted, out, thn.target, els.target);
      WellFormedGuarded(ops);
      CountStep(ops, i, blocks, out);
    }
  }

  lemma SidesDiffer(ops: seq<Op>, i: nat)
    requires i < |ops| && ops[i].MBrIf? && ops[i].thn.target == ops[i].els.target
    ensures !WellFormed(ops)
  {
  }

  lemma BothSides(ops: seq<Op>, i: nat, blocks: Blocks)
    requires WellFormed(ops) && i < |ops| && Kept(ops, i) && ops[i].MBrIf? && TableOk(ops, i, i + 1, blocks)
    ensures ops[i].thn.target in blocks && ops[i].els.target in blocks && ops[i].thn.target != ops[i].els.target
    ensures PairOk(blocks[ops[i].thn.target].cc, blocks[ops[i].els.target].cc)
    ensures !(ops[i].thn.target in FallsInto(ops, i) && ops[i].els.target in FallsInto(ops, i))
  {
    TargetConvention(ops, i, blocks, ops[i].thn.target);
    TargetConvention(ops, i, blocks, ops[i].els.target);
  }

  lemma PairAssigned(blocks: Blocks, counted: Blocks, out: Blocks, s: Target, t: Target)
    requires s in blocks && t in blocks && s != t && Counted(blocks, counted, {s, t}) &&
      PairOk(blocks[s].cc, blocks[t].cc)
    requires out == Convened(Convened(counted, s, Joined(blocks[s], blocks[t])), t, Joined(blocks[t], blocks[s]))
    ensures Assigned(blocks, out, {s, t})
  {
  }

  method EmitBrTable(ops: seq<Op>, i: nat, blocks: Blocks) returns (ok: bool, out: Blocks, fate: Fate)
    requires i < |ops| && ops[i].MBrTable?
    requires WellFormed(ops) ==> Kept(ops, i) && TableOk(ops, i, i + 1, blocks)
    requires WellFormed(ops) ==>
      Targets(ops[i]) <= blocks.Keys && NextOnes(blocks, Targets(ops[i])) == FallsInto(ops, i)
    ensures WellFormed(ops) ==> ok && TableOk(ops, i + 1, i + 1, out) && FateOk(ops, i, fate)
  {
    hide WellFormed, TableOk, Kept, FallsInto, NextOnes, Targets;
    var all := ops[i].targets + [ops[i].default];
    TableTargets(ops[i].targets, ops[i].default);
    var falls;
    ok, out, falls := CountCalls(all, blocks);
    if !ok {
      return false, blocks, Skipped;
    }
    if WellFormed(ops) {
      TableConventions(ops, i, blocks, all);
    }
    AllFound(blocks, all);
    var cc;
    ok, cc := TableKind(all, blocks);
    if !ok {
      return false, blocks, Skipped;
    }
    ghost var counted := out;
    AllFound(out, all);
    out := ConveneAll(out, all, cc);
    fate := Emitted(falls);
    if WellFormed(ops) {
      AllFixed(blocks, counted, out, all);
      WellFormedGuarded(ops);
      CountStep(ops, i, blocks, out);
    }
  }

  lemma AllFound(blocks: Blocks, all: seq<TargetDrop>)
    requires TargetSet(all) <= blocks.Keys
    ensures forall k :: 0 <= k < |all| ==> all[k].target in blocks
  {
    forall k | 0 <= k < |all|
      ensures all[k].target in blocks
    {
      assert all[k].target in TargetSet(all);
    }
  }

  ghost predicate PassOk(ops: seq<Op>, i: nat, blocks: Blocks, fates: seq<Fate>) {
    && TableOk(ops, i, i, blocks) && FatesOk(ops, fates) && |fates| == i
    && (0 < i < |ops| && !ops[i].MLabel? ==> Kept(ops, i - 1))
  }

  lemma PassStart(ops: seq<Op>, blocks: Blocks)
    requires ToReturn in blocks && !blocks[ToReturn].isNext
    requires blocks[ToReturn].cc.Fixed? && blocks[ToReturn].numCallers == None
    ensures PassOk(ops, 0, blocks, [])
  {
  }

  lemma PassKept(ops: seq<Op>, i: nat, blocks: Blocks, fates: seq<Fate>)
    requires PassOk(ops, i, blocks, fates) && i < |ops| && !ops[i].MLabel?
    ensures Kept(ops, i) && TableOk(ops, i, i, blocks)
  {
  }

  lemma PassSkipped(ops: seq<Op>, start: nat, i: nat, blocks: Blocks, fates: seq<Fate>)
    requires FatesOk(ops, fates) && |fates| == start <= i <= |ops| && TableOk(ops, i, i, blocks)
    requires forall k :: start <= k < i ==> !Kept(ops, k)
    requires i < |ops| ==> ops[i].MLabel?
    ensures PassOk(ops, i, blocks, fates + seq(i - start, _ => Skipped))
  {
    hide Kept, TableOk;
    var all := fates + seq(i - start, _ => Skipped);
    forall k | 0 <= k < i
      ensures FateOk(ops, k, all[k])
    {
      if k < start {
        assert all[k] == fates[k];
      } else {
        assert all[k] == Skipped;
      }
    }
  }

  lemma PassEmitted(ops: seq<Op>, i: nat, blocks: Blocks, fates: seq<Fate>, fate: Fate)
    requires FatesOk(ops, fates) && |fates| == i < |ops| && TableOk(ops, i + 1, i + 1, blocks)
    requires FateOk(ops, i, fate) && Kept(ops, i)
    ensures PassOk(ops, i + 1, blocks, fates + [fate])
  {
    hide Kept, TableOk, FateOk;
  }

  lemma LabelFate(ops: seq<Op>, i: nat)
    requires i < |ops| && ops[i].MLabel? && Kept(ops, i)
    ensures FateOk(ops, i, Emitted({}))
  {
  }

  /** The whole pass.  On a well-formed stream no table lookup fails, exactly the kept operators
      are emitted, and a jump is left out exactly where its label comes next. */
  method Translate(ops: seq<Op>, returnCount: nat) returns (ok: bool, fates: seq<Fate>)
    ensures WellFormed(ops) ==> ok
    ensures WellFormed(ops) ==> |fates| == |ops| && forall k :: 0 <= k < |ops| ==> FateOk(ops, k, fates[k])
  {
    hide Kept, WellFormed, TableOk, FateOk, Calls, LabelAt, Entered, FallsInto, NextOnes;
    var blocks: Blocks := map[ToReturn := BlockInfo(returnCount, None, false, false, 0, Fixed)];
    ok, fates := true, [];
    var i := 0;
    PassStart(ops, blocks);
    while i < |ops|
      invariant i <= |ops|
      invariant WellFormed(ops) ==> PassOk(ops, i, blocks, fates)
    {
      if WellFormed(ops) {
        PeekStep(ops, i, blocks);
      }
      if i + 1 < |ops| && ops[i + 1].MLabel? && To(ops[i + 1].name) !in blocks {
        return false, fates;
      }
      ghost var before := blocks;
      blocks := Peeked(ops, i, blocks);
      if ops[i].MLabel? {
        i, blocks, ok, fates := Enter(ops, i, blocks, fates);
      } else {
        if WellFormed(ops) {
          PassKept(ops, i, before, fates);
          FallsOk(ops, i, before);
        }
        var fate;
        ok, blocks, fate := Emit(ops, i, blocks);
        if WellFormed(ops) {
          PassEmitted(ops, i, blocks, fates, fate);
        }
        fates := fates + [fate];
        i := i + 1;
      }
      if !ok {
        return;
      }
    }
  }

  /** A label: skip its code when nothing branched to it, otherwise start it and retire its entry
      unless later code may still branch back to it. */
  method Enter(ops: seq<Op>, start: nat, peeked: Blocks, before: seq<Fate>)
      returns (i: nat, blocks: Blocks, ok: bool, fates: seq<Fate>)
    requires start < |ops| && ops[start].MLabel?
    requires WellFormed(ops) ==> TableOk(ops, start, start + 1, peeked) && FatesOk(ops, before) && |before| == start
    ensures start < i <= |ops|
    ensures WellFormed(ops) ==> ok && PassOk(ops, i, blocks, fates)
  {
    hide Kept, WellFormed, TableOk, FateOk, Calls, LabelAt, PassOk, FatesOk;
    i, blocks, ok, fates := start + 1, peeked, true, before;
    var t := To(ops[start].name);
    if WellFormed(ops) {
      LabelFound(ops, start, start + 1, blocks, start);
    }
    if t !in blocks {
      ok := false;
    } else if blocks[t].actual == 0 {
      if WellFormed(ops) {
        SkipStep(ops, start, start + 1, blocks);
      }
      i, blocks := SkipDead(ops, start + 1, blocks);
      fates := before + seq(i - start, _ => Skipped);
      if WellFormed(ops) {
        PassSkipped(ops, start, i, blocks, before);
      }
    } else if blocks[t].cc.NoCc? {
      ok := false;
    } else {
      if WellFormed(ops) {
        EnterStep(ops, start, blocks);
        LabelFate(ops, start);
        PassEmitted(ops, start, Entered(blocks, t), before, Emitted({}));
      }
      blocks := Entered(blocks, t);
      fates := before + [Emitted({})];
    }
  }
}
