/** Code generation for the operators between labels: the code the allocator emits leaves on the
    virtual stack exactly the values the Microwasm machine computes. */
module StraightLine {
  import opened Wasm
  import opened Microwasm
  import opened Locations
  import opened FrameFacts
  import opened Allocator
  import opened BranchSides

  /** An integer operator with two operands: its instruction's effect on words, and whether the
      generator may exchange the operands. */
  datatype AluOp = AluOp(f: (Word, Word) -> Word, commutes: bool)

  type Alus = map<nat, AluOp>

  /** The instructions compute what the operators mean. */
  ghost predicate Implements(sem: Semantics, alus: Alus) {
    && (forall c :: c in alus && alus[c].commutes ==> forall x, y :: alus[c].f(x, y) == alus[c].f(y, x))
    && (forall op: PlainOp, store: Store, x: Val, y: Val {:trigger sem(op, store, [x, y])} :: op.code in alus ==>
          var r := sem(op, store, [x, y]);
          r.Next? && r.store == store && |r.vals| == 1 && r.vals[0].bits == alus[op.code].f(x.bits, y.bits))
  }

  predicate Straight(alus: Alus, op: Op) {
    match op
    case MConst(_) => true
    case MPick(_) => true
    case MSwap(_) => true
    case MDrop(_) => true
    case MPlain(p) => p.code in alus && |p.inputs| == 2
    case _ => false
  }

  function Bits(vs: seq<Val>): (ws: seq<Word>)
    ensures |ws| == |vs| && forall i :: 0 <= i < |vs| ==> ws[i] == vs[i].bits
  {
    seq(|vs|, i requires 0 <= i < |vs| => vs[i].bits)
  }

  /** One operator on words. */
  function OnWords(alus: Alus, op: Op, ws: seq<Word>): Option<seq<Word>> {
    var n := |ws|;
    match op
    case MConst(v) => Some(ws + [v.bits])
    case MPick(d) => if d < n then Some(ws + [ws[n - 1 - d]]) else None
    case MSwap(d) => if d < n then Some(ws[n - 1 := ws[n - 1 - d]][n - 1 - d := ws[n - 1]]) else None
    case MDrop(r) => if r.lo <= r.hi < n then Some(DropRange(ws, r.lo, r.hi)) else None
    case MPlain(p) =>
      if p.code in alus && 2 <= n then Some(ws[..n - 2] + [alus[p.code].f(ws[n - 2], ws[n - 1])]) else None
    case _ => None
  }

  /** The Microwasm machine, seen through the bits of its stack. */
  lemma StepOnWords(sem: Semantics, alus: Alus, p: Prog, s: State)
    requires Implements(sem, alus) && s.Running? && s.pc < |p.ops| && Straight(alus, p.ops[s.pc])
    requires Step(sem, p, s).Running?
    ensures var t := Step(sem, p, s);
            t.pc == s.pc + 1 && OnWords(alus, p.ops[s.pc], Bits(s.stack)) == Some(Bits(t.stack))
  {
    hide Bits, Implements, DropRange, RunPlain;
    match p.ops[s.pc]
    case MConst(v) => BitsPush(s.stack, v);
    case MPick(d) => BitsPush(s.stack, s.stack[|s.stack| - 1 - d]);
    case MSwap(d) => BitsSwap(s.stack, d);
    case MDrop(r) => BitsDrop(s.stack, r.lo, r.hi);
    case MPlain(op) => PlainOnWords(sem, alus, op, s.stack, s.store);
  }

  lemma BitsPush(vs: seq<Val>, v: Val)
    ensures Bits(vs + [v]) == Bits(vs) + [v.bits]
  {
  }

  lemma BitsSwap(vs: seq<Val>, d: nat)
    requires d < |vs|
    ensures var n, ws := |vs|, Bits(vs);
            Bits(vs[n - 1 := vs[n - 1 - d]][n - 1 - d := vs[n - 1]]) ==
              ws[n - 1 := ws[n - 1 - d]][n - 1 - d := ws[n - 1]]
  {
  }

  lemma BitsDrop(vs: seq<Val>, lo: nat, hi: nat)
    requires lo <= hi < |vs|
    ensures Bits(DropRange(vs, lo, hi)) == DropRange(Bits(vs), lo, hi)
  {
  }

  lemma PlainOnWords(sem: Semantics, alus: Alus, op: PlainOp, stack: seq<Val>, store: Store)
    requires Implements(sem, alus) && op.code in alus && 2 == |op.inputs| <= |stack|
    requires RunPlain(sem, op, store, Top(stack, 2)).Next?
    ensures var n := |stack|; var ws := Bits(stack);
            Bits(stack[..n - 2] + RunPlain(sem, op, store, Top(stack, 2)).vals) ==
            ws[..n - 2] + [alus[op.code].f(ws[n - 2], ws[n - 1])]
  {
    var n := |stack|;
    var x, y := stack[n - 2], stack[n - 1];
    assert Top(stack, 2) == [x, y];
    assert sem(op, store, [x, y]).vals[0].bits == alus[op.code].f(x.bits, y.bits);
  }

  /** One operator: the virtual stack follows, and no register stays pinned. */
  method GenerateOp(ctx: Context, alus: Alus, op: Op)
    requires ctx.Valid() && Held(ctx.F(), []) && Straight(alus, op)
    requires OnWords(alus, op, Values(ctx.F())).Some?
    requires forall c :: c in alus && alus[c].commutes ==> forall x, y :: alus[c].f(x, y) == alus[c].f(y, x)
    modifies ctx
    ensures ctx.Valid() && Held(ctx.F(), [])
    ensures Some(Values(ctx.F())) == OnWords(alus, op, old(Values(ctx.F())))
    ensures Extends(old(ctx.F()), ctx.F(), {})
  {
    hide Extends;
    ghost var a := ctx.F();
    SoundSized(a);
    match op {
      case MConst(v) => ctx.Const(v.bits);
      case MPick(d) => ctx.Pick(d);
      case MSwap(d) => ctx.Swap(d);
      case MDrop(r) => ctx.Drop(r.lo, r.hi);
      case MPlain(p) => ctx.BinOp(alus[p.code].f, alus[p.code].commutes);
    }
    if !op.MPlain? {
      Unmoved(a, ctx.F());
    }
  }

  lemma RunningBefore(sem: Semantics, p: Prog, i: nat, k: nat, s: State)
    requires i < k && Steps(sem, p, k, s).Running?
    ensures Steps(sem, p, i, s).Running? && Steps(sem, p, i + 1, s) == Step(sem, p, Steps(sem, p, i, s))
    ensures Steps(sem, p, i + 1, s).Running?
  {
    StepsAdd(sem, p, i, k - i, s);
    StepsAdd(sem, p, i, 1, s);
    StepsAdd(sem, p, i + 1, k - i - 1, s);
    assert Steps(sem, p, 1, Steps(sem, p, i, s)) == Step(sem, p, Steps(sem, p, i, s));
    if Steps(sem, p, i, s).Done? {
      DoneStays(sem, p, k - i, Steps(sem, p, i, s));
    }
    if Steps(sem, p, i + 1, s).Done? {
      DoneStays(sem, p, k - i - 1, Steps(sem, p, i + 1, s));
    }
  }

  /** A whole straight-line segment: for every start machine, the emitted code makes the virtual
      stack denote the machine's stack at the end of the segment. */
  method Generate(ctx: Context, ghost sem: Semantics, alus: Alus, p: Prog, start: nat, count: nat, ghost s: State)
    requires ctx.Valid() && Held(ctx.F(), []) && Implements(sem, alus)
    requires start + count <= |p.ops| && forall i :: start <= i < start + count ==> Straight(alus, p.ops[i])
    requires s.Running? && s.pc == start && Values(ctx.F()) == Bits(s.stack)
    requires Steps(sem, p, count, s).Running?
    modifies ctx
    ensures ctx.Valid() && Held(ctx.F(), [])
    ensures Steps(sem, p, count, s).Running? && Values(ctx.F()) == Bits(Steps(sem, p, count, s).stack)
    ensures Extends(old(ctx.F()), ctx.F(), {})
    ensures |old(ctx.F().m.regs)| == NUM_GPRS == |ctx.F().m.regs| && ctx.F().m.regs[VMCTX] == old(ctx.F().m.regs)[VMCTX]
  {
    ghost var a := ctx.F();
    SoundSized(a);
    ExtendsSelf(a);
    hide Extends, Step, OnWords, Values, Sound, Run, Held;
    for i := 0 to count
      invariant ctx.Valid() && Held(ctx.F(), [])
      invariant Extends(a, ctx.F(), {})
      invariant var t := Steps(sem, p, i, s); t.Running? && t.pc == start + i && Values(ctx.F()) == Bits(t.stack)
    {
      RunningBefore(sem, p, i, count, s);
      StepOnWords(sem, alus, p, Steps(sem, p, i, s));
      ghost var f := ctx.F();
      GenerateOp(ctx, alus, p.ops[start + i]);
      ExtendsMore(a, f, ctx.F(), {});
    }
    VmctxKept(a, ctx.F());
  }

  // ---------------------------------------------------------------- across labels

  /** Where a block expects its parameters. */
  datatype Convention = Convention(depth: nat, args: seq<nat>)

  type Conventions = map<Target, Convention>

  /** One distinct register per declared parameter. */
  ghost predicate ConventionsOk(p: Prog, cc: Conventions) {
    forall t :: t in cc ==>
      && DistinctRegs(cc[t].args)
      && (t.To? ==> FindDecl(p.ops, t.name) < |p.ops| && |cc[t].args| == |ParamsOf(p.ops, t.name)|)
  }

  /** The registers in which blocks expect their parameters. */
  function Destinations(cc: Conventions): (s: set<nat>)
    ensures forall t, r :: t in cc && r in RegsOf(cc[t].args) ==> r in s
  {
    set t, r | t in cc && r in RegsOf(cc[t].args) :: r
  }

  /** A branch: the block starts with the values the machine carries to it. */
  method FollowBranch(ctx: Context, p: Prog, ghost sem: Semantics, ghost s: State, cc: Convention)
    requires ctx.Valid() && Held(ctx.F(), [])
    requires s.Running? && s.pc < |p.ops| && p.ops[s.pc].MBr? && p.ops[s.pc].target.To?
    requires Step(sem, p, s).Running? && Values(ctx.F()) == Bits(s.stack) && DistinctRegs(cc.args)
    requires var d := FindDecl(p.ops, p.ops[s.pc].target.name); d < |p.ops| && |cc.args| == |p.ops[d].params|
    modifies ctx
    ensures ctx.Valid() && Held(ctx.F(), [])
    ensures Values(ctx.F()) == Bits(Step(sem, p, s).stack) && ctx.depth == cc.depth
    ensures Confined(old(ctx.F().m), ctx.F().m, RegsOf(cc.args), old(ctx.depth))
  {
    hide Confined, Sound, Run, Values, Held, DistinctRegs, Unpinned;
    UnpinnedAtRest(ctx.F(), cc.args);
    StackHeight(ctx.F(), s.stack);
    CarriedBits(s.stack, |cc.args|);
    ctx.PassAndEnter(cc.args, cc.depth);
  }

  lemma StackHeight(f: Frame, vs: seq<Val>)
    requires Values(f) == Bits(vs)
    ensures |f.stack| == |vs|
  {
    assert |Values(f)| == |Bits(vs)|;
  }

  lemma CarriedBits(vs: seq<Val>, n: nat)
    requires n <= |vs|
    ensures Bits(Top(vs, n)) == Bits(vs)[|vs| - n..]
  {
  }

  // ---------------------------------------------------------------- conditional branches

  ghost function Denoted(locs: seq<Loc>, m: Machine): (ws: seq<Word>)
    ensures |ws| == |locs| && forall i :: 0 <= i < |locs| ==> ws[i] == Denote(locs[i], m)
  {
    seq(|locs|, i requires 0 <= i < |locs| => Denote(locs[i], m))
  }

  lemma DropDenoted(locs: seq<Loc>, m: Machine, d: Option<Range>)
    requires ApplyDrop(locs, d).Some?
    ensures ApplyDrop(Denoted(locs, m), d) == Some(Denoted(ApplyDrop(locs, d).value, m))
  {
    if d.Some? {
      var lo, hi := d.value.lo, d.value.hi;
      assert DropRange(Denoted(locs, m), lo, hi) == Denoted(DropRange(locs, lo, hi), m);
    }
  }

  lemma DropBits(vs: seq<Val>, d: Option<Range>)
    requires ApplyDrop(vs, d).Some?
    ensures ApplyDrop(Bits(vs), d) == Some(Bits(ApplyDrop(vs, d).value))
  {
    if d.Some? {
      BitsDrop(vs, d.value.lo, d.value.hi);
    }
  }

  lemma KeptLive(locs: seq<Loc>, d: Option<Range>, depth: nat)
    requires ApplyDrop(locs, d).Some? && AllLive(locs, depth)
    ensures AllLive(ApplyDrop(locs, d).value, depth)
  {
    hide Locations.Live;
  }

  lemma PlacesDenote(a: Frame, f: Frame, args: seq<Loc>)
    requires Serialized(a, f, args) && |args| == |a.stack|
    ensures Denoted(args, f.m) == Values(a)
  {
    hide Uses, Pins, Denote;
  }

  lemma StackDenoted(f: Frame)
    ensures Denoted(f.stack, f.m) == Values(f) && |Values(f)| == |f.stack|
    ensures Sound(f) ==> AllLive(f.stack, f.depth) && Sized(f)
  {
  }

  /** The block has one caller, announced, and no backward branch: `should_serialize_args` is false,
      and the block takes over the locations as they are. */
  predicate SingleCaller(ops: seq<Op>, n: Name) {
    var d := FindDecl(ops, n);
    d < |ops| && ops[d].numCallers == Some(1) && !ops[d].backwards
  }

  /** Both targets of a conditional branch are new, and the one with a drop range will have more
      callers.  The stack is given places; the side with a drop range keeps, for each parameter its
      target declares, a place holding the value the Microwasm machine would pass.  The fall-through
      side goes on with the locations and the depth it had before: on at most eight entries they are
      right; on more the frame has grown. */
  method FreshBranch(ctx: Context, op: Op, thenParams: nat, elseParams: nat, ghost ops: seq<Op>, ghost types: seq<Ty>)
      returns (ok: bool, kept: seq<Loc>)
    requires ctx.Valid() && Held(ctx.F(), []) && |ctx.stack| == |types|
    requires op.MBrIf? && op.thn.target.To? && AllFit(ops, op, types)
    requires !SingleCaller(ops, op.thn.target.name) && SingleCaller(ops, op.els.target.name)
    requires thenParams == |ParamsOf(ops, op.thn.target.name)| && elseParams == |ParamsOf(ops, op.els.target.name)|
    modifies ctx
    ensures ctx.Valid() && ApplyDrop(old(Values(ctx.F())), op.thn.drop).Some?
    ensures ok ==> |kept| == thenParams && AllLive(kept, ctx.depth)
    ensures ok ==> Denoted(kept, ctx.F().m) == ApplyDrop(old(Values(ctx.F())), op.thn.drop).value
    ensures |types| <= 8 ==> ok && ctx.depth == old(ctx.depth)
    ensures |types| <= 8 ==> Denoted(old(ctx.stack), ctx.F().m) == old(Values(ctx.F()))
    ensures ok && |types| > 8 ==> ctx.depth != old(ctx.depth)
    ensures !ok ==> exists i :: 0 <= i < |types| && old(ctx.stack)[i].Imm?
    ensures Extends(old(ctx.F()), ctx.F(), {})
  {
    hide Extends, Sound, Run, Values, Held, Serialized, Undisturbed, SideLocations, AllFit, ApplyDrop, AllLive,
      SingleCaller;
    ghost var a := ctx.F();
    SidesKept(ops, op, types, ctx.stack);
    DropLength(ctx.stack, Values(a), op.thn.drop);
    var args;
    ok, args := ctx.SerializeArgs(Max(thenParams, elseParams));
    if |types| <= 8 {
      VirtualSide(a, ctx.F(), args);
    }
    if ok {
      SidesKept(ops, op, types, args);
      SerializedPlaces(a, ctx.F(), args);
      PlacesDenote(a, ctx.F(), args);
      DropDenoted(args, ctx.F().m, op.thn.drop);
      KeptLive(args, op.thn.drop, ctx.depth);
      kept := SideLocations(args, |args|, op.thn);
    } else {
      kept := [];
    }
  }

  lemma VirtualSide(a: Frame, f: Frame, args: seq<Loc>)
    requires Sound(a) && Undisturbed(a, f, args)
    ensures f.depth == a.depth && Denoted(a.stack, f.m) == Values(a)
  {
    forall i | 0 <= i < |a.stack|
      ensures Denote(a.stack[i], f.m) == Values(a)[i]
    {
      StillDenoted(a, f, args, i);
    }
  }

  /** A conditional branch whose fall-through block is new; the other target has a convention, or is
      new and declared. */
  ghost predicate Branchable(ops: seq<Op>, cc: Conventions, op: Op, types: seq<Ty>) {
    && op.MBrIf? && AllFit(ops, op, types) && ParamsOf(ops, op.els.target.name) == types
    && SingleCaller(ops, op.els.target.name)
    && if op.thn.target in cc then |cc[op.thn.target].args| <= |types| && DistinctRegs(cc[op.thn.target].args)
       else op.thn.target.To?
  }

  /** What the code passes to the side taken.  To a target with a convention it passes the topmost
      values, whatever the side's drop range says. */
  function PassedTo(cc: Conventions, op: Op, taken: bool, ws: seq<Word>): seq<Word>
    requires op.MBrIf?
  {
    if !taken then ws
    else if op.thn.target in cc then
      var n := |cc[op.thn.target].args|;
      if n <= |ws| then ws[|ws| - n..] else ws
    else
      var kept := ApplyDrop(ws, op.thn.drop);
      if kept.Some? then kept.value else ws
  }

  /** One target has a convention, the fall-through block is new: the arguments of the convention are
      passed, and the values below get places for the fall-through side.  `locs` are the locations of
      the side taken, at the convention's depth. */
  method KnownBranch(ctx: Context, conv: Convention, taken: bool) returns (ok: bool, locs: seq<Loc>)
    requires ctx.Valid() && Held(ctx.F(), []) && DistinctRegs(conv.args) && |conv.args| <= |ctx.stack|
    modifies ctx
    ensures Sized(ctx.F()) && ctx.depth == conv.depth
    ensures |old(ctx.stack)| <= 8 ==> ok
    ensures ok ==> AllLive(locs, conv.depth)
    ensures ok ==> var ws := old(Values(ctx.F()));
                   Denoted(locs, ctx.F().m) == if taken then ws[|ws| - |conv.args|..] else ws
    ensures Confined(old(ctx.F().m), ctx.F().m, RegsOf(conv.args), old(ctx.depth))
  {
    hide Confined, Run, Values, Held, Sound, DistinctRegs;
    var places;
    ok, places := ctx.SerializeBlockArgs(conv.args, conv.depth, |ctx.stack|);
    locs := if taken then AsLocs(conv.args) else places;
    ok := ok && AllLive(locs, conv.depth);
  }

  lemma KnownConfined(a: Frame, b: Frame, c: Frame, cc: Conventions, t: Target)
    requires Extends(a, b, {}) && t in cc && Confined(b.m, c.m, RegsOf(cc[t].args), b.depth)
    ensures Confined(a.m, c.m, Destinations(cc), a.depth)
  {
    hide OffLimits, RegsOf, Destinations;
    ConfinedTrans(a.m, b.m, c.m, {}, RegsOf(cc[t].args), a.depth, b.depth);
  }

  lemma FreshConfined(a: Frame, b: Frame, c: Frame, cc: Conventions)
    requires Extends(a, b, {}) && (c == b || Extends(b, c, {}))
    ensures Confined(a.m, c.m, Destinations(cc), a.depth) && a.depth <= c.depth
  {
    hide OffLimits, RegsOf, Destinations;
  }

  /** `br_if_true` or `br_if_false` with the closure that `BrIf` hands to it, up to the first operator
      of the side that is taken.  Not `ok`: an immediate has found no register, or the side taken is
      the fall-through side of a frame that has changed its depth under it; at most eight entries
      exclude both. */
  method BranchIf(ctx: Context, ops: seq<Op>, cc: Conventions, op: Op, taken: bool) returns (ok: bool)
    requires ctx.Valid() && Held(ctx.F(), [])
    requires op.MBrIf? && op.els.target.To?
    requires var types := ParamsOf(ops, op.els.target.name);
             Branchable(ops, cc, op, types) && |ctx.stack| == |types| + 1
    requires taken <==> Values(ctx.F())[|ctx.stack| - 1] != 0
    modifies ctx
    ensures |old(ctx.stack)| <= 9 ==> ok
    ensures ok ==> ctx.Valid() && Held(ctx.F(), [])
    ensures ok ==> Values(ctx.F()) == PassedTo(cc, op, taken, old(Values(ctx.F()))[..|old(ctx.stack)| - 1])
    ensures Confined(old(ctx.F().m), ctx.F().m, Destinations(cc), old(ctx.depth))
    ensures ok ==> ctx.depth >= old(ctx.depth) || exists t :: t in cc && ctx.depth == cc[t].depth
  {
    hide Confined, RegsOf, Sound, Run, Values, Held, AllFit, ApplyDrop, Locations.Live, SingleCaller, Denoted;
    hide DistinctRegs, SideLocations;
    ghost var types := ParamsOf(ops, op.els.target.name);
    ghost var tested := ctx.TestTop();
    assert taken <==> tested != 0;
    ghost var a := ctx.F();
    ghost var start := old(ctx.F());
    StackDenoted(a);
    var locs, d := ctx.stack, ctx.depth;
    ok := true;
    if op.thn.target in cc {
      d := cc[op.thn.target].depth;
      ok, locs := KnownBranch(ctx, cc[op.thn.target], taken);
      KnownConfined(start, a, ctx.F(), cc, op.thn.target);
    } else if SingleCaller(ops, op.thn.target.name) {
      if taken {
        SidesKept(ops, op, types, locs);
        DropDenoted(locs, a.m, op.thn.drop);
        KeptLive(locs, op.thn.drop, d);
        locs := SideLocations(locs, |locs|, op.thn);
      }
      FreshConfined(start, a, a, cc);
    } else {
      var kept;
      ok, kept := FreshBranch(ctx, op, |ParamsOf(ops, op.thn.target.name)|, |ctx.stack|, ops, types);
      if taken {
        locs, d := kept, ctx.depth;
      }
      ok := ok && d == ctx.depth;
      FreshConfined(start, a, ctx.F(), cc);
      SoundSized(ctx.F());
    }
    if ok {
      ctx.Enter(locs, d);
      StackDenoted(ctx.F());
    }
  }

  // ---------------------------------------------------------------- whole runs

  /** A side with a drop range above something it keeps, taken to a target with a convention. */
  predicate DropIgnored(cc: Conventions, op: Op, taken: bool, n: nat) {
    op.MBrIf? && taken && op.thn.target in cc && op.thn.drop.Some? && op.thn.drop.value.hi + 1 < n
  }

  predicate NoTwoEqual(ws: seq<Word>) {
    forall i, k :: 0 <= i < k < |ws| ==> ws[i] != ws[k]
  }

  /** What is passed is what the Microwasm machine passes, for any values, exactly when no drop range is
      ignored. */
  lemma PassedIsKept(cc: Conventions, op: Op, taken: bool, ws: seq<Word>)
    requires op.MBrIf? && (taken ==> ApplyDrop(ws, op.thn.drop).Some?)
    requires taken && op.thn.target in cc ==> |cc[op.thn.target].args| == |ApplyDrop(ws, op.thn.drop).value|
    ensures var wanted := if taken then ApplyDrop(ws, op.thn.drop).value else ws;
            && (!DropIgnored(cc, op, taken, |ws|) ==> PassedTo(cc, op, taken, ws) == wanted)
            && (DropIgnored(cc, op, taken, |ws|) && NoTwoEqual(ws) ==> PassedTo(cc, op, taken, ws) != wanted)
  {
    if taken && op.thn.target in cc && op.thn.drop.Some? {
      var r := op.thn.drop.value;
      var top, kept := ws[r.hi - r.lo + 1..], DropRange(ws, r.lo, r.hi);
      if r.hi + 1 < |ws| {
        assert kept[0] == ws[0] && top[0] == ws[r.hi - r.lo + 1];
      }
    }
  }

  /** In the converter's terms, for a branch out of a frame at a stack height: something lies below the
      frame's operands, and something between them and its results is discarded. */
  lemma IgnoredWhen(cc: Conventions, op: Op, height: nat, f: Converter.Frame)
    requires op.MBrIf? && op.thn == TargetDrop(f.BrTarget(), Converter.ToDrop(height, f))
    ensures DropIgnored(cc, op, true, height) <==>
            f.BrTarget() in cc && f.arguments > 0 && f.arguments + |f.results| < height
  {
  }

  /** A block without results in a function with one local: `local.get 0; br_if 0; i32.const 9;
      local.get 0; br_if 0; drop`.  At the second branch the block has its convention from the first.
      The machine keeps the local and drops the operand above it; the operand is what is passed. */
  lemma IgnoredExample(f: Converter.Frame, cc: Conventions, els: TargetDrop, local: Word)
    requires f.kind.BlockKind? && f.arguments == 1 && f.results == []
    requires f.BrTarget() in cc && |cc[f.BrTarget()].args| == 1
    ensures var op := MBrIf(TargetDrop(f.BrTarget(), Converter.ToDrop(2, f)), els);
            && DropIgnored(cc, op, true, 2)
            && ApplyDrop([local, 9], op.thn.drop) == Some([local]) && PassedTo(cc, op, true, [local, 9]) == [9]
  {
    assert DropRange([local, 9], 0, 0) == [local];
    assert [local, 9][1..] == [9];
  }

  lemma StepBranch(sem: Semantics, p: Prog, s: State, types: seq<Ty>)
    requires s.Running? && s.pc < |p.ops| && p.ops[s.pc].MBrIf? && |s.stack| == |types| + 1
    requires AllFit(p.ops, p.ops[s.pc], types) && Step(sem, p, s).Running?
    ensures var op, n := p.ops[s.pc], |types|; var t := Step(sem, p, s);
            var kept := ApplyDrop(s.stack[..n], op.thn.drop);
            if s.stack[n].bits == 0 then t.stack == s.stack[..n]
            else op.thn.target.To? && kept == Some(t.stack) && |t.stack| == |ParamsOf(p.ops, op.thn.target.name)|
  {
    var op := p.ops[s.pc];
    assert Branches(op)[0] == op.thn && Branches(op)[1] == op.els;
    assert SideFits(p.ops, Branches(op)[0], types) && SideFits(p.ops, Branches(op)[1], types);
    DropLength(types, s.stack[..|types|], op.thn.drop);
  }

  /** A conditional branch: the side taken starts with the values the machine carries to it, unless a
      drop range is ignored; then, if no two of the values are equal, it does not. */
  method FollowBrIf(ctx: Context, p: Prog, ghost sem: Semantics, cc: Conventions, s: State) returns (ok: bool)
    requires ctx.Valid() && Held(ctx.F(), []) && ConventionsOk(p, cc)
    requires s.Running? && s.pc < |p.ops| && p.ops[s.pc].MBrIf? && p.ops[s.pc].els.target.To?
    requires var types := ParamsOf(p.ops, p.ops[s.pc].els.target.name);
             Branchable(p.ops, cc, p.ops[s.pc], types) && |s.stack| == |types| + 1
    requires Step(sem, p, s).Running? && Values(ctx.F()) == Bits(s.stack)
    modifies ctx
    ensures |s.stack| <= 9 ==> ok
    ensures ok ==> ctx.Valid() && Held(ctx.F(), [])
    ensures var n := |s.stack| - 1; var ignored := DropIgnored(cc, p.ops[s.pc], s.stack[n].bits != 0, n);
            && (ok && !ignored ==> Values(ctx.F()) == Bits(Step(sem, p, s).stack))
            && (ok && ignored && NoTwoEqual(Bits(s.stack[..n])) ==> Values(ctx.F()) != Bits(Step(sem, p, s).stack))
    ensures Confined(old(ctx.F().m), ctx.F().m, Destinations(cc), old(ctx.depth))
    ensures ok ==> ctx.depth >= old(ctx.depth) || exists t :: t in cc && ctx.depth == cc[t].depth
  {
    hide Confined, Destinations, Sound, Run, Values, Held, AllFit, ApplyDrop, SingleCaller, DistinctRegs, Bits;
    hide Step, PassedTo, NoTwoEqual,
      DropIgnored;
    var op, n := p.ops[s.pc], |s.stack| - 1;
    var taken := s.stack[n].bits != 0;
    ghost var ws := Bits(s.stack[..n]);
    StackHeight(ctx.F(), s.stack);
    BitsPrefix(s.stack, n);
    StepBranch(sem, p, s, ParamsOf(p.ops, op.els.target.name));
    if taken {
      DropBits(s.stack[..n], op.thn.drop);
    }
    PassedIsKept(cc, op, taken, ws);
    ok := BranchIf(ctx, p.ops, cc, op, taken);
  }

  lemma BitsPrefix(vs: seq<Val>, n: nat)
    requires n <= |vs|
    ensures Bits(vs[..n]) == Bits(vs)[..n] && |Bits(vs[..n])| == n
  {
  }

  /** The machine is at an operator the generator follows: at a conditional branch, one with at most
      eight entries under the condition and no drop range ignored. */
  ghost predicate FollowedAt(alus: Alus, cc: Conventions, p: Prog, s: State) {
    s.Running? && s.pc < |p.ops| &&
    match p.ops[s.pc]
    case MBr(t) => t.To? && t in cc
    case MBlock(_, _, _, _) => true
    case MBrIf(thn, els) =>
      && els.target.To?
      && var types := ParamsOf(p.ops, els.target.name);
         && Branchable(p.ops, cc, p.ops[s.pc], types) && |s.stack| == |types| + 1 <= 9
         && !DropIgnored(cc, p.ops[s.pc], s.stack[|types|].bits != 0, |types|)
    case op => Straight(alus, op)
  }

  /** Any run through straight-line code, declarations and branches: after every number of steps the
      virtual stack denotes the machine's stack, and nothing else was touched: no register that is off
      limits and takes no block parameter, such as the VMContext pointer's, and no word of a frame of
      `floor` words, the least depth on the way.  `code` holds the instructions executed. */
  method Follow(ctx: Context, sem: Semantics, alus: Alus, cc: Conventions, p: Prog, count: nat, s: State,
                ghost floor: nat)
    requires ctx.Valid() && Held(ctx.F(), []) && Implements(sem, alus) && ConventionsOk(p, cc)
    requires s.Running? && Values(ctx.F()) == Bits(s.stack)
    requires forall i :: 0 <= i < count ==> FollowedAt(alus, cc, p, Steps(sem, p, i, s))
    requires Steps(sem, p, count, s).Running?
    requires floor <= ctx.depth && forall t :: t in cc ==> floor <= cc[t].depth
    modifies ctx
    ensures ctx.Valid() && Held(ctx.F(), [])
    ensures Steps(sem, p, count, s).Running? && Values(ctx.F()) == Bits(Steps(sem, p, count, s).stack)
    ensures Confined(old(ctx.F().m), ctx.F().m, Destinations(cc), floor)
    ensures |old(ctx.F().m.regs)| == NUM_GPRS == |ctx.F().m.regs|
    ensures VMCTX !in Destinations(cc) ==> ctx.F().m.regs[VMCTX] == old(ctx.F().m.regs)[VMCTX]
  {
    hide OffLimits, Bits;
    ghost var a := ctx.F();
    SoundSized(a);
    ConfinedSelf(a.m, Destinations(cc), floor);
    hide Step, OnWords, Values, Sound, Run, Held, Branchable, DropIgnored, DistinctRegs;
    hide Confined, Extends, Destinations;
    var t := s;
    for i := 0 to count
      invariant ctx.Valid() && Held(ctx.F(), [])
      invariant t == Steps(sem, p, i, s) && t.Running? && Values(ctx.F()) == Bits(t.stack)
      invariant floor <= ctx.depth && Confined(a.m, ctx.F().m, Destinations(cc), floor)
    {
      RunningBefore(sem, p, i, count, s);
      assert FollowedAt(alus, cc, p, t);
      var op := p.ops[t.pc];
      ghost var f := ctx.F();
      if op.MBr? {
        FollowBranch(ctx, p, sem, t, cc[op.target]);
        ConfinedToArgs(f.m, ctx.F().m, cc, op.target, f.depth);
      } else if op.MBrIf? {
        var ok := FollowBrIf(ctx, p, sem, cc, t);
      } else if op.MBlock? {
        DeclIdle(sem, p, t);
        SoundSized(f);
        ConfinedSelf(f.m, Destinations(cc), f.depth);
      } else {
        StepOnWords(sem, alus, p, t);
        GenerateOp(ctx, alus, op);
        ExtendsConfined(f, ctx.F(), Destinations(cc));
      }
      ConfinedNext(a.m, f.m, ctx.F().m, Destinations(cc), floor, f.depth);
      t := Step(sem, p, t);
    }
    VmctxConfined(a.m, ctx.F().m, Destinations(cc), floor);
  }

  lemma ConfinedSelf(m: Machine, dsts: set<nat>, floor: nat)
    requires |m.regs| == NUM_GPRS
    ensures Confined(m, m, dsts, floor)
  {
  }

  lemma ConfinedToArgs(a: Machine, b: Machine, cc: Conventions, t: Target, floor: nat)
    requires t in cc && Confined(a, b, RegsOf(cc[t].args), floor)
    ensures Confined(a, b, Destinations(cc), floor)
  {
    hide OffLimits, RegsOf, Destinations;
  }

  lemma ExtendsConfined(a: Frame, b: Frame, dsts: set<nat>)
    requires Extends(a, b, {})
    ensures Confined(a.m, b.m, dsts, a.depth) && a.depth <= b.depth
  {
  }

  lemma ConfinedNext(a: Machine, b: Machine, c: Machine, dsts: set<nat>, floor: nat, high: nat)
    requires Confined(a, b, dsts, floor) && Confined(b, c, dsts, high) && floor <= high
    ensures Confined(a, c, dsts, floor)
  {
    ConfinedTrans(a, b, c, dsts, dsts, floor, high);
    assert dsts + dsts == dsts;
  }

  lemma VmctxConfined(a: Machine, b: Machine, dsts: set<nat>, floor: nat)
    requires Confined(a, b, dsts, floor)
    ensures |a.regs| == NUM_GPRS == |b.regs| && (VMCTX !in dsts ==> b.regs[VMCTX] == a.regs[VMCTX])
  {
  }

  lemma DeclIdle(sem: Semantics, p: Prog, s: State)
    requires s.Running? && s.pc < |p.ops| && p.ops[s.pc].MBlock?
    ensures Step(sem, p, s) == s.(pc := s.pc + 1)
  {
  }
}
