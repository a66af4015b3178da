/** The one-pass register allocator: a virtual stack of locations, reference-counted registers
    and spilling.  Every method is specified on the machine that the code emitted so far produces
    from an arbitrary initial machine. */
module Allocator {
  import opened Microwasm
  import opened Locations
  import opened Shuffle
  import opened FrameFacts
  import opened StickyBit

  /** `Registers::new`: everything reserved, then the scratch registers released. */
  method FreshRegs() returns (bits: seq<bool>, counts: seq<nat>)
    ensures |bits| == NUM_GPRS && |counts| == NUM_GPRS
    ensures forall r :: 0 <= r < NUM_GPRS ==> counts[r] == Reserved(r) && (bits[r] <==> counts[r] == 0)
  {
    bits, counts := seq(NUM_GPRS, _ => false), seq(NUM_GPRS, _ => 1);
    var scratch := [6, 2, 1, 8, 9, 0, 10, 11];
    for i := 0 to |scratch|
      invariant |bits| == NUM_GPRS && |counts| == NUM_GPRS
      invariant forall r :: 0 <= r < NUM_GPRS ==>
        counts[r] == (if r in scratch[..i] then 0 else 1) && (bits[r] <==> counts[r] == 0)
    {
      counts := counts[scratch[i] := counts[scratch[i]] - 1];
      bits := bits[scratch[i] := true];
    }
    assert scratch[..|scratch|] == scratch;
  }

  class Context {
    var stack: seq<Loc>
    var depth: nat
    var bits: seq<bool>
    var counts: seq<nat>
    var code: seq<Ins>
    ghost const start: Machine

    /** Code for a function whose entry machine is `m`. */
    constructor (ghost m: Machine)
      requires |m.regs| == NUM_GPRS && m.rsp == Bottom(1)
      ensures Valid() && stack == [] && depth == 1 && Held(F(), []) && F().m == m
    {
      var b, c := FreshRegs();
      stack, depth, code, start := [], 1, [], m;
      bits, counts := b, c;
      new;
      FreshFrame(F());
    }

    ghost function F(): Frame
      reads this
    {
      Frame(stack, depth, counts, Run(start, code))
    }

    /** The bitmask and the counters agree. */
    ghost predicate Masked()
      reads this
    {
      |bits| == NUM_GPRS && |counts| == NUM_GPRS && forall r :: 0 <= r < NUM_GPRS ==> (bits[r] <==> counts[r] == 0)
    }

    ghost predicate Valid()
      reads this
    {
      Masked() && Sound(F())
    }

    // ------------------------------------------------------------ registers

    method MarkUsed(r: nat)
      requires Masked() && r < NUM_GPRS
      modifies this
      ensures Masked() && F() == old(F()).(counts := old(counts)[r := old(counts)[r] + 1])
    {
      bits := bits[r := false];
      counts := counts[r := counts[r] + 1];
    }

    /** Releasing a register that is already free is an error in the allocator's caller. */
    method Release(r: nat)
      requires Masked() && r < NUM_GPRS && counts[r] > 0
      modifies this
      ensures Masked() && F() == old(F()).(counts := old(counts)[r := old(counts)[r] - 1])
    {
      counts := counts[r := counts[r] - 1];
      if counts[r] == 0 {
        bits := bits[r := true];
      }
    }

    /** The free register with the lowest number. */
    method Take() returns (r: Option<nat>)
      requires Masked()
      modifies this
      ensures Masked()
      ensures r.None? ==> F() == old(F()) && forall q :: 0 <= q < NUM_GPRS ==> counts[q] > 0
      ensures r.Some? ==>
        r.value < NUM_GPRS && old(counts)[r.value] == 0 && forall q :: 0 <= q < r.value ==> counts[q] > 0
      ensures r.Some? ==> F() == old(F()).(counts := old(counts)[r.value := 1])
    {
      var lz := 0;
      while lz < NUM_GPRS && !bits[lz]
        invariant lz <= NUM_GPRS
        invariant forall q :: 0 <= q < lz ==> !bits[q]
      {
        lz := lz + 1;
      }
      if lz == NUM_GPRS {
        return None;
      }
      bits := bits[lz := false];
      counts := counts[lz := counts[lz] + 1];
      return Some(lz);
    }

    /** `apply_cc` and `set_state`: a block starts with the locations its convention names.  Whatever
        the registers were used for before, afterwards the stack is their only user. */
    method Enter(locs: seq<Loc>, d: nat)
      requires Sized(F().(counts := seq(NUM_GPRS, _ => 0), depth := d))
      requires forall i :: 0 <= i < |locs| ==> Live(locs[i], d)
      modifies this
      ensures Valid() && stack == locs && depth == d && F().m == old(F().m) && Held(F(), [])
    {
      hide Run, Sound, Held, Uses, Pins;
      bits, counts := FreshRegs();
      stack, depth := [], d;
      FreshFrame(F());
      for i := 0 to |locs|
        invariant Valid() && stack == locs[..i] && depth == d && F().m == old(F().m) && Held(F(), [])
      {
        EnterOne(F(), locs[i]);
        if locs[i].Reg? {
          MarkUsed(locs[i].r);
        }
        stack := stack + [locs[i]];
      }
    }

    /** The check made before every operator: recount the registers from the stack and compare. */
    method CheckRegs() returns (ok: bool)
      requires Valid()
      ensures ok <==> Held(F(), [])
    {
      var _, actual := FreshRegs();
      NoUses();
      for i := 0 to |stack|
        invariant |actual| == NUM_GPRS && forall r :: 0 <= r < NUM_GPRS ==>
          actual[r] == Reserved(r) + Uses(stack[..i], r)
      {
        UsesGrow(stack, i);
        assert Live(stack[i], depth);
        if stack[i].Reg? {
          actual := actual[stack[i].r := actual[stack[i].r] + 1];
        }
      }
      assert stack[..|stack|] == stack;
      ok := actual == counts;
      if !ok {
        assert exists r :: 0 <= r < NUM_GPRS && Pins(F(), r) != Uses([], r);
      }
    }

    // ------------------------------------------------------------ emission

    method Emit(i: Ins)
      requires Masked()
      modifies this
      ensures Masked() && F() == old(F()).(m := Execute(i, old(F().m)))
    {
      code := code + [i];
      assert code[..|code| - 1] == old(code);
    }

    function Source(l: Loc): (s: Operand)
      reads this
      ensures s == SourceOf(F(), l)
    {
      match l
      case Reg(r) => R(r)
      case Slot(o) => M(depth + o)
      case Imm(v) => I(v)
    }

    /** `copy_value` into a register. */
    method CopyToReg(src: Loc, dst: nat)
      requires Masked() && Sized(F()) && dst < NUM_GPRS
      modifies this
      ensures Masked()
      ensures F() == old(F()).(m := old(F().m).Write(dst, Denote(src, old(F().m))))
    {
      if src != Reg(dst) {
        Emit(Mov(dst, Source(src)));
      }
    }

    // ------------------------------------------------------------ spilling

    /** Registers and slots only: `into_reg` then never needs a register. */
    method PushPhysical(v: Loc) returns (l: Loc)
      requires Masked() && Sized(F()) && !v.Imm?
      requires v.Reg? ==> v.r < NUM_GPRS && counts[v.r] > 0
      modifies this
      ensures Masked() && F() == Pushed(old(F()), v) && l == Slot(Bottom(depth)) && depth == old(depth) + 1
    {
      l := Slot(Bottom(depth + 1));
      if v.Reg? {
        MarkUsed(v.r);
        Release(v.r);
        Emit(PushIns(Source(v)));
        Release(v.r);
      } else {
        Emit(PushIns(Source(v)));
      }
      depth := depth + 1;
    }

    /** Pushes the register of entry `pos` and points that entry and all later aliases at the new
        slot. */
    method Relocate(pos: nat)
      requires Valid() && pos < |stack| && stack[pos].Reg?
      modifies this
      ensures Valid() && Spilled(old(F()), F()) && |stack| == |old(stack)|
      ensures forall j :: pos <= j < |stack| ==> stack[j] != old(stack)[pos]
      ensures forall j :: 0 <= j < |stack| ==>
        || stack[j] == old(stack)[j]
        || (pos <= j && old(stack)[j] == old(stack)[pos] && stack[j] == Slot(Bottom(old(depth) + 1)))
    {
      hide Spilled, Sound, Run, Denote, Moved;
      var oldLoc := stack[pos];
      SoundSized(F());
      SpillFirst(F(), pos);
      var newLoc := PushPhysical(oldLoc);
      stack := stack[pos := newLoc];
      for i := pos + 1 to |stack|
        invariant Masked() && |stack| == |old(stack)|
        invariant Spilled(old(F()), F()) && Denote(newLoc, F().m) == Denote(oldLoc, F().m)
        invariant depth == old(depth) + 1 && newLoc == Slot(Bottom(depth))
        invariant forall j :: pos <= j < i ==> stack[j] != oldLoc
        invariant forall j :: 0 <= j < |stack| ==>
          stack[j] == old(stack)[j] || (pos <= j < i && old(stack)[j] == oldLoc && stack[j] == newLoc)
      {
        if stack[i] == oldLoc {
          AliasMoved(old(F()), F(), i, newLoc.o);
          ghost var f := F();
          stack := stack[i := newLoc];
          Release(oldLoc.r);
          MovedIs(f, i, newLoc, F());
        }
      }
      SpilledSound(old(F()), F());
    }

    /** Spills the register of the first register entry, with all its aliases, to one fresh slot. */
    method FreeReg() returns (ok: bool)
      requires Valid()
      modifies this
      ensures Valid() && Spilled(old(F()), F())
      ensures ok <==> AnyReg(old(stack))
      ensures ok ==> FirstReg(stack) > FirstReg(old(stack)) && stack[FirstReg(old(stack))].Slot?
      ensures ok ==> FirstMoved(old(stack), stack)
      ensures !ok ==> F() == old(F())
    {
      hide Spilled, Sound, Run;
      var pos := FirstReg(stack);
      ok := pos < |stack|;
      if ok {
        Relocate(pos);
      } else {
        SpilledSelf(F());
      }
    }

    /** Moves every entry that lives in one of the registers to the machine stack. */
    method SaveRegs(regs: set<nat>)
      requires Valid()
      modifies this
      ensures Valid() && Spilled(old(F()), F()) && |stack| == |old(stack)|
      ensures forall i :: 0 <= i < |stack| ==>
        if old(stack)[i].Reg? && old(stack)[i].r in regs then stack[i].Slot? else stack[i] == old(stack)[i]
    {
      hide Spilled, Sound, Run;
      SpilledSelf(F());
      for i := 0 to |stack|
        invariant Valid() && Spilled(old(F()), F()) && |stack| == |old(stack)|
        invariant forall j :: 0 <= j < i ==>
          if old(stack)[j].Reg? && old(stack)[j].r in regs then stack[j].Slot? else stack[j] == old(stack)[j]
        invariant forall j :: i <= j < |stack| ==>
          stack[j] == old(stack)[j] || (old(stack)[j].Reg? && old(stack)[j].r in regs && stack[j].Slot?)
      {
        if stack[i].Reg? && stack[i].r in regs {
          ghost var before := F();
          Relocate(i);
          SpilledTrans(old(F()), before, F());
        }
      }
    }

    /** Takes a free register, spilling as long as that may help.  Every value keeps its meaning,
        the register is scratch and no stack entry refers to it, and the method gives up only when
        all scratch registers are pinned.  Registers are spilled in the order in which they occur,
        until one becomes free. */
    method TakeReg() returns (r: Option<nat>)
      requires Valid()
      modifies this
      ensures Valid()
      ensures r.Some? ==> Granted(old(F()), F(), r.value)
      ensures r.None? ==> Spilled(old(F()), F()) && AllPinned(F())
      ensures |stack| == |old(stack)|
      ensures AnyFree(old(F())) ==> r.Some? && F() == old(F()).(counts := old(counts)[r.value := 1])
      ensures !AnyFree(old(F())) && AnyReg(old(stack)) ==> stack[FirstReg(old(stack))].Slot?
      ensures !AnyFree(old(F())) && !AnyReg(old(stack)) ==> r.None? && F() == old(F())
      ensures SpillOrder(old(F()), F())
      ensures r.Some? ==> !OffLimits(r.value)
      ensures Extends(old(F()), F(), {})
    {
      hide Spilled, Granted, SpillOrder, SpilledSoFar, FirstMoved, Sound;
      ghost var a := F();
      SpilledSelf(a);
      NothingSpilled(a);
      while true
        invariant Valid() && |stack| == |a.stack| && Spilled(a, F()) && SpilledSoFar(a, F())
        invariant F() == a || (!AnyFree(a) && AnyReg(a.stack) && stack[FirstReg(a.stack)].Slot?)
        decreases |stack| - FirstReg(stack)
      {
        ghost var before := F();
        SpilledSound(a, before);
        r := Take();
        if r.Some? {
          OrderKept(a, before, r.value);
          TakenIsGranted(a, before, F(), r.value);
          TakenExtends(a, F(), r);
          SameStackOrder(a, before, F());
          return;
        }
        var ok := FreeReg();
        if !ok {
          NoRegEntries(F());
          OrderExhausted(a, before);
          TakenExtends(a, F(), r);
          return None;
        }
        SpilledTrans(a, before, F());
        SpilledNext(a, before, F());
        SpilledSound(a, F());
      }
    }

    // ------------------------------------------------------------ temporaries

    method FreeValue(v: Loc)
      requires Masked() && (v.Reg? ==> v.r < NUM_GPRS && counts[v.r] > 0)
      modifies this
      ensures Masked() && F() == Freed(old(F()), v)
    {
      if v.Reg? {
        Release(v.r);
      }
    }

    /** Clones a temporary into a register that operations may overwrite: never one that a stack
        entry or another temporary still refers to. */
    method ToTempReg(v: Loc) returns (r: Option<nat>)
      requires Valid() && Live(v, depth) && (v.Reg? ==> Pins(F(), v.r) >= 1)
      modifies this
      ensures Valid()
      ensures r.Some? ==> Cloned(old(F()), F(), v, r.value, false) && Scratch(r.value)
      ensures Extends(old(F()), F(), {})
      ensures r.Some? && (AnyFree(old(F())) || Alone(old(F()), v)) ==> Unspilled(old(F()), F(), v, r.value)
      ensures r.None? ==> Spilled(old(F()), F()) && AllPinned(F()) && !AnyFree(old(F())) && !Alone(old(F()), v)
      ensures old(depth) <= depth
      ensures !v.Reg? && !AnyFree(old(F())) && AnyReg(old(stack)) ==> old(depth) < depth
    {
      hide Uses, Run, Values, Extends;
      if v.Reg? && counts[v.r] <= 1 {
        OnlyHolder(F(), v.r);
        SoundSized(F());
        MarkUsed(v.r);
        Unmoved(old(F()), F());
        return Some(v.r);
      }
      r := TakeReg();
      SpilledDeeper(old(F()), F(), r);
      if r.Some? {
        ghost var g := F();
        GrantedFacts(old(F()), g, r.value);
        CopyToReg(v, r.value);
        CloneFromGrant(old(F()), g, v, r.value);
        ClonedExtends(old(F()), F(), v, r.value, false);
      }
    }

    method IntoTempReg(v: Loc) returns (r: Option<nat>)
      requires Valid() && Live(v, depth) && (v.Reg? ==> Pins(F(), v.r) >= 1)
      modifies this
      ensures Valid()
      ensures r.Some? ==> Cloned(old(F()), F(), v, r.value, true) && Scratch(r.value)
      ensures Extends(old(F()), F(), {})
      ensures r.Some? && (AnyFree(old(F())) || Alone(old(F()), v)) ==> Unspilled(old(F()), F(), v, r.value)
      ensures r.None? ==> Spilled(old(F()), F()) && AllPinned(F()) && !AnyFree(old(F())) && !Alone(old(F()), v)
      ensures old(depth) <= depth
      ensures !v.Reg? && !AnyFree(old(F())) && AnyReg(old(stack)) ==> old(depth) < depth
    {
      r := ToTempReg(v);
      if r.Some? {
        CloneFreed(old(F()), F(), v, r.value);
        FreeValue(v);
      }
    }

    // ------------------------------------------------------------ stack operators

    method Pop() returns (l: Loc)
      requires Valid() && |stack| > 0
      modifies this
      ensures Valid() && F() == old(F()).(stack := old(stack)[..|old(stack)| - 1]) && l == old(stack)[|old(stack)| - 1]
    {
      PoppedFacts(F());
      l := stack[|stack| - 1];
      stack := stack[..|stack| - 1];
    }

    method Push(l: Loc)
      requires Valid() && Live(l, depth) && (l.Reg? ==> Pins(F(), l.r) > 0)
      modifies this
      ensures Valid() && F() == old(F()).(stack := old(stack) + [l])
    {
      PushedOn(F(), l);
      stack := stack + [l];
    }

    method Const(v: Word)
      requires Valid()
      modifies this
      ensures Valid() && F() == old(F()).(stack := old(stack) + [Imm(v)])
      ensures SamePins(old(F()), F()) && Values(F()) == old(Values(F())) + [v]
    {
      PushedOn(F(), Imm(v));
      Push(Imm(v));
    }

    method Pick(d: nat)
      requires Valid() && d < |stack|
      modifies this
      ensures Valid() && SamePins(old(F()), F()) && LiveEntry(old(F()), d) && F() == Picked(old(F()), d)
      ensures Values(F()) == old(Values(F())) + [old(Values(F()))[|old(stack)| - 1 - d]]
    {
      hide Run, Sound, Uses;
      var v := stack[|stack| - 1 - d];
      PickFacts(F(), |stack| - 1 - d);
      if v.Reg? {
        MarkUsed(v.r);
      }
      PushedOn(F(), v);
      stack := stack + [v];
    }

    method Swap(d: nat)
      requires Valid() && d < |stack|
      modifies this
      ensures Valid() && SamePins(old(F()), F()) && depth == old(depth) && F().m == old(F().m)
      ensures var vs, n := old(Values(F())), |old(stack)|;
              Values(F()) == vs[n - 1 := vs[n - 1 - d]][n - 1 - d := vs[n - 1]]
    {
      hide Sound, Run;
      var last := |stack| - 1;
      SwapFacts(F(), last, last - d);
      stack := stack[last := stack[last - d]][last - d := stack[last]];
    }

    /** Pops the `lo` topmost entries, frees the range, pushes the others back. */
    method Drop(lo: nat, hi: nat)
      requires Valid() && lo <= hi < |stack|
      modifies this
      ensures Valid() && SamePins(old(F()), F()) && depth == old(depth) && F().m == old(F().m)
      ensures Values(F()) == DropRange(old(Values(F())), lo, hi)
    {
      hide Sound, Run, Values, Around, DropRange;
      ghost var a := F();
      AroundSelf(a);
      var repush := PopOff(a, lo);
      FreeOff(a, repush, hi + 1 - lo);
      PushBack(a, repush);
      DropDone(a, F(), lo, hi);
    }

    method PopOff(ghost a: Frame, count: nat) returns (ls: seq<Loc>)
      requires Valid() && count <= |stack| && F() == a && Around(a, a, [])
      modifies this
      ensures Valid() && Around(a, F(), ls)
      ensures stack == a.stack[..|a.stack| - count] && ls == a.stack[|a.stack| - count..]
    {
      hide Sound, Run, Around;
      ls := [];
      var n := |stack|;
      for k := 0 to count
        invariant Valid() && Around(a, F(), ls)
        invariant stack == a.stack[..n - k] && ls == a.stack[n - k..]
      {
        TopSlice(a.stack, n - k);
        PopAround(a, F(), ls);
        var v := Pop();
        ls := [v] + ls;
      }
    }

    method FreeOff(ghost a: Frame, ghost ls: seq<Loc>, count: nat)
      requires Valid() && count <= |stack| && Around(a, F(), ls)
      modifies this
      ensures Valid() && Around(a, F(), ls) && stack == old(stack)[..|old(stack)| - count]
    {
      hide Sound, Run, Around, Freed;
      var n := |stack|;
      for k := 0 to count
        invariant Valid() && Around(a, F(), ls) && stack == old(stack)[..n - k]
      {
        TopSlice(old(stack), n - k);
        PopAround(a, F(), ls);
        var v := Pop();
        FreeAround(a, F(), v, ls);
        FreedStack(F(), v);
        FreeValue(v);
      }
    }

    method PushBack(ghost a: Frame, ls: seq<Loc>)
      requires Valid() && Around(a, F(), ls)
      modifies this
      ensures Valid() && Around(a, F(), []) && stack == old(stack) + ls
    {
      hide Sound, Run, Around;
      for k := 0 to |ls|
        invariant Valid() && Around(a, F(), ls[k..]) && stack == old(stack) + ls[..k]
      {
        PushAround(a, F(), ls[k..]);
        SplitAt(old(stack), ls, k);
        Push(ls[k]);
      }
      assert ls[..|ls|] == ls && ls[|ls|..] == [];
    }

    // ------------------------------------------------------------ integer arithmetic

    /** Combines the right operand into `lreg` in place; an immediate too wide for the instruction
        goes through a scratch register, which may spill. */
    method ApplyTo(f: (Word, Word) -> Word, lreg: nat, right: Loc)
      requires Valid() && lreg < NUM_GPRS && Uses(stack, lreg) == 0 && Live(right, depth)
      requires Held(F(), [Reg(lreg), right])
      modifies this
      ensures Valid() && Values(F()) == old(Values(F())) && Uses(stack, lreg) == 0 && SamePins(old(F()), F())
      ensures F().m.regs[lreg] == f(old(F().m.regs)[lreg], Denote(right, old(F().m)))
      ensures Extends(old(F()), F(), {lreg})
    {
      hide Run, Values, Uses, OffLimits;
      if right.Imm? && !SmallImm(right.v) {
        ApplyWide(f, lreg, right);
      } else {
        WriteUnused(F(), lreg, f(F().m.regs[lreg], Denote(right, F().m)));
        Emit(Alu(f, lreg, Source(right)));
      }
    }

    method ApplyWide(f: (Word, Word) -> Word, lreg: nat, right: Loc)
      requires Valid() && lreg < NUM_GPRS && Uses(stack, lreg) == 0 && right.Imm?
      requires Held(F(), [Reg(lreg), right])
      modifies this
      ensures Valid() && Values(F()) == old(Values(F())) && Uses(stack, lreg) == 0 && SamePins(old(F()), F())
      ensures F().m.regs[lreg] == f(old(F().m.regs)[lreg], right.v)
      ensures Extends(old(F()), F(), {lreg})
    {
      hide Run, Spilled, Granted, Pins, Values, Uses, OffLimits;
      ghost var a := F();
      SpareRegister(F(), [Reg(lreg), right]);
      PairUses(Reg(lreg), right);
      assert Pins(a, lreg) == 1;
      var scratch := TakeReg();
      if scratch.None? {
        StillHeld(a, F(), [Reg(lreg), right]);
        SpareRegister(F(), [Reg(lreg), right]);
        assert false;
      }
      ghost var g := F();
      GrantedFacts(a, g, scratch.value);
      CopyToReg(right, scratch.value);
      Emit(Alu(f, lreg, R(scratch.value)));
      WideImmediate(a, g, f, lreg, right.v, scratch.value);
      TwoWrites(a, g, F(), scratch.value, lreg);
      Release(scratch.value);
    }

    /** `binop!` and, with `commutes`, `commutative_binop!`: the top becomes the operation on the two
        popped values and nothing else changes its value, whatever aliases whatever and however
        many registers are taken. */
    method BinOp(f: (Word, Word) -> Word, commutes: bool)
      requires Valid() && |stack| >= 2 && Held(F(), [])
      requires commutes ==> forall x, y :: f(x, y) == f(y, x)
      modifies this
      ensures Valid() && Held(F(), [])
      ensures var vs, n := old(Values(F())), |old(stack)|; Values(F()) == vs[..n - 2] + [f(vs[n - 2], vs[n - 1])]
      ensures Extends(old(F()), F(), {})
    {
      hide Extends;
      hide Sound, Run, Values, Held, Cloned, Denote, Spilled, AllPinned, Uses, Pins;
      ghost var a := F();
      TwoPopped(a);
      SoundSized(a);
      var right := Pop();
      var left := Pop();
      ghost var b := F();
      if left.Imm? && right.Imm? {
        ImmediateResult(b, [left, right], f(left.v, right.v));
        FoldedValue(a, f);
        stack := stack + [Imm(f(left.v, right.v))];
        Unmoved(a, F());
        return;
      }
      var l, r := left, right;
      if commutes && !left.Reg? && !right.Imm? {
        l, r := right, left;
        HeldSwap(b, left, right);
      }
      HeldPins(b, l, r);
      Combine(f, l, r);
      SameStart(a, b, F(), {});
    }

    /** The left operand moves to a register that nothing else uses, and takes the result. */
    method Combine(f: (Word, Word) -> Word, l: Loc, r: Loc)
      requires Valid() && Held(F(), [l, r]) && Live(l, depth) && Live(r, depth)
      requires l.Reg? ==> Pins(F(), l.r) >= 1
      modifies this
      ensures Valid() && Held(F(), [])
      ensures Values(F()) == old(Values(F())) + [f(old(Denote(l, F().m)), old(Denote(r, F().m)))]
      ensures Extends(old(F()), F(), {})
    {
      hide Extends, Sound, Run, Values, Held, Cloned, Denote, Spilled, AllPinned, Uses, Pins, AnyFree, Scratch;
      ghost var b := F();
      var lreg := IntoTempReg(l);
      if lreg.None? {
        StillHeld(b, F(), [l, r]);
        SpareRegister(F(), [l, r]);
        assert false;
      }
      ghost var c := F();
      OperandsReady(b, c, l, r, lreg.value);
      ApplyTo(f, lreg.value, r);
      ghost var e := F();
      HeldAfter(c, e, [Reg(lreg.value), r]);
      ResultPushed(e, lreg.value, r);
      FreeValue(r);
      Push(Reg(lreg.value));
      CombinedExtends(b, c, e, lreg.value);
      SameEnd(b, e, F(), {});
    }

    // ------------------------------------------------------------ unsigned conversion

    /** Puts a value into a register to be read: its own, without a new holder, or a granted one. */
    method IntoReg(v: Loc) returns (r: Option<nat>)
      requires Valid() && Live(v, depth) && (v.Reg? ==> Pins(F(), v.r) >= 1)
      modifies this
      ensures Valid()
      ensures v.Reg? ==> r == Some(v.r) && F() == old(F())
      ensures !v.Reg? && r.Some? ==> Cloned(old(F()), F(), v, r.value, true) && Scratch(r.value)
      ensures Extends(old(F()), F(), {})
      ensures r.None? ==> Spilled(old(F()), F()) && AllPinned(F())
    {
      if v.Reg? {
        MarkUsed(v.r);
        Release(v.r);
        assert counts == old(counts);
        return Some(v.r);
      }
      r := IntoTempReg(v);
    }

    /** `f32_convert_from_i64_u` and `f64_convert_from_i64_u` on the path the sign test takes, with the
        result as a number.  It is correctly rounded.  The operand's register is reused without
        asking for a temporary one, so with the top bit set an entry that shares it loses its
        value, unless it is spilled to make room for the second register. */
    method ConvertFromU64(negative: bool, ghost p: nat) returns (ghost result: nat)
      requires Valid() && Held(F(), []) && |stack| > 0 && 1 <= p <= 61
      requires 0 <= Values(F())[|stack| - 1] < Pow2(64)
      requires negative <==> Values(F())[|stack| - 1] >= Pow2(63)
      modifies this
      ensures Valid() && Held(F(), []) && |stack| == |old(stack)| - 1
      ensures old(Values(F()))[|old(stack)| - 1] >= 0 && CorrectlyRounded(old(Values(F()))[|old(stack)| - 1], result, p)
      ensures Values(F()) == old(Values(F()))[..|old(stack)| - 1] <==> !(negative && LosesEntry(old(F())))
      ensures Extends(old(F()), F(), RegOf(old(stack)[|old(stack)| - 1]))
    {
      hide Extends, CorrectlyRounded;
      hide Sound, Run, Values, Held, Pow2, RoundTo, Pins, Uses, AnyFree, Precedes, LosesEntry;
      ghost var a := F();
      OnePopped(a);
      LosesWhen(a);
      SoundSized(a);
      var val := Pop();
      if val.Imm? {
        ImmediatePopped(F(), val);
        RoundCorrect(val.v, p);
        result := RoundTo(val.v, p);
        Unmoved(a, F());
      } else {
        ghost var b := F();
        result := ConvertValue(val, negative, p);
        SameStart(a, b, F(), RegOf(val));
      }
    }

    method ConvertValue(val: Loc, negative: bool, ghost p: nat) returns (ghost result: nat)
      requires Valid() && Held(F(), [val]) && Live(val, depth) && (val.Reg? ==> Pins(F(), val.r) >= 1) && 1 <= p <= 61
      requires 0 <= Denote(val, F().m) < Pow2(64) && (negative <==> Denote(val, F().m) >= Pow2(63))
      modifies this
      ensures Valid() && Held(F(), []) && |stack| == |old(stack)|
      ensures old(Denote(val, F().m)) >= 0 && CorrectlyRounded(old(Denote(val, F().m)), result, p)
      ensures Values(F()) == old(Values(F())) <==> !(negative && SharesRegister(old(F()), val))
      ensures Extends(old(F()), F(), RegOf(val))
    {
      hide Extends, CorrectlyRounded, OffLimits, Scratch;
      hide Sound, Run, Values, Held, Pow2, Halved, Pins, Uses, SharesRegister, Denote, Live;
      ghost var b := F();
      var reg, temp := OperandAndTemp(val);
      ghost var f := F();
      result := ConvertInPlace(reg, temp, negative, p);
      ghost var h := F();
      ConvertedExtends(b, f, h, val, reg, temp);
      BothReleased(h, reg, temp);
      Release(temp);
      Release(reg);
      SameEnd(b, h, F(), RegOf(val));
    }

    /** The operand in a register, its own if it is in one, and a second register. */
    method OperandAndTemp(val: Loc) returns (reg: nat, temp: nat)
      requires Valid() && Held(F(), [val]) && Live(val, depth) && (val.Reg? ==> Pins(F(), val.r) >= 1)
      modifies this
      ensures Valid() && Sized(F()) && reg < NUM_GPRS && temp < NUM_GPRS && reg != temp && |stack| == |old(stack)|
      ensures Held(F(), [Reg(reg), Reg(temp)]) && F().m.regs[reg] == old(Denote(val, F().m))
      ensures Values(F()) == old(Values(F())) && Uses(stack, temp) == 0
      ensures Uses(stack, reg) > 0 <==> SharesRegister(old(F()), val)
      ensures Extends(old(F()), F(), {}) && !OffLimits(temp) && if val.Reg? then reg == val.r else Scratch(reg)
    {
      hide Extends, OffLimits, Scratch;
      hide Sound, Run, Values, Held, Cloned, Granted, Spilled, AllPinned, Pins, Uses, AnyFree, SharesRegister;
      hide SpillOrder, Denote, Live;
      ghost var b := F();
      var r := IntoReg(val);
      ghost var c := F();
      OperandInReg(b, c, val, r);
      var t := TakeReg();
      TempTaken(c, F(), r.value, t);
      SharedAfter(b, c, F(), val, r.value);
      SoundSized(F());
      ExtendsMore(b, c, F(), {});
      reg, temp := r.value, t.value;
    }

    /** The instructions between taking the temporary register and giving both back. */
    method ConvertInPlace(reg: nat, temp: nat, negative: bool, ghost p: nat) returns (ghost result: nat)
      requires Valid() && reg < NUM_GPRS && temp < NUM_GPRS && reg != temp && Held(F(), [Reg(reg), Reg(temp)])
      requires Uses(stack, temp) == 0 && 1 <= p <= 61
      requires 0 <= F().m.regs[reg] < Pow2(64) && (negative <==> F().m.regs[reg] >= Pow2(63))
      modifies this
      ensures Valid() && Held(F(), [Reg(reg), Reg(temp)]) && |stack| == |old(stack)|
      ensures F() == if negative then Halved(old(F()), reg, temp) else old(F())
      ensures CorrectlyRounded(old(F().m.regs[reg]), result, p)
      ensures Values(F()) == old(Values(F())) <==> !(negative && Uses(old(stack), reg) > 0)
    {
      hide CorrectlyRounded, SamePins, StickyHalf, Shr, And, Or;
      hide Sound, Run, Values, Held, Pow2, RoundTo, Halved, Pins, Uses;
      ghost var f := F();
      SoundSized(f);
      if negative {
        HalvedKeepsValues(f, reg, temp);
        HalveInPlace(reg, temp);
        SamePinsHeld(f, F(), [Reg(reg), Reg(temp)]);
      }
      ghost var h := F();
      ConvertedNumber(f, h, reg, temp, p);
      result := if negative then 2 * RoundTo(h.m.regs[reg], p) else RoundTo(h.m.regs[reg], p);
    }

    method HalveInPlace(reg: nat, temp: nat)
      requires Masked() && Sized(F()) && reg < NUM_GPRS && temp < NUM_GPRS && reg != temp && F().m.regs[reg] >= 0
      modifies this
      ensures Masked() && F() == Halved(old(F()), reg, temp)
    {
      hide Run, Halved;
      HalvedRuns(F(), reg, temp);
      Emit(Mov(temp, R(reg)));
      Emit(Alu(Shr, temp, I(1)));
      Emit(Alu(And, reg, I(1)));
      Emit(Alu(Or, reg, R(temp)));
    }

    /** A value with its top bit set, duplicated and converted: the original is lost. */
    method PickThenConvert(ghost p: nat) returns (ghost result: nat)
      requires Valid() && Held(F(), []) && AnyFree(F()) && 1 <= p <= 61
      requires |stack| > 0 && stack[|stack| - 1].Reg? && Pow2(63) <= Values(F())[|stack| - 1] < Pow2(64)
      modifies this
      ensures Valid() && Held(F(), []) && |stack| == |old(stack)| && Values(F()) != old(Values(F()))
    {
      hide Sound, Run, Values, Pow2, AnyFree, Pins;
      ghost var a := F();
      Pick(0);
      SamePinsHeld(a, F(), []);
      PickLeavesFree(a, 0);
      PickedIsLost(a);
      result := ConvertFromU64(true, p);
    }

    // ------------------------------------------------------------ block arguments

    method PlaceTop(r: nat)
      requires Valid() && r < NUM_GPRS && |stack| > 0 && Sound(F().(counts := counts[r := counts[r] + 1]))
      requires var v := stack[|stack| - 1]; v.Reg? ==> v.r < NUM_GPRS && counts[v.r] > 0
      modifies this
      ensures Masked() && F() == Placed(old(F()), r)
    {
      hide Sound, Run;
      MarkUsed(r);
      SoundSized(F());
      var val := Pop();
      CopyToReg(val, r);
      FreeValue(val);
    }

    /** `do_pass_block_args` for register destinations: a parallel assignment.  The topmost values
        arrive in the destinations, in order; everything below keeps its value even where it
        lived in a destination. */
    method PassBlockArgs(args: seq<nat>)
      requires Valid() && DistinctRegs(args) && Unpinned(F(), args)
      modifies this
      ensures Valid() && Passed(old(F()), F(), args, Min(|args|, |old(stack)|))
      ensures Extends(old(F()), F(), RegsOf(args))
    {
      hide Extends;
      hide Uses, Pins, Scratch;
      hide Sound, Passed, Spilled, Run, Values, DistinctRegs, Unpinned, Placed;
      var count := Min(|args|, |stack|);
      PassedNone(F(), args);
      for k := 0 to count
        invariant Valid() && Passed(old(F()), F(), args, k)
      {
        ghost var f := F();
        var r := args[|args| - 1 - k];
        NextArg(old(F()), f, args, k);
        SpilledSelf(f);
        NotFree(f, r);
        if !bits[r] && stack[|stack| - 1] != Reg(r) {
          SaveRegs({r});
          UsesNone(stack, r);
        }
        SpilledSound(f, F());
        PlaceArg(f, F(), r);
        PlaceTop(r);
        PassedStep(old(F()), f, F(), args, k);
      }
      PassedExtends(old(F()), F(), args, count);
    }

    /** The next value down gets a place: a register, or a fresh slot once all scratch registers are
        pinned.  There is none for an immediate for which no register is left. */
    method PlaceNext(ghost a: Frame, args: seq<Loc>) returns (l: Option<Loc>)
      requires Valid() && Sound(a) && Serialized(a, F(), args) && |args| < |a.stack|
      modifies this
      ensures Valid() && old(depth) <= depth
      ensures l.Some? ==> Serialized(a, F(), [l.value] + args)
      ensures l.Some? && !l.value.Reg? ==> |args| >= 7
      ensures l.None? ==> |args| >= 8 && a.stack[|a.stack| - |args| - 1].Imm?
      ensures |a.stack| <= 8 ==> l.Some? && l.value.Reg?
      ensures |a.stack| <= 8 && Undisturbed(a, old(F()), args) ==> Undisturbed(a, F(), [l.value] + args)
      ensures l.Some? && depth == old(depth) ==> l.value.Reg? && Scratch(l.value.r)
      ensures Crowded(old(F())) ==> old(depth) < depth
      ensures Extends(old(F()), F(), {})
    {
      hide Extends;
      hide Sound, Run, Values, Held, Cloned, Serialized, AllPinned, Spilled, Undisturbed, Unspilled, Live, AnyFree,
        Crowded, Alone, Scratch, Pins, Uses, Pushed;
      ghost var f := F();
      SerializedNext(a, f, args);
      var val := Pop();
      ghost var g := F();
      UndisturbedNext(a, f, args);
      CrowdedNext(f);
      var r := IntoTempReg(val);
      ghost var h := F();
      if r.Some? {
        SerializedStep(a, f, h, args, val, r.value);
        if |a.stack| <= 8 && Undisturbed(a, f, args) {
          UndisturbedStep(a, f, h, args, val, r.value);
        }
        SameStart(f, g, h, {});
        return Some(Reg(r.value));
      }
      SameStart(f, g, h, {});
      NoneSpare(g, h, args, val, |args| + 1);
      if val.Imm? {
        SerializedImm(a, f, args);
        return None;
      }
      SerializedSlot(a, f, h, args, val);
      PushedExtends(h, val);
      var slot := PushPhysical(val);
      ExtendsMore(f, h, F(), {});
      return Some(slot);
    }

    /** `serialize_args`: the topmost values get a place each, `args` in stack order.  The places are
        distinct.  It fails only on an immediate, past the eighth value, for which no register is
        left.  On a stack of at most eight entries nothing is spilled, so the locations the entries
        had before still denote their values; more than eight values never fit in the frame they
        had. */
    method SerializeArgs(count: nat) returns (ok: bool, args: seq<Loc>)
      requires Valid() && Held(F(), []) && count <= |stack|
      modifies this
      ensures Valid()
      ensures ok ==> Serialized(old(F()), F(), args) && |args| == count
      ensures count < 8 || |old(stack)| <= 8 ==> ok && forall i :: 0 <= i < count ==> args[i].Reg?
      ensures !ok ==> count > 8 && exists i :: |old(stack)| - count <= i < |old(stack)| && old(stack)[i].Imm?
      ensures |old(stack)| <= 8 ==> Undisturbed(old(F()), F(), args)
      ensures old(depth) <= depth && (ok && count > 8 ==> old(depth) < depth)
      ensures count > 0 && Crowded(old(F())) ==> old(depth) < depth
      ensures Extends(old(F()), F(), {})
    {
      hide Extends;
      hide Sound, Run, Values, Held, Serialized, Undisturbed, Crowded, Scratch;
      ghost var a := F();
      args := [];
      SerializedNone(a);
      SoundSized(a);
      ExtendsSelf(a);
      for i := 0 to count
        invariant Valid() && |args| == i && Serialized(a, F(), args)
        invariant count < 8 || |a.stack| <= 8 ==> forall k :: 0 <= k < i ==> args[k].Reg?
        invariant |a.stack| <= 8 ==> Undisturbed(a, F(), args)
        invariant a.depth <= depth && (i == 0 ==> F() == a) && (i > 0 && Crowded(a) ==> a.depth < depth)
        invariant a.depth < depth || ScratchPlaces(args)
        invariant Extends(a, F(), {})
      {
        ghost var f := F();
        var l := PlaceNext(a, args);
        ExtendsMore(a, f, F(), {});
        if l.None? {
          return false, [];
        }
        args := [l.value] + args;
      }
      ok := true;
      if a.depth == depth {
        AtMostEight(a, F(), args);
      }
    }

    /** `serialize_block_args`: the topmost values are passed to the places of a convention, the next
        ones down get places of their own, and the frame takes the convention's depth.  The passed
        values arrive; so do the others, though a slot below that depth is not part of the frame. */
    method SerializeBlockArgs(args: seq<nat>, d: nat, count: nat) returns (ok: bool, places: seq<Loc>)
      requires Valid() && Held(F(), []) && DistinctRegs(args) && |args| <= count <= |stack|
      modifies this
      ensures Sized(F()) && depth == d && Masked()
      ensures ok ==> |places| == count && places[count - |args|..] == AsLocs(args)
      ensures |old(stack)| <= 8 || count < 8 ==> ok && forall i :: 0 <= i < count ==> places[i].Reg?
      ensures !ok ==> count > 8 && exists i :: |old(stack)| - count <= i < |old(stack)| && old(stack)[i].Imm?
      ensures ok ==> forall i :: 0 <= i < count ==>
        Denote(places[i], F().m) == old(Values(F()))[|old(stack)| - count + i]
      ensures ok ==> forall i :: 0 <= i < count && places[i].Reg? ==> Live(places[i], d)
      ensures Confined(old(F().m), F().m, RegsOf(args), old(depth))
    {
      hide Extends, Confined;
      hide Sound, Run, Values, Held, Serialized, Undisturbed, Crowded, Scratch, Passed, DistinctRegs, Unpinned,
        Survives, AsLocs;
      ghost var a := F();
      UnpinnedAtRest(a, args);
      PassBlockArgs(args);
      PassedIsSerialized(a, F(), args);
      places := AsLocs(args);
      ok := true;
      for i := |args| to count
        invariant Valid() && |places| == i && Serialized(a, F(), places)
        invariant count < 8 || |a.stack| <= 8 ==> forall k :: 0 <= k < i ==> places[k].Reg?
        invariant places[i - |args|..] == AsLocs(args)
        invariant Extends(a, F(), RegsOf(args))
      {
        ghost var g := F();
        var l := PlaceNext(a, places);
        ExtendsMore(a, g, F(), RegsOf(args));
        if l.None? {
          ok := false;
          break;
        }
        places := [l.value] + places;
      }
      ghost var f := F();
      SetStackDepth(d);
      ResizedConfined(a, f, F(), RegsOf(args));
      if ok {
        PlacesSurvive(a, f, F(), places);
      }
    }

    // ------------------------------------------------------------ stack depth

    method PopInto(trash: nat, count: nat)
      requires Masked()
      modifies this
      ensures Masked()
      ensures F() == old(F()).(m := PoppedInto(old(F().m), trash, count))
    {
      for k := 0 to count
        invariant Masked() && F() == old(F()).(m := PoppedInto(old(F().m), trash, k))
      {
        Emit(PopIns(trash));
      }
    }

    /** `set_stack_depth`.  Shrinking by one word wants a register to pop into; if none is free and
        an entry sits in a register, taking one spills that entry into the very words that are
        popped next.  In every other case nothing is lost. */
    method SetStackDepth(d: nat)
      requires Valid()
      modifies this
      ensures Masked() && Sized(F()) && depth == d && |stack| == |old(stack)| && Survives(old(F()), F())
      ensures AllLive(old(stack), d) ==> (Cramped(old(F()), d) <==> !AllLive(stack, d))
      ensures AllLive(old(stack), d) && !Cramped(old(F()), d) ==>
        Valid() && Resized(old(F()), F()) && Values(F()) == old(Values(F())) && SamePins(old(F()), F())
      ensures Confined(old(F().m), F().m, {}, old(depth))
    {
      hide OffLimits;
      hide Run, Sound, Values, Pins, Uses, Denote, Survives, AnyFree, AnyReg, Live;
      ghost var a := F();
      SoundSized(a);
      SoundLive(a);
      var lea := false;
      if d == depth + 1 {
        Emit(PushIns(R(0)));
      } else if depth == d + 1 {
        lea := PopWord(d);
      } else {
        lea := depth != d;
      }
      ghost var h := F();
      if lea {
        Emit(AddRsp(depth - d));
      }
      depth := d;
      if a.depth == d + 1 {
        SameContents(a.m, h.m, F().m, a.depth);
      }
      if a.depth != d + 1 {
        GrownFrame(a, F());
        GrownConfined(a, F());
      }
      if AllLive(a.stack, d) && !Cramped(a, d) {
        ResizedSound(a, F());
      }
    }

    /** One word less: pop it into a register if one can be had; otherwise the caller adjusts rsp. */
    method PopWord(d: nat) returns (lea: bool)
      requires Valid() && depth == d + 1
      modifies this
      ensures Masked() && |stack| == |old(stack)| && depth >= d
      ensures ShrunkTo(old(F()), F().(depth := d, m := F().m.(rsp := Bottom(d))), d)
      ensures F().m.rsp + (if lea then depth - d else 0) == Bottom(d)
      ensures Confined(old(F().m), F().m, {}, old(depth))
    {
      hide OffLimits;
      hide Run, Spilled, Granted, Values, Pins, FirstReg, Uses, Denote, ShrunkTo;
      ghost var a := F();
      var trash := TakeReg();
      ghost var g := F();
      ShrinkFacts(a, g, d, trash);
      ShrunkFrame(a, g, d, trash);
      lea := trash.None?;
      if trash.Some? {
        PopInto(trash.value, depth - d);
        TrashConfined(a, g, F(), trash.value);
        Release(trash.value);
      }
    }

    // ------------------------------------------------------------ conditions

    /** `br_if_true` and `br_if_false` up to the test: the condition is read in a register, which is
        then given back. */
    method TestTop() returns (ghost tested: Word)
      requires Valid() && Held(F(), []) && |stack| > 0
      modifies this
      ensures Valid() && Held(F(), []) && |stack| == |old(stack)| - 1
      ensures Values(F()) == old(Values(F()))[..|old(stack)| - 1] && tested == old(Values(F()))[|old(stack)| - 1]
      ensures Extends(old(F()), F(), {})
    {
      hide Extends;
      hide Sound, Run, Values, Held, Cloned, Spilled, AllPinned, Denote, Pins, Uses, AnyFree, Live;
      ghost var a := F();
      OnePopped(a);
      var val := Pop();
      ghost var b := F();
      var r := IntoReg(val);
      ghost var c := F();
      OperandInReg(b, c, val, r);
      SoundSized(c);
      tested := c.m.regs[r.value];
      OneReleased(c, r.value);
      Release(r.value);
      OnlyMachine(a, b, c, F());
    }

    // ------------------------------------------------------------ from block to block

    /** The first branch to a block and its label: the arguments are given places, and the block
        starts with exactly their values. */
    method OpenBlock(count: nat) returns (ok: bool, args: seq<Loc>)
      requires Valid() && Held(F(), []) && count <= |stack|
      modifies this
      ensures Valid() && (count < 8 ==> ok)
      ensures ok ==> stack == args && Held(F(), []) && Values(F()) == old(Values(F()))[|old(stack)| - count..]
      ensures Extends(old(F()), F(), {})
    {
      hide Extends;
      hide Sound, Run, Values, Held, Serialized, Undisturbed;
      ghost var a := F();
      ok, args := SerializeArgs(count);
      if ok {
        ghost var f := F();
        SerializedPlaces(a, f, args);
        Enter(args, depth);
        EnteredValues(a, f, F(), args);
        SameEnd(a, f, F(), {});
      }
    }

    /** A later branch to a block and its label: the values are passed to the places of the block's
        convention, the depth is set, and the block starts with exactly the values that were passed,
        whatever happens to the entries below. */
    method PassAndEnter(args: seq<nat>, d: nat)
      requires Valid() && DistinctRegs(args) && Unpinned(F(), args) && |args| <= |stack|
      modifies this
      ensures Valid() && stack == AsLocs(args) && depth == d && Held(F(), [])
      ensures Values(F()) == old(Values(F()))[|old(stack)| - |args|..]
      ensures Confined(old(F().m), F().m, RegsOf(args), old(depth))
    {
      hide Extends, Confined;
      hide Sound, Run, Values, Held, Passed, Survives, DistinctRegs, Unpinned, AsLocs;
      ghost var a := F();
      PassBlockArgs(args);
      ghost var f := F();
      SetStackDepth(d);
      ghost var g := F();
      ResizedConfined(a, f, g, RegsOf(args));
      PassedPlaces(a, f, g, args, d);
      Enter(AsLocs(args), d);
      PassedValues(a, f, g, F(), args);
    }

    // ------------------------------------------------------------ outgoing arguments

    /** One pass over the pending moves: what can be finished is, the rest is kept in order. */
    method Round(ghost j: Job, cur: seq<Move>) returns (kept: seq<Move>)
      requires Valid() && Outstanding(j, F(), cur)
      modifies this
      ensures Valid() && Outstanding(j, F(), kept) && |kept| <= |cur|
      ensures |kept| == |cur| ==> kept == cur && F() == old(F())
      ensures |kept| == |cur| ==> forall i :: 0 <= i < |cur| ==> cur[i].dst < NUM_GPRS && counts[cur[i].dst] > 0
    {
      hide Scratch;
      hide Sound, Run, Outstanding, Copied, Remove, Sources, Uses, Pins;
      kept := [];
      assert kept + cur[0..] == cur;
      for i := 0 to |cur|
        invariant Valid() && |kept| <= i && Outstanding(j, F(), kept + cur[i..])
        invariant |kept| == i ==> kept == cur[..i] && F() == old(F())
        invariant |kept| == i ==> forall k :: 0 <= k < i ==> cur[k].dst < NUM_GPRS && counts[cur[k].dst] > 0
      {
        var mv := cur[i];
        ghost var todo, n := kept + cur[i..], |kept|;
        NextMove(kept, cur, i);
        DestPins(j, F(), todo, n);
        if mv.src == Reg(mv.dst) {
          InPlace(j, F(), todo, n);
        } else if !bits[mv.dst] {
          kept := kept + [mv];
        } else {
          FinishNth(j, todo, n, mv);
        }
      }
      assert kept + cur[|cur|..] == kept;
      assert cur[..|cur|] == cur;
    }

    method FinishNth(ghost j: Job, ghost todo: seq<Move>, ghost n: nat, mv: Move)
      requires Valid() && Outstanding(j, F(), todo) && n < |todo| && todo[n] == mv && mv.src != Reg(mv.dst)
      requires mv.dst < NUM_GPRS && counts[mv.dst] == 0
      modifies this
      ensures Valid() && Outstanding(j, F(), Remove(todo, n))
    {
      hide Scratch, Sound, Run, Outstanding, Copied, Remove, Sources, Uses, Pins;
      ghost var f := F();
      CopyDone(j, f, todo, n);
      OutstandingSound(j, f, todo);
      FinishMove(mv);
      OutstandingSound(j, F(), Remove(todo, n));
    }

    /** `pass_outgoing_args` for register destinations.  Every destination receives the value its
        argument had, whatever the sources alias; the loop always finds a register source when it
        is blocked; it terminates; and the depth ends up even. */
    method PassOutgoingArgs(args: seq<nat>, ghost spare: nat)
      requires Valid() && ArgsOk(F(), args, spare)
      modifies this
      ensures Valid() && depth % 2 == 0 && old(depth) <= depth <= old(depth) + 1
      ensures ArgsPassed(old(F()), F(), args)
      ensures Extends(old(F()), F(), {})
    {
      hide Extends, Scratch;
      hide Sound, Run, Values, Outstanding, ArgsOk, Resized, ArgsPassed, Pins, Live;
      var target := AlignDepth(args, spare);
      ghost var a := F();
      ArgsHeight(a, args, spare);
      ghost var j := JobFor(a, args, spare);
      var pending := PopArgs(args, spare);
      FinishMoves(j, pending);
      ghost var f := F();
      ArgsShuffled(a, f, args, spare);
      ReadyToAlign(a, f, args, spare, target);
      SetStackDepth(target);
      ArgsAfter(a, f, F(), args);
      if a != old(F()) {
        ArgsBefore(old(F()), a, F(), args);
      }
      ArgsExtend(old(F()), F(), args);
    }

    /** What a direct call does before the `call` instruction: save everything live, save VMCTX on
        the machine stack, pass the arguments.  Nothing that must survive the call stays in a
        register the callee may change; VMCTX is in the slot `saved`, inside the frame. */
    method PrepareCall(count: nat) returns (ghost saved: int)
      requires Valid() && Held(F(), []) && count <= 5 && count <= |stack|
      modifies this
      ensures Valid() && depth % 2 == 0
      ensures Values(F()) == old(Values(F()))[..|old(stack)| - count]
      ensures F().m.regs[IntegerArgument(0)] == old(F().m.regs)[VMCTX]
      ensures forall k :: 1 <= k <= count ==>
        F().m.regs[IntegerArgument(k)] == old(Values(F()))[|old(stack)| - count + k - 1]
      ensures forall i :: 0 <= i < |stack| && stack[i].Reg? ==> !Scratch(stack[i].r)
      ensures Bottom(depth) <= saved < Bottom(old(depth)) && F().m.Mem(saved) == old(F().m.regs)[VMCTX]
      ensures Extends(old(F()), F(), {})
    {
      hide Extends;
      hide Run, Values, Pins, Sound, ArgsPassed, ArgsOk, Scratch, ArgRegs;
      SaveForCall(count);
      ghost var g := F();
      saved := Bottom(depth);
      PassOutgoingArgs(ArgRegs(count), 0);
      CallPassed(old(F()), g, F(), count);
      ExtendsMore(old(F()), g, F(), {});
      VmctxKept(old(F()), F());
    }

    method SaveForCall(ghost count: nat)
      requires Valid() && Held(F(), []) && count <= 5 && count <= |stack|
      modifies this
      ensures Valid() && Values(F()) == old(Values(F())) && |stack| == |old(stack)| && ArgsOk(F(), ArgRegs(count), 0)
      ensures forall i :: 0 <= i < |stack| && stack[i].Reg? ==> !Scratch(stack[i].r)
      ensures F().m.Mem(Bottom(depth)) == old(F().m.regs)[VMCTX] && old(depth) < depth
      ensures Extends(old(F()), F(), {})
    {
      hide Extends;
      hide Run, Values, Pins, ArgsOk, ArgRegs, Spilled;
      SaveRegs({6, 2, 1, 8, 9, 0, 10, 11});
      ghost var f := F();
      StillHeld(old(F()), f, []);
      SpilledSound(old(F()), f);
      SpilledRegs(old(F()), f);
      Emit(PushIns(R(VMCTX)));
      depth := depth + 1;
      CallReady(f, F(), count);
      SavedExtends(old(F()), f, F());
    }

    method AlignDepth(args: seq<nat>, ghost spare: nat) returns (target: nat)
      requires Valid() && ArgsOk(F(), args, spare)
      modifies this
      ensures Valid() && ArgsOk(F(), args, spare) && target == depth && depth % 2 == 0 &&
        old(depth) <= depth <= old(depth) + 1
      ensures F() == old(F()) || (Resized(old(F()), F()) && Values(F()) == old(Values(F())) && SamePins(old(F()), F()))
    {
      hide Sound, Run, Values, ArgsOk, Resized;
      if depth % 2 != 0 {
        GrowOk(F());
        SetStackDepth(depth + 1);
        ArgsStill(old(F()), F(), args, spare);
      }
      target := depth;
    }

    /** Rounds until nothing is pending.  A round that finishes nothing is followed by a push that
        leaves fewer register sources before the first one. */
    method FinishMoves(ghost j: Job, moves: seq<Move>)
      requires Valid() && Outstanding(j, F(), moves)
      modifies this
      ensures Valid() && Outstanding(j, F(), [])
    {
      hide Sound, Run, Outstanding;
      var pending := moves;
      while pending != []
        invariant Valid() && Outstanding(j, F(), pending)
        decreases |pending|, |pending| - FirstReg(Sources(pending))
      {
        var before := pending;
        pending := Round(j, before);
        if |pending| == |before| {
          pending := BreakCycle(j, pending);
        }
      }
    }

    method BreakCycle(ghost j: Job, cur: seq<Move>) returns (next: seq<Move>)
      requires Valid() && Outstanding(j, F(), cur) && cur != []
      requires forall i :: 0 <= i < |cur| ==> cur[i].dst < NUM_GPRS && counts[cur[i].dst] > 0
      modifies this
      ensures Valid() && Outstanding(j, F(), next) && |next| == |cur|
      ensures FirstReg(Sources(next)) > FirstReg(Sources(cur))
    {
      hide Sound, Run, Outstanding, Pushed;
      BlockedHasRegister(j, F(), cur);
      var k := FirstReg(Sources(cur));
      var src := cur[k].src;
      CycleBroken(j, F(), cur, k);
      SoundSized(F());
      var slot := PushPhysical(src);
      next := Redirect(cur, src, slot);
      OutstandingSound(j, F(), next);
    }

    method PopArgs(args: seq<nat>, ghost spare: nat) returns (pending: seq<Move>)
      requires Valid() && ArgsOk(F(), args, spare)
      modifies this
      ensures Valid() && Outstanding(JobFor(old(F()), args, spare), F(), pending)
    {
      hide Sound, Run, Outstanding, ArgsOk, Popped;
      pending := [];
      ArgsHeight(F(), args, spare);
      PoppedNone(F(), args);
      for i := 0 to |args|
        invariant Valid() && |pending| == i && Popped(old(F()), F(), args, pending)
      {
        PoppedNext(old(F()), F(), args, pending);
        var val := Pop();
        pending := pending + [Move(val, args[|args| - 1 - i])];
      }
      ShuffleStarts(old(F()), F(), args, pending, spare);
    }

    method FinishMove(mv: Move)
      requires Valid() && mv.dst < NUM_GPRS && mv.src != Reg(mv.dst)
      requires mv.src.Reg? ==> mv.src.r < NUM_GPRS && counts[mv.src.r] > 0
      modifies this
      ensures Masked() && F() == Copied(old(F()), mv)
    {
      hide Run;
      MarkUsed(mv.dst);
      CopyToReg(mv.src, mv.dst);
      FreeValue(mv.src);
    }
  }
}
