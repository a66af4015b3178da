/** Lemmas about frames, one for each small step of the allocator: handing out a register,
    cloning a temporary, combining operands, placing a block argument, resizing the stack. */
module FrameFacts {
  import opened Microwasm
  import opened Locations
  import opened Shuffle
  import opened StickyBit

  predicate AnyReg(s: seq<Loc>) {
    FirstReg(s) < |s|
  }

  ghost predicate AnyFree(f: Frame) {
    exists r :: 0 <= r < |f.counts| && f.counts[r] == 0
  }

  // ---------------------------------------------------------------- the order of spilling

  /** All entries in the register of the first register entry moved to a slot, and no others. */
  ghost predicate FirstMoved(s: seq<Loc>, t: seq<Loc>)
    requires AnyReg(s)
  {
    && |t| == |s|
    && (forall j :: 0 <= j < |t| ==> t[j] != s[FirstReg(s)])
    && (forall j :: 0 <= j < |t| ==> t[j] == s[j] || (s[j] == s[FirstReg(s)] && t[j].Slot?))
  }

  /** Spilling the entries of the register would make it free. */
  predicate Freeable(a: Frame, q: nat) {
    q < |a.counts| && Scratch(q) && Pins(a, q) == 0
  }

  /** An entry in such a register comes before every entry in `r`. */
  ghost predicate Precedes(a: Frame, r: nat) {
    exists j :: 0 <= j < |a.stack| && a.stack[j].Reg? && Freeable(a, a.stack[j].r) &&
      forall k :: 0 <= k <= j ==> a.stack[k] != Reg(r)
  }

  /** Which registers lose their entries when one is taken: a register that spilling would not free
      keeps its entries if nothing had to be spilled or one that it would free came first, and
      loses all of them otherwise. */
  ghost predicate SpillOrder(a: Frame, b: Frame) {
    && |b.stack| == |a.stack|
    && forall r: nat :: !Freeable(a, r) ==>
         if AnyFree(a) || Precedes(a, r)
         then forall k :: 0 <= k < |a.stack| && a.stack[k] == Reg(r) ==> b.stack[k] == Reg(r)
         else forall k :: 0 <= k < |b.stack| ==> b.stack[k] != Reg(r)
  }

  /** The registers spilled so far lost all their entries, came before all others, and none of them
      had one before it that spilling would have freed. */
  ghost predicate SpilledSoFar(a: Frame, f: Frame) {
    && |f.stack| == |a.stack|
    && (forall j :: 0 <= j < |a.stack| ==>
          f.stack[j] == a.stack[j] || (a.stack[j].Reg? && f.stack[j].Slot? && SpilledOne(a, f, a.stack[j])))
  }

  ghost predicate SpilledOne(a: Frame, f: Frame, l: Loc)
    requires l.Reg?
  {
    && (forall k :: 0 <= k < |f.stack| ==> f.stack[k] != l)
    && (exists i :: 0 <= i < FirstReg(f.stack) && i < |a.stack| && a.stack[i] == l)
    && !Precedes(a, l.r)
  }

  lemma NothingSpilled(a: Frame)
    ensures SpilledSoFar(a, a)
  {
  }

  /** While no register is free, no register that spilling frees has been spilled. */
  lemma StillThere(a: Frame, f: Frame, j: nat)
    requires Spilled(a, f) && SpilledSoFar(a, f) && !AnyFree(f)
    requires j < |a.stack| && a.stack[j].Reg? && Freeable(a, a.stack[j].r)
    ensures f.stack[j] == a.stack[j]
  {
    var q := a.stack[j].r;
    assert Pins(f, q) == Pins(a, q) && f.counts[q] > 0;
    UsesNone(f.stack, q);
  }

  lemma SpilledNext(a: Frame, f: Frame, g: Frame)
    requires Spilled(a, f) && SpilledSoFar(a, f) && !AnyFree(f) && AnyReg(f.stack)
    requires FirstMoved(f.stack, g.stack) && FirstReg(g.stack) > FirstReg(f.stack)
    ensures SpilledSoFar(a, g)
  {
    hide Spilled;
    var pos := FirstReg(f.stack);
    var l := f.stack[pos];
    FirstIsLate(a, f, pos);
    assert a.stack[pos] == l;
    forall j | 0 <= j < |a.stack|
      ensures g.stack[j] == a.stack[j] || (a.stack[j].Reg? && g.stack[j].Slot? && SpilledOne(a, g, a.stack[j]))
    {
      if f.stack[j] != a.stack[j] {
        var i :| 0 <= i < FirstReg(f.stack) && i < |a.stack| && a.stack[i] == a.stack[j];
        assert i < FirstReg(g.stack);
      }
    }
  }

  lemma FirstIsLate(a: Frame, f: Frame, pos: nat)
    requires Spilled(a, f) && SpilledSoFar(a, f) && !AnyFree(f) && AnyReg(f.stack) && pos == FirstReg(f.stack)
    ensures !Precedes(a, f.stack[pos].r)
  {
    var r := f.stack[pos].r;
    if Precedes(a, r) {
      var j :| 0 <= j < |a.stack| && a.stack[j].Reg? && Freeable(a, a.stack[j].r) &&
        forall k :: 0 <= k <= j ==> a.stack[k] != Reg(r);
      StillThere(a, f, j);
    }
  }

  /** A register is free now: the order is as promised. */
  lemma OrderKept(a: Frame, f: Frame, q: nat)
    requires Spilled(a, f) && SpilledSoFar(a, f) && q < NUM_GPRS && f.counts[q] == 0 && (f == a || !AnyFree(a))
    ensures SpillOrder(a, f)
  {
    forall r: nat | !Freeable(a, r)
      ensures if AnyFree(a) || Precedes(a, r)
              then forall k :: 0 <= k < |a.stack| && a.stack[k] == Reg(r) ==> f.stack[k] == Reg(r)
              else forall k :: 0 <= k < |f.stack| ==> f.stack[k] != Reg(r)
    {
      if !AnyFree(a) && !Precedes(a, r) {
        FreedFirst(a, f, q, r);
      }
    }
  }

  lemma FreedFirst(a: Frame, f: Frame, q: nat, r: nat)
    requires Spilled(a, f) && SpilledSoFar(a, f) && q < NUM_GPRS && f.counts[q] == 0 && !AnyFree(a)
    requires !Freeable(a, r) && !Precedes(a, r)
    ensures forall k :: 0 <= k < |f.stack| ==> f.stack[k] != Reg(r)
  {
    assert a.counts[q] > 0 && Pins(f, q) == Pins(a, q) && Pins(f, q) >= 0;
    UsesNone(a.stack, q);
    UsesNone(f.stack, q);
    var j :| 0 <= j < |a.stack| && a.stack[j] == Reg(q);
    var i :| 0 <= i < FirstReg(f.stack) && i < |a.stack| && a.stack[i] == a.stack[j];
    assert Freeable(a, a.stack[i].r);
    var n :| 0 <= n <= i && a.stack[n] == Reg(r);
    assert SpilledOne(a, f, a.stack[n]);
  }

  lemma OrderExhausted(a: Frame, f: Frame)
    requires Spilled(a, f) && SpilledSoFar(a, f) && !AnyReg(f.stack) && (f == a || !AnyFree(a))
    requires forall r :: 0 <= r < NUM_GPRS ==> f.counts[r] > 0
    ensures SpillOrder(a, f)
  {
    assert !AnyFree(f);
    forall r: nat
      ensures !Precedes(a, r)
    {
      if Precedes(a, r) {
        var j :| 0 <= j < |a.stack| && a.stack[j].Reg? && Freeable(a, a.stack[j].r) &&
          forall k :: 0 <= k <= j ==> a.stack[k] != Reg(r);
        StillThere(a, f, j);
      }
    }
  }

  lemma SameStackOrder(a: Frame, f: Frame, g: Frame)
    requires SpillOrder(a, f) && g.stack == f.stack
    ensures SpillOrder(a, g)
  {
  }

  /** `b` is `a` after spills, with the register `q`, which nothing refers to, handed out. */
  ghost predicate Granted(a: Frame, b: Frame, q: nat) {
    && q < NUM_GPRS && Scratch(q) && |b.counts| == NUM_GPRS && b.counts[q] == 1
    && Spilled(a, b.(counts := b.counts[q := 0]))
  }

  lemma GrantedFacts(a: Frame, b: Frame, q: nat)
    requires Granted(a, b, q)
    ensures q < NUM_GPRS && b.counts[q] == 1
    ensures Sound(b) && Uses(b.stack, q) == 0 && Pins(a, q) == 0 && Pins(b, q) == 1
    ensures forall r :: 0 <= r < NUM_GPRS && r != q ==> Pins(b, r) == Pins(a, r)
  {
    var c := b.(counts := b.counts[q := 0]);
    assert Pins(c, q) >= 0;
    forall r | 0 <= r < NUM_GPRS && r != q
      ensures Pins(b, r) == Pins(a, r)
    {
      assert Pins(c, r) == Pins(a, r);
    }
    assert Pins(c, q) == Pins(a, q);
  }

  /** The last entries of `a` are in the argument registers, which are pinned for them; what stays
      on the stack and every other register that is in use is as before. */
  ghost predicate ArgsPassed(a: Frame, b: Frame, args: seq<nat>) {
    && Sound(a) && Sound(b) && |args| <= |a.stack|
    && b.stack == a.stack[..|a.stack| - |args|] && Values(b) == Values(a)[..|a.stack| - |args|]
    && (forall i :: 0 <= i < |args| ==> args[i] < NUM_GPRS && b.m.regs[args[i]] == Values(a)[|a.stack| - |args| + i])
    && (forall r :: 0 <= r < NUM_GPRS ==> Pins(b, r) == Pins(a, r) + if r in args then 1 else 0)
    && (forall r :: 0 <= r < NUM_GPRS && r !in args && a.counts[r] > 0 && b.counts[r] > 0 ==>
          b.m.regs[r] == a.m.regs[r])
    && SlotsKept(a, b)
  }

  lemma GrowOk(f: Frame)
    requires Sound(f)
    ensures AllLive(f.stack, f.depth + 1)
  {
  }

  lemma ArgsHeight(a: Frame, args: seq<nat>, spare: nat)
    requires ArgsOk(a, args, spare)
    ensures |args| <= |a.stack| && DistinctArgs(args) && Sound(a) && forall i :: 0 <= i < |args| ==> Scratch(args[i])
  {
  }

  lemma ArgsStill(a: Frame, b: Frame, args: seq<nat>, spare: nat)
    requires ArgsOk(a, args, spare) && Sound(a) && Sound(b) && (b == a || Resized(a, b))
    ensures ArgsOk(b, args, spare)
  {
    assert forall r :: 0 <= r < NUM_GPRS ==> Pins(b, r) == Pins(a, r);
  }

  lemma PoppedNone(a: Frame, args: seq<nat>)
    requires Sound(a) && |args| <= |a.stack|
    ensures Popped(a, a, args, [])
  {
    NoSources();
    assert a.stack == a.stack[..|a.stack|];
  }

  lemma BlockedHasRegister(j: Job, f: Frame, todo: seq<Move>)
    requires Outstanding(j, f, todo) && todo != []
    requires forall i :: 0 <= i < |todo| ==> todo[i].dst < NUM_GPRS && f.counts[todo[i].dst] > 0
    ensures FirstReg(Sources(todo)) < |todo|
  {
    DestPins(j, f, todo, 0);
    UsesNone(Sources(todo), todo[0].dst);
  }

  lemma ReadyToAlign(a: Frame, f: Frame, args: seq<nat>, spare: nat, target: nat)
    requires ArgsOk(a, args, spare) && Outstanding(JobFor(a, args, spare), f, []) && target == a.depth
    ensures AllLive(f.stack, target)
    ensures !Cramped(f, target)
  {
    assert f.counts[spare] == 0;
  }

  /** The shuffle alone, before the depth is put back. */
  lemma ArgsShuffled(a: Frame, f: Frame, args: seq<nat>, spare: nat)
    requires ArgsOk(a, args, spare) && Outstanding(JobFor(a, args, spare), f, [])
    ensures ArgsPassed(a, f, args)
  {
    hide Outstanding, ArgsOk, Uses, Pins, Values, Live, SlotsKept;
    ShuffleEnds(a, f, args, spare);
    ArgsHeight(a, args, spare);
  }

  lemma ArgsBefore(o: Frame, a: Frame, b: Frame, args: seq<nat>)
    requires Sound(o) && Sound(a) && Resized(o, a) && Values(a) == Values(o) && SamePins(o, a) && o.depth <= a.depth
    requires ArgsPassed(a, b, args)
    ensures ArgsPassed(o, b, args)
  {
    hide Values, Uses, Live, Sound, Pins;
    BothSized(o, a);
  }

  lemma BothSized(o: Frame, a: Frame)
    requires Sound(o) && Sound(a)
    ensures Sized(o) && Sized(a)
  {
  }

  lemma ArgsAfter(a: Frame, f: Frame, b: Frame, args: seq<nat>)
    requires ArgsPassed(a, f, args)
    requires Sound(f) && Sound(b) && Resized(f, b) && Values(b) == Values(f) && SamePins(f, b) && a.depth <= b.depth
    ensures ArgsPassed(a, b, args)
  {
    hide Values, Uses, Live;
    forall i | 0 <= i < |args|
      ensures args[i] < NUM_GPRS && b.m.regs[args[i]] == Values(a)[|a.stack| - |args| + i]
    {
      assert args[i] in args;
      PinnedUsed(a, f, args[i]);
    }
  }

  lemma PinnedUsed(a: Frame, f: Frame, r: nat)
    requires Sound(a) && Sound(f) && r < NUM_GPRS && Pins(f, r) == Pins(a, r) + 1
    ensures f.counts[r] > 0
  {
    assert Pins(a, r) >= 0;
  }

  lemma NextMove(kept: seq<Move>, cur: seq<Move>, i: nat)
    requires i < |cur|
    ensures |kept| < |kept + cur[i..]| && (kept + cur[i..])[|kept|] == cur[i]
    ensures Remove(kept + cur[i..], |kept|) == kept + cur[i + 1..]
    ensures (kept + [cur[i]]) + cur[i + 1..] == kept + cur[i..]
    ensures cur[..i] + [cur[i]] == cur[..i + 1]
  {
  }

  lemma OutstandingSound(j: Job, f: Frame, todo: seq<Move>)
    requires Outstanding(j, f, todo)
    ensures Sound(f)
  {
  }

  function PoppedInto(m: Machine, trash: nat, count: nat): (n: Machine)
    ensures |n.regs| == |m.regs| && n.rsp == m.rsp + count && n.mem == m.mem
    ensures forall r :: 0 <= r < |m.regs| && r != trash ==> n.regs[r] == m.regs[r]
  {
    if count == 0 then m else Execute(PopIns(trash), PoppedInto(m, trash, count - 1))
  }

  /** Shrinking by one word with no free register and an entry that would be spilled. */
  ghost predicate Cramped(f: Frame, d: nat) {
    f.depth == d + 1 && !AnyFree(f) && AnyReg(f.stack)
  }

  /** Only rsp, words outside the new frame and registers nobody holds may differ. */
  ghost predicate Resized(a: Frame, b: Frame)
    requires Sound(a)
  {
    && b.stack == a.stack && b.counts == a.counts && |b.m.regs| == NUM_GPRS
    && (forall r :: 0 <= r < NUM_GPRS && a.counts[r] > 0 ==> b.m.regs[r] == a.m.regs[r])
    && (forall o {:trigger b.m.Mem(o)} :: Bottom(a.depth) <= o ==> b.m.Mem(o) == a.m.Mem(o))
  }

  predicate AllLive(stack: seq<Loc>, d: nat) {
    forall i :: 0 <= i < |stack| ==> Live(stack[i], d)
  }

  /** Pinned registers and the slots in use keep their contents. */
  ghost predicate Survives(a: Frame, b: Frame)
    requires Sound(a)
  {
    && |b.m.regs| == NUM_GPRS
    && (forall r :: 0 <= r < NUM_GPRS && Pins(a, r) > 0 ==> b.m.regs[r] == a.m.regs[r])
    && (forall o {:trigger b.m.Mem(o)} :: Bottom(a.depth) <= o ==> b.m.Mem(o) == a.m.Mem(o))
  }

  lemma ShrinkFacts(a: Frame, g: Frame, d: nat, trash: Option<nat>)
    requires Sound(a) && a.depth == d + 1
    requires trash.Some? ==> Granted(a, g, trash.value)
    requires trash.None? ==> Spilled(a, g)
    requires AnyFree(a) ==> trash.Some? && g == a.(counts := a.counts[trash.value := 1])
    requires |g.stack| == |a.stack|
    requires !AnyFree(a) && AnyReg(a.stack) ==> g.stack[FirstReg(a.stack)].Slot?
    requires !AnyFree(a) && !AnyReg(a.stack) ==> trash.None? && g == a
    ensures Sized(g) && d <= g.depth && g.m.regs == a.m.regs && SlotsKept(a, g)
    ensures trash.Some? ==> trash.value < NUM_GPRS && g.counts[trash.value] == 1 && Pins(a, trash.value) == 0
    ensures Cramped(a, d) ==> !AllLive(g.stack, d)
    ensures !Cramped(a, d) ==> g.stack == a.stack && g.m == a.m
    ensures !Cramped(a, d) && trash.Some? ==> a.counts[trash.value] == 0 && g.counts == a.counts[trash.value := 1]
    ensures !Cramped(a, d) && trash.None? ==> g.counts == a.counts
  {
    if trash.Some? {
      GrantedFacts(a, g, trash.value);
    }
    if Cramped(a, d) {
      var i := FirstReg(a.stack);
      assert a.stack[i].Reg? && g.stack[i].Slot?;
      assert !Live(g.stack[i], d);
    }
  }

  /** `b` is `a` one word shorter: pinned registers and used slots survive, and unless the shrink was
      cramped nothing that is in use has changed. */
  ghost predicate ShrunkTo(a: Frame, b: Frame, d: nat)
    requires Sound(a)
  {
    && Sized(b) && b.depth == d && Survives(a, b)
    && (if Cramped(a, d) then !AllLive(b.stack, d) else Resized(a, b))
  }

  lemma ShrunkFrame(a: Frame, g: Frame, d: nat, trash: Option<nat>)
    requires Sound(a) && Sized(g) && d <= g.depth && g.m.regs == a.m.regs && SlotsKept(a, g)
    requires trash.Some? ==> trash.value < NUM_GPRS && g.counts[trash.value] == 1 && Pins(a, trash.value) == 0
    requires Cramped(a, d) ==> !AllLive(g.stack, d)
    requires !Cramped(a, d) ==> g.stack == a.stack && g.m == a.m
    requires !Cramped(a, d) && trash.Some? ==> a.counts[trash.value] == 0 && g.counts == a.counts[trash.value := 1]
    requires !Cramped(a, d) && trash.None? ==> g.counts == a.counts
    ensures trash.None? ==> ShrunkTo(a, g.(depth := d, m := g.m.(rsp := Bottom(d))), d)
    ensures trash.Some? ==>
      var t := trash.value;
      ShrunkTo(a, g.(depth := d, m := PoppedInto(g.m, t, g.depth - d), counts := g.counts[t := 0]), d)
  {
    hide Pins, Live, Uses;
    forall m: Machine, o: int | m.mem == g.m.mem && Bottom(a.depth) <= o
      ensures m.Mem(o) == a.m.Mem(o)
    {
      assert m.Mem(o) == g.m.Mem(o);
    }
  }

  lemma SoundLive(a: Frame)
    requires Sound(a)
    ensures AllLive(a.stack, a.depth)
  {
  }

  lemma SameContents(a: Machine, b: Machine, c: Machine, floor: nat)
    requires Confined(a, b, {}, floor) && c.regs == b.regs && c.mem == b.mem
    ensures Confined(a, c, {}, floor)
  {
    hide OffLimits;
    assert forall o :: c.Mem(o) == b.Mem(o);
  }

  lemma GrownConfined(a: Frame, b: Frame)
    requires Sound(a) && b.m.regs == a.m.regs
    requires forall o {:trigger b.m.Mem(o)} :: Bottom(a.depth) <= o ==> b.m.Mem(o) == a.m.Mem(o)
    ensures Confined(a.m, b.m, {}, a.depth)
  {
  }

  lemma GrownFrame(a: Frame, b: Frame)
    requires Sound(a) && b.stack == a.stack && b.counts == a.counts && b.m.regs == a.m.regs
    requires forall o {:trigger b.m.Mem(o)} :: Bottom(a.depth) <= o ==> b.m.Mem(o) == a.m.Mem(o)
    ensures Survives(a, b) && Resized(a, b)
  {
  }

  lemma ResizedSound(a: Frame, b: Frame)
    requires Sound(a) && Sized(b) && Resized(a, b)
    requires AllLive(b.stack, b.depth) && AllLive(b.stack, a.depth)
    ensures Sound(b) && Values(b) == Values(a) && SamePins(a, b)
  {
    forall i | 0 <= i < |a.stack| && a.stack[i].Reg?
      ensures a.stack[i].r < NUM_GPRS && a.counts[a.stack[i].r] > 0
    {
      assert Live(a.stack[i], a.depth);
      UsesIn(a.stack, i);
      assert Pins(a, a.stack[i].r) >= 0;
    }
    assert forall r :: 0 <= r < NUM_GPRS ==> Pins(b, r) == Pins(a, r);
  }

  function Min(a: nat, b: nat): nat {
    if a < b then a else b
  }

  ghost predicate DistinctRegs(args: seq<nat>) {
    (forall i :: 0 <= i < |args| ==> args[i] < NUM_GPRS) && DistinctArgs(args)
  }

  ghost predicate Unpinned(f: Frame, args: seq<nat>)
    requires Sound(f) && DistinctRegs(args)
  {
    forall i :: 0 <= i < |args| ==> Pins(f, args[i]) == 0
  }

  /** The last `k` of the destinations. */
  predicate Among(args: seq<nat>, k: nat, r: nat) {
    exists i :: 0 <= i < |args| && |args| - k <= i && args[i] == r
  }

  /** The entries of `b` are the lower entries of `a`; of these at most some left their register. */
  ghost predicate OnlySpilled(a: Frame, b: Frame) {
    && |b.stack| <= |a.stack|
    && forall i :: 0 <= i < |b.stack| ==> b.stack[i] == a.stack[i] || (a.stack[i].Reg? && b.stack[i].Slot?)
  }

  /** `k` values were passed: they are in the last `k` destinations, which are pinned for them; the
      remaining entries, the slots in use and all other registers are as before. */
  ghost predicate Passed(a: Frame, f: Frame, args: seq<nat>, k: nat) {
    && Sound(a) && Sound(f) && DistinctRegs(args) && k <= |a.stack| && k <= |args|
    && Values(f) == Values(a)[..|a.stack| - k]
    && OnlySpilled(a, f)
    && SlotsKept(a, f)
    && (forall i :: |args| - k <= i < |args| ==> f.m.regs[args[i]] == Values(a)[|a.stack| - |args| + i])
    && (forall r :: 0 <= r < NUM_GPRS && !Among(args, k, r) ==> f.m.regs[r] == a.m.regs[r])
    && (forall r :: 0 <= r < NUM_GPRS ==> Pins(f, r) == Pins(a, r) + if Among(args, k, r) then 1 else 0)
  }

  lemma PassedNone(a: Frame, args: seq<nat>)
    requires Sound(a) && DistinctRegs(args)
    ensures Passed(a, a, args, 0)
  {
  }

  lemma NextArg(a: Frame, f: Frame, args: seq<nat>, k: nat)
    requires Sound(a) && Passed(a, f, args, k) && k < |a.stack| && k < |args| && DistinctRegs(args) && Unpinned(a, args)
    ensures args[|args| - 1 - k] < NUM_GPRS && Pins(f, args[|args| - 1 - k]) == 0
    ensures !Among(args, k, args[|args| - 1 - k])
    ensures |f.stack| == |a.stack| - k && |f.counts| == NUM_GPRS
  {
    var r := args[|args| - 1 - k];
    forall i | 0 <= i < |args| && |args| - k <= i
      ensures args[i] != r
    {
      assert args[|args| - 1 - k] != args[i];
    }
    assert |Values(f)| == |f.stack|;
  }

  lemma NotFree(f: Frame, r: nat)
    requires Sound(f) && r < NUM_GPRS && Pins(f, r) == 0
    ensures f.counts[r] == 0 ==> Uses(f.stack, r) == 0
  {
  }

  /** Writing one destination after the entries that still need it have moved out of it. */
  function Placed(f: Frame, r: nat): Frame
    requires |f.stack| > 0 && r < |f.counts|
    requires var v := f.stack[|f.stack| - 1]; v.Reg? ==> v.r < |f.counts| && (f.counts[v.r] > 0 || v.r == r)
  {
    var v := f.stack[|f.stack| - 1];
    var c := f.counts[r := f.counts[r] + 1];
    Frame(f.stack[..|f.stack| - 1], f.depth, if v.Reg? then c[v.r := c[v.r] - 1] else c, f.m.Write(r, Denote(v, f.m)))
  }

  lemma PlaceArg(f: Frame, g: Frame, r: nat)
    requires Spilled(f, g) && r < NUM_GPRS && Pins(f, r) == 0 && |f.stack| > 0
    requires g.stack[|g.stack| - 1] == Reg(r) || Uses(g.stack, r) == 0
    ensures |g.stack| == |f.stack|
    ensures var v := g.stack[|g.stack| - 1]; v.Reg? ==> v.r < NUM_GPRS && g.counts[v.r] > 0
    ensures Sound(g.(counts := g.counts[r := g.counts[r] + 1]))
    ensures var h := Placed(g, r);
            && Sound(h) && Values(h) == Values(f)[..|f.stack| - 1] && SlotsKept(f, h) && OnlySpilled(f, h)
            && h.m.regs[r] == Values(f)[|f.stack| - 1]
            && (forall q :: 0 <= q < NUM_GPRS && q != r ==> h.m.regs[q] == f.m.regs[q])
            && (forall q :: 0 <= q < NUM_GPRS ==> Pins(h, q) == Pins(f, q) + if q == r then 1 else 0)
  {
    SpilledSound(f, g);
    TopCounted(g);
    assert OnlySpilled(f, Placed(g, r)) by {
      assert |Values(f)| == |f.stack| && |Values(g)| == |g.stack|;
    }
    PlacedPins(g, r);
    PlacedValues(g, r);
    MarkedSound(g, r);
    hide Sound, Placed, Values, Uses, Denote;
    assert SamePins(f, g) && g.m.regs == f.m.regs && SlotsKept(f, g);
  }

  lemma TopCounted(g: Frame)
    requires Sound(g) && |g.stack| > 0
    ensures var v := g.stack[|g.stack| - 1]; v.Reg? ==> v.r < NUM_GPRS && g.counts[v.r] > 0
  {
    var v := g.stack[|g.stack| - 1];
    assert Live(v, g.depth);
    if v.Reg? {
      UsesIn(g.stack, |g.stack| - 1);
      assert Pins(g, v.r) >= 0;
    }
  }

  lemma MarkedSound(g: Frame, r: nat)
    requires Sound(g) && r < NUM_GPRS
    ensures Sound(g.(counts := g.counts[r := g.counts[r] + 1]))
  {
    var h := g.(counts := g.counts[r := g.counts[r] + 1]);
    assert forall q :: 0 <= q < NUM_GPRS ==> Pins(h, q) == Pins(g, q) + if q == r then 1 else 0;
  }

  lemma PlacedValues(g: Frame, r: nat)
    requires Sound(g) && r < NUM_GPRS && |g.stack| > 0
    requires g.stack[|g.stack| - 1] == Reg(r) || Uses(g.stack, r) == 0
    requires var v := g.stack[|g.stack| - 1]; v.Reg? ==> v.r < NUM_GPRS && g.counts[v.r] > 0
    ensures var h := Placed(g, r);
            && Sound(h) && Values(h) == Values(g)[..|g.stack| - 1] && SlotsKept(g, h)
            && h.m.regs[r] == Values(g)[|g.stack| - 1]
            && (forall q :: 0 <= q < NUM_GPRS && q != r ==> h.m.regs[q] == g.m.regs[q])
  {
    var v := g.stack[|g.stack| - 1];
    var g2 := g.(stack := g.stack[..|g.stack| - 1]);
    PoppedFacts(g);
    UsesPop(g.stack, r);
    if v == Reg(r) {
      assert g2.m.Write(r, Denote(v, g.m)) == g2.m;
    } else {
      WriteUnused(g2, r, Denote(v, g.m));
    }
    PlacedPins(g, r);
    var h := Placed(g, r);
    assert Values(h) == Values(g2.(m := h.m));
  }

  lemma PlacedPins(g: Frame, r: nat)
    requires Sound(g) && r < NUM_GPRS && |g.stack| > 0
    requires var v := g.stack[|g.stack| - 1]; v.Reg? ==> v.r < NUM_GPRS && g.counts[v.r] > 0
    ensures forall q :: 0 <= q < NUM_GPRS ==> Pins(Placed(g, r), q) == Pins(g, q) + if q == r then 1 else 0
  {
    forall q | 0 <= q < NUM_GPRS
      ensures Pins(Placed(g, r), q) == Pins(g, q) + if q == r then 1 else 0
    {
      UsesPop(g.stack, q);
    }
  }

  lemma PassedStep(a: Frame, f: Frame, h: Frame, args: seq<nat>, k: nat)
    requires Sound(a) && DistinctRegs(args) && Unpinned(a, args) && Passed(a, f, args, k) && k < |a.stack| && k < |args|
    requires Sound(f) && Sound(h) && |f.stack| == |a.stack| - k
    requires Values(h) == Values(f)[..|f.stack| - 1] && SlotsKept(f, h) && OnlySpilled(f, h)
    requires var r := args[|args| - 1 - k];
             && r < NUM_GPRS && h.m.regs[r] == Values(f)[|f.stack| - 1]
             && (forall q :: 0 <= q < NUM_GPRS && q != r ==> h.m.regs[q] == f.m.regs[q])
             && (forall q :: 0 <= q < NUM_GPRS ==> Pins(h, q) == Pins(f, q) + if q == r then 1 else 0)
    ensures Passed(a, h, args, k + 1)
  {
    hide Sound, Pins, Among, Denote;
    NextArg(a, f, args, k);
    AmongStep(args, k);
  }

  lemma AmongStep(args: seq<nat>, k: nat)
    requires k < |args|
    ensures forall q: nat :: Among(args, k + 1, q) <==> Among(args, k, q) || q == args[|args| - 1 - k]
  {
    forall q: nat
      ensures Among(args, k + 1, q) <==> Among(args, k, q) || q == args[|args| - 1 - k]
    {
      if Among(args, k + 1, q) {
        var i :| 0 <= i < |args| && |args| - (k + 1) <= i && args[i] == q;
        assert i == |args| - 1 - k || Among(args, k, q);
      }
    }
  }

  predicate SmallImm(v: Word) {
    -0x8000_0000 <= v < 0x8000_0000
  }

  lemma PairUses(l: Loc, r: Loc)
    ensures forall q: nat :: Uses([l, r], q) == (if l == Reg(q) then 1 else 0) + (if r == Reg(q) then 1 else 0)
  {
    forall q: nat
      ensures Uses([l, r], q) == (if l == Reg(q) then 1 else 0) + (if r == Reg(q) then 1 else 0)
    {
      assert [l, r] == [l] + [r];
      UsesSplit([l], [r], q);
      assert Uses([l], q) == (if l == Reg(q) then 1 else 0) && Uses([r], q) == if r == Reg(q) then 1 else 0;
    }
  }

  lemma TwoPopped(a: Frame)
    requires Sound(a) && |a.stack| >= 2 && Held(a, [])
    ensures var n := |a.stack|; var b := a.(stack := a.stack[..n - 1][..n - 2]);
            && Sound(b) && Held(b, [a.stack[n - 2], a.stack[n - 1]])
            && Live(a.stack[n - 2], b.depth) && Live(a.stack[n - 1], b.depth)
            && Values(b) == Values(a)[..n - 2]
            && Denote(a.stack[n - 2], a.m) == Values(a)[n - 2] && Denote(a.stack[n - 1], a.m) == Values(a)[n - 1]
  {
    hide Uses;
    var n := |a.stack|;
    PoppedFacts(a);
    var c := a.(stack := a.stack[..n - 1]);
    PoppedFacts(c);
    PairUses(a.stack[n - 2], a.stack[n - 1]);
    NoUses();
  }

  lemma NoUses()
    ensures forall q: nat :: Uses([], q) == 0
  {
  }

  lemma HeldSwap(f: Frame, l: Loc, r: Loc)
    requires |f.counts| == NUM_GPRS && Held(f, [l, r])
    ensures Held(f, [r, l])
  {
    PairUses(l, r);
    PairUses(r, l);
  }

  lemma HeldPins(f: Frame, l: Loc, r: Loc)
    requires |f.counts| == NUM_GPRS && Held(f, [l, r]) && (l.Reg? ==> l.r < NUM_GPRS) && (r.Reg? ==> r.r < NUM_GPRS)
    ensures l.Reg? ==> Pins(f, l.r) >= 1
    ensures r.Reg? ==> Pins(f, r.r) >= if l == r then 2 else 1
  {
    PairUses(l, r);
  }

  lemma ImmediateResult(b: Frame, ls: seq<Loc>, v: Word)
    requires Sound(b) && Held(b, ls) && |ls| == 2 && ls[0].Imm? && ls[1].Imm?
    ensures var g := b.(stack := b.stack + [Imm(v)]); Sound(g) && Held(g, []) && Values(g) == Values(b) + [v]
  {
    PushedOn(b, Imm(v));
    PairUses(ls[0], ls[1]);
    assert ls == [ls[0], ls[1]];
    NoUses();
  }

  lemma FoldedValue(a: Frame, f: (Word, Word) -> Word)
    requires |a.stack| >= 2 && a.stack[|a.stack| - 2].Imm? && a.stack[|a.stack| - 1].Imm?
    ensures var n := |a.stack|; f(Values(a)[n - 2], Values(a)[n - 1]) == f(a.stack[n - 2].v, a.stack[n - 1].v)
  {
  }

  lemma OperandsReady(b: Frame, c: Frame, l: Loc, r: Loc, q: nat)
    requires Cloned(b, c, l, q, true) && Held(b, [l, r]) && Live(l, b.depth) && Live(r, b.depth)
    ensures Sound(c) && Held(c, [Reg(q), r]) && Live(r, c.depth) && q < NUM_GPRS && Uses(c.stack, q) == 0
    ensures Denote(r, c.m) == Denote(r, b.m) && c.m.regs[q] == Denote(l, b.m) && Values(c) == Values(b)
  {
    HeldPins(b, l, r);
    ClonedOther(b, c, l, q, true, r);
    PairUses(l, r);
    PairUses(Reg(q), r);
  }

  lemma ResultPushed(e: Frame, q: nat, r: Loc)
    requires Sound(e) && q < NUM_GPRS && Held(e, [Reg(q), r]) && Uses(e.stack, q) == 0 && (r.Reg? ==> r.r < NUM_GPRS)
    ensures r.Reg? ==> e.counts[r.r] > 0
    ensures var g := Freed(e, r);
            && Sound(g) && Live(Reg(q), g.depth) && Pins(g, q) > 0
            && var h := g.(stack := g.stack + [Reg(q)]);
               Sound(h) && Held(h, []) && Values(h) == Values(e) + [e.m.regs[q]]
  {
    hide Uses;
    PairUses(Reg(q), r);
    NoUses();
    HeldPins(e, Reg(q), r);
    var g := Freed(e, r);
    forall p | 0 <= p < NUM_GPRS
      ensures Pins(g, p) == if p == q then 1 else 0
    {
      assert Pins(e, p) == (if p == q then 1 else 0) + if r == Reg(p) then 1 else 0;
    }
    assert Values(g) == Values(e);
    PushedOn(g, Reg(q));
  }

  lemma HeldAfter(c: Frame, e: Frame, ls: seq<Loc>)
    requires |c.counts| == NUM_GPRS && |e.counts| == NUM_GPRS && SamePins(c, e) && Held(c, ls)
    ensures Held(e, ls)
  {
  }

  lemma StillHeld(a: Frame, b: Frame, ls: seq<Loc>)
    requires Spilled(a, b) && Held(a, ls)
    ensures Held(b, ls)
  {
  }

  lemma TakenExtends(a: Frame, b: Frame, r: Option<nat>)
    requires r.Some? ==> Granted(a, b, r.value)
    requires r.None? ==> Spilled(a, b)
    ensures Extends(a, b, {}) && (r.Some? ==> !OffLimits(r.value))
  {
    if r.Some? {
      ScratchOrOffLimits(r.value);
      SpilledExtends(a, b.(counts := b.counts[r.value := 0]));
    } else {
      SpilledExtends(a, b);
    }
  }

  /** A granted register and `lreg` were written. */
  lemma TwoWrites(a: Frame, g: Frame, e: Frame, q: nat, lreg: nat)
    requires Extends(a, g, {}) && !OffLimits(q) && e.depth == g.depth && e.m.mem == g.m.mem
    requires |e.m.regs| == NUM_GPRS
    requires forall r :: 0 <= r < NUM_GPRS && r != q && r != lreg ==> e.m.regs[r] == g.m.regs[r]
    ensures Extends(a, e, {lreg})
  {
    hide OffLimits;
    assert forall o :: e.m.Mem(o) == g.m.Mem(o);
  }

  lemma Unmoved(a: Frame, b: Frame)
    requires Sized(a) && b.m == a.m && b.depth == a.depth
    ensures Extends(a, b, {})
  {
  }

  /** Before and after, only the bookkeeping changes. */
  lemma OnlyMachine(a: Frame, b: Frame, e: Frame, f: Frame)
    requires Extends(b, e, {}) && a.m == b.m && a.depth == b.depth && f.m == e.m && f.depth == e.depth
    ensures Extends(a, f, {})
  {
  }

  lemma SameStart(a: Frame, b: Frame, c: Frame, dsts: set<nat>)
    requires Extends(b, c, dsts) && a.m == b.m && a.depth == b.depth
    ensures Extends(a, c, dsts)
  {
  }

  lemma SameEnd(a: Frame, b: Frame, c: Frame, dsts: set<nat>)
    requires Extends(a, b, dsts) && b.m == c.m && b.depth == c.depth
    ensures Extends(a, c, dsts)
  {
  }

  lemma ResizedConfined(a: Frame, f: Frame, g: Frame, dsts: set<nat>)
    requires Extends(a, f, dsts) && Confined(f.m, g.m, {}, f.depth)
    ensures Confined(a.m, g.m, dsts, a.depth)
  {
    ConfinedTrans(a.m, f.m, g.m, dsts, {}, a.depth, f.depth);
    assert dsts + {} == dsts;
  }

  lemma TrashConfined(a: Frame, g: Frame, h: Frame, trash: nat)
    requires Extends(a, g, {}) && !OffLimits(trash) && |h.m.regs| == NUM_GPRS && h.m.mem == g.m.mem
    requires forall r :: 0 <= r < NUM_GPRS && r != trash ==> h.m.regs[r] == g.m.regs[r]
    ensures Confined(a.m, h.m, {}, a.depth)
  {
    hide OffLimits;
    assert forall o :: h.m.Mem(o) == g.m.Mem(o);
  }

  lemma CombinedExtends(b: Frame, c: Frame, e: Frame, lreg: nat)
    requires Extends(b, c, {}) && Extends(c, e, {lreg}) && Scratch(lreg) && lreg < NUM_GPRS
    ensures Extends(b, e, {})
  {
    ScratchOrOffLimits(lreg);
    hide OffLimits, Scratch;
  }

  /** Converting in place writes the operand's register and a granted one. */
  lemma ConvertedExtends(b: Frame, f: Frame, h: Frame, v: Loc, reg: nat, temp: nat)
    requires Extends(b, f, {}) && Sized(f)
    requires reg < NUM_GPRS && temp < NUM_GPRS && reg != temp && !OffLimits(temp) && f.m.regs[reg] >= 0
    requires h == f || h == Halved(f, reg, temp)
    requires if v.Reg? then reg == v.r else Scratch(reg)
    ensures Extends(b, h, RegOf(v))
  {
    ScratchOrOffLimits(reg);
    hide OffLimits, Scratch, Shr, And, Or;
    assert forall o :: h.m.Mem(o) == f.m.Mem(o);
  }

  lemma PassedExtends(a: Frame, f: Frame, args: seq<nat>, k: nat)
    requires Passed(a, f, args, k)
    ensures Extends(a, f, RegsOf(args))
  {
    hide OffLimits, Values, Pins;
    forall r | 0 <= r < NUM_GPRS && r !in args
      ensures f.m.regs[r] == a.m.regs[r]
    {
      assert !Among(args, k, r);
    }
  }

  lemma PushedExtends(f: Frame, l: Loc)
    requires Sized(f) && (l.Reg? ==> l.r < NUM_GPRS && f.counts[l.r] > 0)
    ensures Extends(f, Pushed(f, l), {})
  {
    PushedFacts(f, l);
  }

  lemma WideImmediate(a: Frame, g: Frame, f: (Word, Word) -> Word, lreg: nat, v: Word, q: nat)
    requires Granted(a, g, q) && lreg < NUM_GPRS && Pins(a, lreg) == 1 && Uses(a.stack, lreg) == 0
    ensures var h := g.(m := Execute(Alu(f, lreg, R(q)), g.m.Write(q, v)));
            var e := h.(counts := h.counts[q := h.counts[q] - 1]);
            && Sound(e) && Values(e) == Values(a) && SamePins(a, e) && Uses(e.stack, lreg) == 0
            && e.m.regs[lreg] == f(a.m.regs[lreg], v)
  {
    GrantedFacts(a, g, q);
    assert q != lreg;
    WriteUnused(g, q, v);
    var g1 := g.(m := g.m.Write(q, v));
    UsesNone(a.stack, lreg);
    UsesNone(g.stack, lreg);
    WriteUnused(g1, lreg, f(a.m.regs[lreg], v));
    var h := g1.(m := g1.m.Write(lreg, f(a.m.regs[lreg], v)));
    assert h.m == Execute(Alu(f, lreg, R(q)), g1.m);
    var e := h.(counts := h.counts[q := h.counts[q] - 1]);
    assert Values(e) == Values(h);
    forall r | 0 <= r < NUM_GPRS
      ensures Pins(e, r) == Pins(a, r)
    {
      assert Pins(h, r) == Pins(g, r);
    }
  }

  /** Same machine and depth, and beyond the pins of `a` the temporaries `ls` are pinned. */
  ghost predicate Around(a: Frame, f: Frame, ls: seq<Loc>) {
    && Sound(a) && Sound(f) && f.m == a.m && f.depth == a.depth
    && (forall i :: 0 <= i < |ls| ==> Live(ls[i], a.depth))
    && forall r :: 0 <= r < NUM_GPRS ==> Pins(f, r) == Pins(a, r) + Uses(ls, r)
  }

  lemma AroundSelf(a: Frame)
    requires Sound(a)
    ensures Around(a, a, [])
  {
  }

  lemma UsesCons(v: Loc, ls: seq<Loc>, r: nat)
    ensures Uses([v] + ls, r) == Uses(ls, r) + if v == Reg(r) then 1 else 0
  {
    UsesSplit([v], ls, r);
    assert Uses([v], r) == if v == Reg(r) then 1 else 0;
  }

  lemma PopAround(a: Frame, f: Frame, ls: seq<Loc>)
    requires Around(a, f, ls) && |f.stack| > 0
    ensures var g := f.(stack := f.stack[..|f.stack| - 1]); Around(a, g, [f.stack[|f.stack| - 1]] + ls)
  {
    PoppedFacts(f);
    forall r | 0 <= r < NUM_GPRS
      ensures Uses([f.stack[|f.stack| - 1]] + ls, r) == Uses(ls, r) + if f.stack[|f.stack| - 1] == Reg(r) then 1 else 0
    {
      UsesCons(f.stack[|f.stack| - 1], ls, r);
    }
  }

  lemma FreeAround(a: Frame, f: Frame, v: Loc, ls: seq<Loc>)
    requires Around(a, f, [v] + ls)
    ensures v.Reg? ==> v.r < NUM_GPRS && f.counts[v.r] > 0
    ensures Around(a, Freed(f, v), ls) && Sound(Freed(f, v))
  {
    assert ([v] + ls)[0] == v;
    assert forall i :: 0 <= i < |ls| ==> ([v] + ls)[i + 1] == ls[i];
    if v.Reg? {
      UsesCons(v, ls, v.r);
      assert Pins(a, v.r) >= 0;
    }
    forall r | 0 <= r < NUM_GPRS
      ensures Pins(Freed(f, v), r) == Pins(a, r) + Uses(ls, r)
    {
      UsesCons(v, ls, r);
    }
  }

  lemma PushAround(a: Frame, f: Frame, ls: seq<Loc>)
    requires Around(a, f, ls) && |ls| > 0
    ensures Live(ls[0], f.depth) && (ls[0].Reg? ==> Pins(f, ls[0].r) > 0)
    ensures Around(a, f.(stack := f.stack + [ls[0]]), ls[1..])
  {
    assert ls == [ls[0]] + ls[1..];
    if ls[0].Reg? {
      UsesCons(ls[0], ls[1..], ls[0].r);
      assert Pins(a, ls[0].r) >= 0;
    }
    PushedOn(f, ls[0]);
    forall r | 0 <= r < NUM_GPRS
      ensures Uses(ls, r) == Uses(ls[1..], r) + if ls[0] == Reg(r) then 1 else 0
    {
      UsesCons(ls[0], ls[1..], r);
    }
  }

  lemma SplitAt(p: seq<Loc>, all: seq<Loc>, k: nat)
    requires k < |all|
    ensures p + all[..k] + [all[k]] == p + all[..k + 1] && all[k..][0] == all[k] && all[k..][1..] == all[k + 1..]
  {
  }

  lemma TopSlice(s: seq<Loc>, m: nat)
    requires 0 < m <= |s|
    ensures s[..m][..m - 1] == s[..m - 1] && s[..m][m - 1] == s[m - 1] && [s[m - 1]] + s[m..] == s[m - 1..]
  {
  }

  lemma FreedStack(f: Frame, v: Loc)
    requires v.Reg? ==> v.r < |f.counts| && f.counts[v.r] > 0
    ensures Freed(f, v).stack == f.stack
  {
  }

  lemma DropDone(a: Frame, f: Frame, lo: nat, hi: nat)
    requires lo <= hi < |a.stack| && Around(a, f, [])
    requires f.stack == a.stack[..|a.stack| - 1 - hi] + a.stack[|a.stack| - lo..]
    ensures SamePins(a, f) && Values(f) == DropRange(Values(a), lo, hi) && f.m == a.m && f.depth == a.depth
  {
  }

  lemma PickFacts(f: Frame, i: nat)
    requires Sound(f) && i < |f.stack|
    ensures var v := f.stack[i];
            && Live(v, f.depth)
            && var g := if v.Reg? then f.(counts := f.counts[v.r := f.counts[v.r] + 1]) else f;
               && Sound(g) && Values(g) == Values(f) && (v.Reg? ==> Pins(g, v.r) > 0)
               && forall r :: 0 <= r < NUM_GPRS ==> Pins(g, r) == Pins(f, r) + if v == Reg(r) then 1 else 0
  {
    var v := f.stack[i];
    var g := if v.Reg? then f.(counts := f.counts[v.r := f.counts[v.r] + 1]) else f;
    assert forall r :: 0 <= r < NUM_GPRS ==> Pins(g, r) == Pins(f, r) + if v == Reg(r) then 1 else 0;
  }

  lemma SwapFacts(f: Frame, i: nat, j: nat)
    requires Sound(f) && j <= i < |f.stack|
    ensures var g := f.(stack := f.stack[i := f.stack[j]][j := f.stack[i]]);
            && Sound(g) && SamePins(f, g)
            && Values(g) == Values(f)[i := Values(f)[j]][j := Values(f)[i]]
  {
    var s := f.stack;
    var g := f.(stack := s[i := s[j]][j := s[i]]);
    forall r | 0 <= r < NUM_GPRS
      ensures Pins(g, r) == Pins(f, r)
    {
      UsesUpdate(s, i, s[j], r);
      UsesUpdate(s[i := s[j]], j, s[i], r);
    }
  }

  function Freed(f: Frame, v: Loc): Frame
    requires v.Reg? ==> v.r < |f.counts| && f.counts[v.r] > 0
  {
    if v.Reg? then f.(counts := f.counts[v.r := f.counts[v.r] - 1]) else f
  }

  /** A temporary's register with one use is used by nothing else. */
  lemma OnlyHolder(f: Frame, q: nat)
    requires Sound(f) && q < NUM_GPRS && f.counts[q] <= 1 && Pins(f, q) >= 1
    ensures Cloned(f, f.(counts := f.counts[q := f.counts[q] + 1]), Reg(q), q, false)
  {
    var g := f.(counts := f.counts[q := f.counts[q] + 1]);
    assert forall r :: 0 <= r < NUM_GPRS ==> Pins(g, r) == Pins(f, r) + if r == q then 1 else 0;
    assert Values(g) == Values(f);
  }

  lemma CloneFromGrant(a: Frame, g: Frame, v: Loc, q: nat)
    requires Granted(a, g, q) && Live(v, a.depth) && (v.Reg? ==> Pins(a, v.r) >= 1)
    ensures Cloned(a, g.(m := g.m.Write(q, Denote(v, g.m))), v, q, false)
  {
    GrantedFacts(a, g, q);
    DenoteKept(a, g, v);
    WriteUnused(g, q, Denote(v, g.m));
    var b := g.(m := g.m.Write(q, Denote(v, g.m)));
    assert forall r :: 0 <= r < NUM_GPRS ==> Pins(b, r) == Pins(a, r) + if r == q then 1 else 0;
  }

  lemma CloneFreed(a: Frame, b: Frame, v: Loc, q: nat)
    requires Cloned(a, b, v, q, false) && (v.Reg? ==> v.r < NUM_GPRS && Pins(a, v.r) >= 1)
    ensures v.Reg? ==> b.counts[v.r] > 0
    ensures Cloned(a, Freed(b, v), v, q, true)
  {
    if v.Reg? {
      assert Pins(b, v.r) >= 1;
    }
    var c := Freed(b, v);
    forall r | 0 <= r < NUM_GPRS
      ensures Pins(c, r) == Pins(b, r) - if v == Reg(r) then 1 else 0
    {
    }
    assert Values(c) == Values(b);
  }

  lemma MovedIs(f: Frame, i: nat, l: Loc, g: Frame)
    requires i < |f.stack| && f.stack[i].Reg? && f.stack[i].r < |f.counts| && f.counts[f.stack[i].r] > 0
    requires g == f.(stack := f.stack[i := l], counts := f.counts[f.stack[i].r := f.counts[f.stack[i].r] - 1])
    ensures Moved(f, i, l) == g
  {
  }

  lemma AliasMoved(a: Frame, f: Frame, i: nat, o: int)
    requires Spilled(a, f) && i < |f.stack| && f.stack[i].Reg?
    requires Bottom(f.depth) <= o < Bottom(a.depth) && Denote(Slot(o), f.m) == Denote(f.stack[i], f.m)
    ensures f.stack[i].r < NUM_GPRS && f.counts[f.stack[i].r] > 0
    ensures Spilled(a, Moved(f, i, Slot(o)))
  {
    assert Live(f.stack[i], f.depth);
    MovedFacts(f, i, o);
  }

  lemma TakenIsGranted(a: Frame, f: Frame, g: Frame, q: nat)
    requires Spilled(a, f) && q < NUM_GPRS && f.counts[q] == 0 && g == f.(counts := f.counts[q := 1])
    ensures Granted(a, g, q) && Sound(g)
  {
    assert Pins(f, q) >= 0;
    assert g.counts[q := 0] == f.counts;
    assert g.(counts := f.counts) == f;
    GrantedFacts(a, g, q);
  }

  lemma NoRegEntries(f: Frame)
    requires Sound(f) && (forall i :: 0 <= i < |f.stack| ==> !f.stack[i].Reg?)
    requires forall r :: 0 <= r < NUM_GPRS ==> f.counts[r] > 0
    ensures AllPinned(f)
  {
    forall r | 0 <= r < NUM_GPRS && Scratch(r)
      ensures Pins(f, r) > 0
    {
      UsesNone(f.stack, r);
    }
  }

  // ---------------------------------------------------------------- byte counters

  lemma {:induction false} UsesBounded(s: seq<Loc>, r: nat)
    ensures Uses(s, r) <= |s|
    decreases |s|
  {
    if s != [] {
      UsesPop(s, r);
      UsesBounded(s[..|s| - 1], r);
    }
  }

  /** The source keeps each count in a byte.  The byte is right exactly when the reservation, the
      stack entries and the temporaries in that register are at most 255, as they are whenever
      entries and temporaries together are fewer than 255. */
  lemma CountersFit(f: Frame, ls: seq<Loc>, r: nat)
    requires Sound(f) && Held(f, ls) && r < NUM_GPRS
    ensures f.counts[r] % 256 == f.counts[r] <==> Reserved(r) + Uses(f.stack, r) + Uses(ls, r) <= 255
    ensures |f.stack| + |ls| < 255 ==> f.counts[r] % 256 == f.counts[r]
  {
    UsesBounded(f.stack, r);
    UsesBounded(ls, r);
    assert Pins(f, r) == Uses(ls, r);
  }

  lemma {:induction false} UsesAll(s: seq<Loc>, r: nat)
    requires forall i :: 0 <= i < |s| ==> s[i] == Reg(r)
    ensures Uses(s, r) == |s| && forall q: nat :: q != r ==> Uses(s, q) == 0
    decreases |s|
  {
    if s != [] {
      UsesAll(s[..|s| - 1], r);
      UsesPop(s, r);
      forall q: nat | q != r
        ensures Uses(s, q) == 0
      {
        UsesPop(s, q);
      }
    }
  }

  /** The bound is needed: 256 entries in one register are a sound frame whose count is 0 as a byte,
      the count of a free register. */
  lemma ByteOverflows(m: Machine)
    requires |m.regs| == NUM_GPRS && m.rsp == Bottom(1)
    ensures var f := Frame(seq(256, _ => Reg(0)), 1, seq(NUM_GPRS, r requires 0 <= r => if r ==
      0 then 256 else Reserved(r)), m);
            Sound(f) && Held(f, []) && f.counts[0] > 0 && f.counts[0] % 256 == 0
  {
    var f := Frame(seq(256, _ => Reg(0)), 1, seq(NUM_GPRS, r requires 0 <= r => if r ==
      0 then 256 else Reserved(r)), m);
    UsesAll(f.stack, 0);
    NoUses();
    assert forall r :: 0 <= r < NUM_GPRS ==> Pins(f, r) == 0;
  }

  // ---------------------------------------------------------------- block entry

  lemma FreshFrame(f: Frame)
    requires Sized(f) && f.stack == [] && forall r :: 0 <= r < NUM_GPRS ==> f.counts[r] == Reserved(r)
    ensures Sound(f) && Held(f, [])
  {
    NoUses();
  }

  lemma EnterOne(f: Frame, l: Loc)
    requires Sound(f) && Held(f, []) && Live(l, f.depth)
    ensures var c := if l.Reg? then f.counts[l.r := f.counts[l.r] + 1] else f.counts;
            var g := f.(stack := f.stack + [l], counts := c); Sound(g) && Held(g, [])
  {
    var c := if l.Reg? then f.counts[l.r := f.counts[l.r] + 1] else f.counts;
    var g := f.(stack := f.stack + [l], counts := c);
    NoUses();
    forall r | 0 <= r < NUM_GPRS
      ensures Pins(g, r) == Pins(f, r)
    {
      UsesPush(f.stack, l, r);
    }
  }

  lemma UsesGrow(s: seq<Loc>, i: nat)
    requires i < |s|
    ensures forall r: nat :: Uses(s[..i + 1], r) == Uses(s[..i], r) + if s[i] == Reg(r) then 1 else 0
  {
    assert s[..i + 1] == s[..i] + [s[i]];
    forall r: nat
      ensures Uses(s[..i + 1], r) == Uses(s[..i], r) + if s[i] == Reg(r) then 1 else 0
    {
      UsesPush(s[..i], s[i], r);
    }
  }

  // ---------------------------------------------------------------- serialised arguments

  ghost predicate DistinctLocs(ls: seq<Loc>) {
    forall i, k :: 0 <= i < k < |ls| ==> ls[i] != ls[k]
  }

  /** The topmost values of `a` are in the places `args`, in stack order; these are distinct, live
      and the only pins; the entries below have their values and have at most been spilled. */
  ghost predicate Serialized(a: Frame, f: Frame, args: seq<Loc>) {
    && Sound(a) && Sound(f) && |args| <= |a.stack| && DistinctLocs(args)
    && Values(f) == Values(a)[..|a.stack| - |args|]
    && Held(f, args)
    && OnlySpilled(a, f)
    && (forall i :: 0 <= i < |args| ==>
          && !args[i].Imm? && Live(args[i], f.depth)
          && Denote(args[i], f.m) == Values(a)[|a.stack| - |args| + i])
  }

  lemma SerializedNone(a: Frame)
    requires Sound(a) && Held(a, [])
    ensures Serialized(a, a, []) && Undisturbed(a, a, [])
  {
    assert a.stack[..|a.stack| - 0] == a.stack;
  }

  lemma SerializedNext(a: Frame, f: Frame, args: seq<Loc>)
    requires Serialized(a, f, args) && |args| < |a.stack|
    ensures |f.stack| == |a.stack| - |args|
    ensures var v := f.stack[|f.stack| - 1]; var g := f.(stack := f.stack[..|f.stack| - 1]);
            && Sound(g) && Live(v, g.depth) && Held(g, [v] + args) && (v.Reg? ==> Pins(g, v.r) >= 1)
  {
    assert |Values(f)| == |f.stack|;
    var v := f.stack[|f.stack| - 1];
    PoppedFacts(f);
    HeldCons(f, f.(stack := f.stack[..|f.stack| - 1]), v, args);
  }

  lemma HeldCons(f: Frame, g: Frame, v: Loc, args: seq<Loc>)
    requires |f.counts| == NUM_GPRS && |g.counts| == NUM_GPRS && Held(f, args)
    requires forall r :: 0 <= r < NUM_GPRS ==> Pins(g, r) == Pins(f, r) + if v == Reg(r) then 1 else 0
    ensures Held(g, [v] + args)
  {
    hide Uses;
    forall r | 0 <= r < NUM_GPRS
      ensures Pins(g, r) == Uses([v] + args, r)
    {
      UsesCons(v, args, r);
    }
  }

  /** Every other temporary keeps its value while `v` moves to the register `q`. */
  lemma ArgKept(g: Frame, h: Frame, v: Loc, q: nat, args: seq<Loc>, i: nat)
    requires Cloned(g, h, v, q, true) && Held(g, [v] + args) && i < |args| && Live(args[i], g.depth)
    ensures Denote(args[i], h.m) == Denote(args[i], g.m) && Live(args[i], h.depth) && args[i] != Reg(q)
  {
    var w := args[i];
    if w.Reg? {
      UsesCons(v, args, w.r);
      UsesIn(args, i);
    }
    ClonedOther(g, h, v, q, true, w);
  }

  lemma SerializedStep(a: Frame, f: Frame, h: Frame, args: seq<Loc>, v: Loc, q: nat)
    requires Serialized(a, f, args) && |args| < |a.stack| == |args| + |f.stack| && v == f.stack[|f.stack| - 1]
    requires var g := f.(stack := f.stack[..|f.stack| - 1]); Cloned(g, h, v, q, true) && Held(g, [v] + args)
    ensures Serialized(a, h, [Reg(q)] + args)
  {
    hide Uses, Pins, Scratch;
    var g := f.(stack := f.stack[..|f.stack| - 1]);
    PoppedFacts(f);
    var more := [Reg(q)] + args;
    forall i | 0 <= i < |args|
      ensures Denote(args[i], h.m) == Values(a)[|a.stack| - |args| + i] && Live(args[i], h.depth) && args[i] != Reg(q)
    {
      ArgKept(g, h, v, q, args, i);
    }
    MovedPin(g, h, v, q, args);
    StepPlaces(a, h, args, Reg(q));
    assert Values(h) == Values(a)[..|a.stack| - |more|];
  }

  lemma MovedPin(g: Frame, h: Frame, v: Loc, q: nat, args: seq<Loc>)
    requires Cloned(g, h, v, q, true) && Held(g, [v] + args)
    ensures Held(h, [Reg(q)] + args)
  {
    hide Uses;
    forall r | 0 <= r < NUM_GPRS
      ensures Pins(h, r) == Uses([Reg(q)] + args, r)
    {
      UsesCons(v, args, r);
      UsesCons(Reg(q), args, r);
    }
  }

  /** One more place in front of the list. */
  lemma StepPlaces(a: Frame, h: Frame, args: seq<Loc>, l: Loc)
    requires DistinctLocs(args) && |args| < |a.stack| && !l.Imm? && Live(l, h.depth)
    requires Denote(l, h.m) == Values(a)[|a.stack| - |args| - 1]
    requires forall i :: 0 <= i < |args| ==>
      !args[i].Imm? && Live(args[i], h.depth) && args[i] != l &&
        Denote(args[i], h.m) == Values(a)[|a.stack| - |args| + i]
    ensures var more := [l] + args;
            DistinctLocs(more) && forall i :: 0 <= i < |more| ==>
              && !more[i].Imm? && Live(more[i], h.depth)
              && Denote(more[i], h.m) == Values(a)[|a.stack| - |more| + i]
  {
    var more := [l] + args;
    assert forall i :: 0 < i < |more| ==> more[i] == args[i - 1];
  }

  /** No register is to be had: the value goes to a new slot, below every slot in use. */
  lemma SerializedSlot(a: Frame, f: Frame, h: Frame, args: seq<Loc>, v: Loc)
    requires Serialized(a, f, args) && |args| < |a.stack| == |args| + |f.stack| && v == f.stack[|f.stack| - 1] &&
      !v.Imm?
    requires var g := f.(stack := f.stack[..|f.stack| - 1]); Spilled(g, h) && Held(g, [v] + args)
    ensures Sized(h) && (v.Reg? ==> v.r < NUM_GPRS && h.counts[v.r] > 0)
    ensures var b := Pushed(h, v); Sound(b) && Serialized(a, b, [Slot(Bottom(h.depth + 1))] + args)
  {
    hide Uses, Pins, Scratch, Values, Denote, Live, Pushed, DistinctLocs;
    var g := f.(stack := f.stack[..|f.stack| - 1]);
    PoppedFacts(f);
    SpilledSound(g, h);
    SoundSized(h);
    StillHeld(g, h, [v] + args);
    var b, l := SlotPushed(g, h, v, args);
    TopValue(f);
    StepPlaces(a, b, args, l);
    assert Values(b) == Values(a)[..|a.stack| - |[l] + args|];
  }

  lemma TopValue(f: Frame)
    requires |f.stack| > 0
    ensures Denote(f.stack[|f.stack| - 1], f.m) == Values(f)[|f.stack| - 1]
  {
  }

  lemma SlotPushed(g: Frame, h: Frame, v: Loc, args: seq<Loc>) returns (b: Frame, l: Loc)
    requires Spilled(g, h) && Held(h, [v] + args) && !v.Imm? && Live(v, g.depth)
    requires forall i :: 0 <= i < |args| ==> !args[i].Imm? && Live(args[i], g.depth)
    ensures v.Reg? ==> v.r < NUM_GPRS && h.counts[v.r] > 0
    ensures l == Slot(Bottom(h.depth + 1)) && b == Pushed(h, v) && b.stack == h.stack
    ensures Sound(b) && Values(b) == Values(g) && Held(b, [l] + args) && Live(l, b.depth) &&
      Denote(l, b.m) == Denote(v, g.m)
    ensures forall i :: 0 <= i < |args| ==>
      Denote(args[i], b.m) == Denote(args[i], g.m) && Live(args[i], b.depth) && args[i] != l
  {
    SpilledSound(g, h);
    PushPinned(h, v, args);
    b, l := Pushed(h, v), Slot(Bottom(h.depth + 1));
    hide Uses, Pins, Scratch, Values;
    PushedFacts(h, v);
    DenoteKept(g, h, v);
    forall i | 0 <= i < |args|
      ensures Denote(args[i], b.m) == Denote(args[i], g.m) && Live(args[i], b.depth) && args[i] != l
    {
      DenoteKept(g, h, args[i]);
      DenoteKept(h, b, args[i]);
    }
  }

  lemma PushPinned(h: Frame, v: Loc, args: seq<Loc>)
    requires Sound(h) && Held(h, [v] + args) && !v.Imm? && (v.Reg? ==> v.r < NUM_GPRS)
    ensures v.Reg? ==> h.counts[v.r] > 0
    ensures var b := Pushed(h, v);
            Sound(b) && Values(b) == Values(h) && Held(b, [Slot(Bottom(h.depth + 1))] + args)
  {
    if v.Reg? {
      UsesCons(v, args, v.r);
    }
    var b := Pushed(h, v);
    PushedFacts(h, v);
    PushSound(h, b.(counts := h.counts));
    forall r | 0 <= r < NUM_GPRS
      ensures Pins(b, r) == Uses([Slot(Bottom(h.depth + 1))] + args, r)
    {
      UsesCons(v, args, r);
      UsesCons(Slot(Bottom(h.depth + 1)), args, r);
    }
    assert Values(b) == Values(b.(counts := h.counts));
  }

  lemma SerializedImm(a: Frame, f: Frame, args: seq<Loc>)
    requires Serialized(a, f, args) && 0 < |f.stack| == |a.stack| - |args| && f.stack[|f.stack| - 1].Imm?
    ensures a.stack[|a.stack| - |args| - 1].Imm?
  {
  }

  /** Fewer than eight temporaries never exhaust the registers. */
  lemma NoneSpare(g: Frame, h: Frame, args: seq<Loc>, v: Loc, count: nat)
    requires Spilled(g, h) && Held(g, [v] + args) && AllPinned(h) && |args| < count
    ensures count >= 8 && (v.Imm? ==> count > 8)
  {
    StillHeld(g, h, [v] + args);
    if count < 8 {
      SpareRegister(h, [v] + args);
    }
    if v.Imm? && count <= 8 {
      HeldTail(h, v, args);
      SpareRegister(h, args);
    }
  }

  lemma HeldTail(h: Frame, v: Loc, args: seq<Loc>)
    requires |h.counts| == NUM_GPRS && Held(h, [v] + args) && !v.Reg?
    ensures Held(h, args)
  {
    hide Uses;
    forall r | 0 <= r < NUM_GPRS
      ensures Pins(h, r) == Uses(args, r)
    {
      UsesCons(v, args, r);
    }
  }

  /** Taking a register with none free and an entry to spill makes the frame deeper. */
  lemma SpilledDeeper(a: Frame, b: Frame, r: Option<nat>)
    requires Sound(a) && |b.stack| == |a.stack|
    requires r.Some? ==> Granted(a, b, r.value)
    requires r.None? ==> Spilled(a, b)
    requires !AnyFree(a) && AnyReg(a.stack) ==> b.stack[FirstReg(a.stack)].Slot?
    ensures a.depth <= b.depth
    ensures !AnyFree(a) && AnyReg(a.stack) ==> a.depth < b.depth
  {
    if !AnyFree(a) && AnyReg(a.stack) {
      var i := FirstReg(a.stack);
      assert Live(b.stack[i], b.depth);
    }
  }

  /** No register is free, the top entry is not in one, and another entry is. */
  ghost predicate Crowded(f: Frame) {
    && |f.stack| > 0 && !f.stack[|f.stack| - 1].Reg? && !AnyFree(f) && AnyReg(f.stack[..|f.stack| - 1])
  }

  lemma CrowdedNext(f: Frame)
    ensures |f.stack| > 0 ==>
      (Crowded(f) <==> var g := f.(stack := f.stack[..|f.stack| - 1]);
                       !f.stack[|f.stack| - 1].Reg? && !AnyFree(g) && AnyReg(g.stack))
  {
  }

  // ---------------------------------------------------------------- no spilling on small stacks

  /** The temporary moved without any spill: to its own register, or from a shared register or
      elsewhere to a free one. */
  ghost predicate Unspilled(a: Frame, b: Frame, v: Loc, q: nat) {
    && b.stack == a.stack && b.depth == a.depth && b.m.mem == a.m.mem && q < |a.counts|
    && (v == Reg(q) || a.counts[q] == 0)
    && (v.Reg? && v.r != q ==> v.r < |a.counts| && a.counts[v.r] > 1)
  }

  /** Nothing was spilled, and every register that was in use still is and holds what it held. */
  ghost predicate Undisturbed(a: Frame, f: Frame, args: seq<Loc>)
    requires Sound(a)
  {
    && f.depth == a.depth && f.m.mem == a.m.mem && |f.m.regs| == NUM_GPRS && |f.counts| == NUM_GPRS
    && |args| <= |a.stack| && f.stack == a.stack[..|a.stack| - |args|]
    && forall r :: 0 <= r < NUM_GPRS && a.counts[r] > 0 ==> f.counts[r] > 0 && f.m.regs[r] == a.m.regs[r]
  }

  /** The temporary is the only holder of its register. */
  predicate Alone(f: Frame, v: Loc) {
    v.Reg? && v.r < |f.counts| && f.counts[v.r] <= 1
  }

  predicate ScratchPlaces(args: seq<Loc>) {
    forall i :: 0 <= i < |args| ==> args[i].Reg? && Scratch(args[i].r)
  }

  lemma {:induction false} DistinctElements(s: seq<Loc>)
    requires DistinctLocs(s)
    ensures |Elements(s)| == |s|
    decreases |s|
  {
    if s != [] {
      var n := |s| - 1;
      DistinctElements(s[..n]);
      assert s[n] !in s[..n];
    }
  }

  /** Distinct scratch registers are at most eight. */
  lemma AtMostEight(a: Frame, f: Frame, args: seq<Loc>)
    requires Serialized(a, f, args) && ScratchPlaces(args)
    ensures |args| <= 8
  {
    hide Scratch, ScratchLocs;
    DistinctElements(args);
    hide Elements;
    Subset(Elements(args), ScratchLocs());
  }

  /** Eight holders with no register free: each is alone in a scratch register. */
  lemma EightHolders(g: Frame, v: Loc, args: seq<Loc>)
    requires Sound(g) && Held(g, [v] + args) && |g.stack| + 1 + |args| <= 8
    ensures AnyFree(g) || Alone(g, v)
  {
    if !AnyFree(g) {
      HolderCounts(g, v, args);
      hide Scratch, Uses, Held, Sound;
      var rest := args + g.stack;
      assert forall r: nat :: Scratch(r) ==> Uses([v] + rest, r) > 0;
      OneEach(v, rest);
    }
  }

  /** Eight locations among which every scratch register occurs: each occurs once. */
  lemma OneEach(v: Loc, rest: seq<Loc>)
    requires |rest| <= 7 && forall r: nat :: Scratch(r) ==> Uses([v] + rest, r) > 0
    ensures v.Reg? && Scratch(v.r) && Uses([v] + rest, v.r) == 1
  {
    hide Scratch, ScratchLocs, Elements, Uses;
    var all := [v] + rest;
    forall l | l in ScratchLocs()
      ensures l in Elements(all)
    {
      UsesNone(all, l.r);
    }
    SameSize(ScratchLocs(), Elements(all));
    assert all[0] == v && v in Elements(all);
    forall k | 0 <= k < |rest|
      ensures rest[k] != v
    {
      NoRepeats(all, 0, k + 1);
    }
    UsesNone(rest, v.r);
    UsesCons(v, rest, v.r);
  }

  /** A scratch register's count is the number of its holders. */
  lemma HolderCounts(g: Frame, v: Loc, args: seq<Loc>)
    requires Sound(g) && Held(g, [v] + args)
    ensures forall r: nat :: Scratch(r) ==> r < NUM_GPRS && g.counts[r] == Uses([v] + (args + g.stack), r)
  {
    hide Uses;
    forall r: nat | Scratch(r)
      ensures r < NUM_GPRS && g.counts[r] == Uses([v] + (args + g.stack), r)
    {
      UsesCons(v, args + g.stack, r);
      UsesSplit(args, g.stack, r);
      UsesCons(v, args, r);
      assert Pins(g, r) == Uses([v] + args, r);
    }
  }

  lemma UndisturbedNext(a: Frame, f: Frame, args: seq<Loc>)
    requires Serialized(a, f, args) && 0 < |f.stack| == |a.stack| - |args|
    requires var v := f.stack[|f.stack| - 1]; var g := f.(stack := f.stack[..|f.stack| - 1]);
             Sound(g) && Held(g, [v] + args)
    ensures var v := f.stack[|f.stack| - 1]; var g := f.(stack := f.stack[..|f.stack| - 1]);
            |a.stack| <= 8 ==> AnyFree(g) || Alone(g, v)
  {
    if |a.stack| <= 8 {
      EightHolders(f.(stack := f.stack[..|f.stack| - 1]), f.stack[|f.stack| - 1], args);
    }
  }

  lemma UndisturbedStep(a: Frame, f: Frame, h: Frame, args: seq<Loc>, v: Loc, q: nat)
    requires Sound(a) && Undisturbed(a, f, args) && 0 < |f.stack| == |a.stack| - |args|
    requires var g := f.(stack := f.stack[..|f.stack| - 1]); Cloned(g, h, v, q, true) && Unspilled(g, h, v, q)
    ensures Undisturbed(a, h, [Reg(q)] + args)
  {
    var g := f.(stack := f.stack[..|f.stack| - 1]);
    forall r | 0 <= r < NUM_GPRS && a.counts[r] > 0
      ensures h.counts[r] > 0 && h.m.regs[r] == a.m.regs[r]
    {
      assert Pins(h, r) == Pins(g, r) + (if r == q then 1 else 0) - (if v == Reg(r) then 1 else 0);
    }
    assert h.stack == a.stack[..|a.stack| - |[Reg(q)] + args|];
  }

  /** The locations the entries had denote their values still. */
  lemma StillDenoted(a: Frame, f: Frame, args: seq<Loc>, i: nat)
    requires Sound(a) && Undisturbed(a, f, args) && i < |a.stack|
    ensures Denote(a.stack[i], f.m) == Values(a)[i]
  {
    if a.stack[i].Reg? {
      assert Live(a.stack[i], a.depth);
      UsesIn(a.stack, i);
      assert Pins(a, a.stack[i].r) >= 0;
    }
  }

  // ---------------------------------------------------------------- calls

  /** Once no entry is in a scratch register, every argument register and RAX are free. */
  lemma CallReady(f: Frame, g: Frame, count: nat)
    requires Sound(f) && Held(f, []) && count <= 5 && count <= |f.stack|
    requires forall i :: 0 <= i < |f.stack| && f.stack[i].Reg? ==> !Scratch(f.stack[i].r)
    requires g == f.(depth := f.depth + 1, m := Execute(PushIns(R(VMCTX)), f.m))
    ensures Sound(g) && Values(g) == Values(f) && SamePins(f, g) && ArgsOk(g, ArgRegs(count), 0)
    ensures g.m.Mem(Bottom(g.depth)) == f.m.regs[VMCTX]
  {
    PushSound(f, g);
    NoUses();
    var rest := f.stack[..|f.stack| - count];
    forall r: nat | r < NUM_GPRS && Scratch(r)
      ensures f.counts[r] == 0 && Uses(rest, r) == 0 && Pins(g, r) == 0
    {
      UsesNone(f.stack, r);
      UsesNone(rest, r);
      assert Pins(f, r) == 0;
    }
  }

  lemma CallPassed(o: Frame, g: Frame, b: Frame, count: nat)
    requires count <= 5 && count <= |o.stack| == |g.stack| && Values(g) == Values(o) && ArgsPassed(g, b, ArgRegs(count))
    requires forall i :: 0 <= i < |g.stack| && g.stack[i].Reg? ==> !Scratch(g.stack[i].r)
    ensures Sound(b) && Values(b) == Values(o)[..|o.stack| - count]
    ensures |b.m.regs| == NUM_GPRS
    ensures forall k :: 1 <= k <= count ==> b.m.regs[IntegerArgument(k)] == Values(o)[|o.stack| - count + k - 1]
    ensures forall i :: 0 <= i < |b.stack| && b.stack[i].Reg? ==> !Scratch(b.stack[i].r)
    ensures b.m.Mem(Bottom(g.depth)) == g.m.Mem(Bottom(g.depth)) && g.depth <= b.depth
  {
    hide Values, Scratch, IntegerArgument;
    forall k | 1 <= k <= count
      ensures b.m.regs[IntegerArgument(k)] == Values(o)[|o.stack| - count + k - 1]
    {
      assert ArgRegs(count)[k - 1] == IntegerArgument(k);
    }
  }

  lemma VmctxKept(a: Frame, b: Frame)
    requires Extends(a, b, {})
    ensures |a.m.regs| == NUM_GPRS == |b.m.regs| && b.m.regs[VMCTX] == a.m.regs[VMCTX]
  {
  }

  lemma SavedExtends(o: Frame, f: Frame, g: Frame)
    requires Spilled(o, f) && g == f.(depth := f.depth + 1, m := Execute(PushIns(R(VMCTX)), f.m))
    ensures Extends(o, g, {}) && o.depth < g.depth
  {
    SpilledExtends(o, f);
    SoundSized(f);
    assert forall p :: Bottom(o.depth) <= p ==> g.m.Mem(p) == f.m.Mem(p);
    hide Spilled, OffLimits;
  }

  /** The arguments are in scratch registers, and a register that is off limits is never free. */
  lemma ArgsExtend(a: Frame, b: Frame, args: seq<nat>)
    requires ArgsPassed(a, b, args) && a.depth <= b.depth && forall i :: 0 <= i < |args| ==> Scratch(args[i])
    ensures Extends(a, b, {})
  {
    forall r | 0 <= r < NUM_GPRS && OffLimits(r)
      ensures b.m.regs[r] == a.m.regs[r]
    {
      ScratchOrOffLimits(r);
      assert Pins(a, r) >= 0 && Pins(b, r) >= 0;
    }
  }

  // ---------------------------------------------------------------- from block to block

  lemma SerializedPlaces(a: Frame, f: Frame, args: seq<Loc>)
    requires Serialized(a, f, args)
    ensures Sized(f) && Sized(f.(counts := seq(NUM_GPRS, _ => 0))) && AllLive(args, f.depth)
  {
  }

  /** Serialised values stay where they are while the frame changes its depth. */
  lemma PlacesSurvive(a: Frame, f: Frame, g: Frame, places: seq<Loc>)
    requires Sound(f) && Serialized(a, f, places) && Survives(f, g)
    ensures forall i :: 0 <= i < |places| ==>
      Denote(places[i], g.m) == Values(a)[|a.stack| - |places| + i] && (places[i].Reg? ==> Live(places[i], g.depth))
  {
    hide Uses, OnlySpilled, DistinctLocs, Values;
    forall i | 0 <= i < |places|
      ensures Denote(places[i], g.m) == Values(a)[|a.stack| - |places| + i]
    {
      if places[i].Reg? {
        UsesIn(places, i);
        assert Pins(f, places[i].r) > 0;
      }
    }
  }

  lemma UnpinnedAtRest(f: Frame, args: seq<nat>)
    requires Sound(f) && Held(f, []) && DistinctRegs(args)
    ensures Unpinned(f, args)
  {
    NoUses();
  }

  /** Passing values to the places of a convention leaves them serialised there. */
  lemma PassedIsSerialized(a: Frame, f: Frame, args: seq<nat>)
    requires Sound(a) && Held(a, []) && Passed(a, f, args, |args|)
    ensures Serialized(a, f, AsLocs(args))
  {
    hide Uses, Values, SlotsKept;
    forall r | 0 <= r < NUM_GPRS
      ensures Pins(f, r) == Uses(AsLocs(args), r)
    {
      NoUses();
      OneUseEach(args, r);
    }
  }

  lemma OneUseEach(args: seq<nat>, r: nat)
    requires DistinctRegs(args) && r < NUM_GPRS
    ensures Uses(AsLocs(args), r) == if Among(args, |args|, r) then 1 else 0
  {
    hide Uses;
    if Among(args, |args|, r) {
      var k :| 0 <= k < |args| && args[k] == r;
      OneOccurrence(AsLocs(args), k);
    } else {
      UsesNone(AsLocs(args), r);
    }
  }

  lemma OneOccurrence(ls: seq<Loc>, k: nat)
    requires k < |ls| && ls[k].Reg? && forall i :: 0 <= i < |ls| && i != k ==> ls[i] != ls[k]
    ensures Uses(ls, ls[k].r) == 1
  {
    hide Uses;
    var r := ls[k].r;
    var rest := ls[k + 1..];
    assert ls == ls[..k] + ([Reg(r)] + rest);
    UsesSplit(ls[..k], [Reg(r)] + rest, r);
    UsesCons(Reg(r), rest, r);
    UsesNone(ls[..k], r);
    UsesNone(rest, r);
  }

  lemma EnteredValues(a: Frame, f: Frame, b: Frame, args: seq<Loc>)
    requires Serialized(a, f, args) && b.stack == args && b.m == f.m
    ensures Values(b) == Values(a)[|a.stack| - |args|..]
  {
    hide Uses, Pins, Live;
  }

  function AsLocs(regs: seq<nat>): (s: seq<Loc>)
    ensures |s| == |regs| && forall i :: 0 <= i < |s| ==> s[i] == Reg(regs[i])
  {
    seq(|regs|, i requires 0 <= i < |regs| => Reg(regs[i]))
  }

  lemma PassedPlaces(a: Frame, f: Frame, g: Frame, args: seq<nat>, d: nat)
    requires Sound(f) && Passed(a, f, args, |args|) && Sized(g) && g.depth == d
    ensures Sized(g.(counts := seq(NUM_GPRS, _ => 0), depth := d)) && AllLive(AsLocs(args), d)
  {
  }

  /** What was passed is pinned, so it survives the change of depth. */
  lemma PassedValues(a: Frame, f: Frame, g: Frame, b: Frame, args: seq<nat>)
    requires Sound(f) && Passed(a, f, args, |args|) && Survives(f, g) && b.stack == AsLocs(args) && b.m == g.m
    ensures Values(b) == Values(a)[|a.stack| - |args|..]
  {
    hide Uses, Live, SlotsKept;
    forall i | 0 <= i < |args|
      ensures Values(b)[i] == Values(a)[|a.stack| - |args| + i]
    {
      assert Among(args, |args|, args[i]);
      assert Pins(a, args[i]) >= 0;
      assert Pins(f, args[i]) > 0;
    }
  }

  // ---------------------------------------------------------------- unsigned conversion

  /** The frame after `mov temp, reg; shr temp, 1; and reg, 1; or reg, temp`. */
  function Halved(f: Frame, reg: nat, temp: nat): Frame
    requires reg < |f.m.regs| && f.m.regs[reg] >= 0
  {
    var x := f.m.regs[reg];
    f.(m := f.m.Write(temp, Shr(x, 1)).Write(reg, StickyHalf(x)))
  }

  lemma HalvedRuns(f: Frame, reg: nat, temp: nat)
    requires Sized(f) && reg < NUM_GPRS && temp < NUM_GPRS && reg != temp && f.m.regs[reg] >= 0
    ensures var m1 := Execute(Mov(temp, R(reg)), f.m); var m2 := Execute(Alu(Shr, temp, I(1)), m1);
            var m3 := Execute(Alu(And, reg, I(1)), m2);
            f.(m := Execute(Alu(Or, reg, R(temp)), m3)) == Halved(f, reg, temp)
  {
    var x := f.m.regs[reg];
    StickyByInstructions(x);
    hide StickyHalf, Shr, And, Or;
    var m1 := Execute(Mov(temp, R(reg)), f.m);
    var m2 := Execute(Alu(Shr, temp, I(1)), m1);
    assert m2.regs == f.m.regs[temp := Shr(x, 1)];
    var m3 := Execute(Alu(And, reg, I(1)), m2);
    assert m3.regs == f.m.regs[temp := Shr(x, 1)][reg := And(x, 1)];
    assert Execute(Alu(Or, reg, R(temp)), m3).regs == f.m.regs[temp := Shr(x, 1)][reg := StickyHalf(x)];
  }

  /** The operand's register is overwritten in place: the entries keep their values exactly when none
      of them shares it. */
  lemma HalvedKeepsValues(f: Frame, reg: nat, temp: nat)
    requires Sound(f) && reg < NUM_GPRS && temp < NUM_GPRS && reg != temp && Uses(f.stack, temp) == 0
    requires Pow2(63) <= f.m.regs[reg] < Pow2(64)
    ensures var g := Halved(f, reg, temp);
            && Sound(g) && SamePins(f, g) && g.stack == f.stack && g.counts == f.counts
            && (Values(g) == Values(f) <==> Uses(f.stack, reg) == 0)
  {
    hide Uses, Scratch;
    var x := f.m.regs[reg];
    StickyDiffers(x);
    hide Pow2, StickyHalf, Shr;
    UsesNone(f.stack, temp);
    UsesNone(f.stack, reg);
    var g := Halved(f, reg, temp);
    assert forall r :: 0 <= r < NUM_GPRS ==> Pins(g, r) == Pins(f, r);
    if Uses(f.stack, reg) == 0 {
      assert forall i :: 0 <= i < |f.stack| ==> Denote(g.stack[i], g.m) == Denote(f.stack[i], f.m);
    } else {
      var i :| 0 <= i < |f.stack| && f.stack[i] == Reg(reg);
      assert Values(g)[i] != Values(f)[i];
    }
  }

  lemma OnePopped(a: Frame)
    requires Sound(a) && Held(a, []) && |a.stack| > 0
    ensures var n := |a.stack| - 1; var v := a.stack[n]; var b := a.(stack := a.stack[..n]);
            && Sound(b) && Held(b, [v]) && Live(v, b.depth) && (v.Reg? ==> Pins(b, v.r) >= 1)
            && Values(b) == Values(a)[..n] && Denote(v, a.m) == Values(a)[n] && (AnyFree(a) ==> AnyFree(b))
  {
    var n := |a.stack| - 1;
    PoppedFacts(a);
    HeldCons(a, a.(stack := a.stack[..n]), a.stack[n], []);
    assert [a.stack[n]] + [] == [a.stack[n]];
  }

  lemma OneReleased(c: Frame, r: nat)
    requires Sound(c) && r < NUM_GPRS && Held(c, [Reg(r)])
    ensures c.counts[r] > 0
    ensures var e := c.(counts := c.counts[r := c.counts[r] - 1]);
            Sound(e) && Held(e, []) && Values(e) == Values(c) && |e.stack| == |Values(c)|
  {
    OneUse(Reg(r));
    NoUses();
    var e := c.(counts := c.counts[r := c.counts[r] - 1]);
    forall q | 0 <= q < NUM_GPRS
      ensures Pins(e, q) == 0
    {
      assert Pins(c, q) == Uses([Reg(r)], q);
    }
  }

  lemma ImmediatePopped(b: Frame, v: Loc)
    requires |b.counts| == NUM_GPRS && Held(b, [v]) && !v.Reg?
    ensures Held(b, [])
  {
    OneUse(v);
    NoUses();
  }

  /** Another entry is in the operand's register when the register is overwritten: one is now, and it
      is not spilled before. */
  ghost predicate SharesRegister(b: Frame, v: Loc) {
    v.Reg? && Uses(b.stack, v.r) > 0 && (AnyFree(b) || Precedes(b, v.r))
  }

  /** An entry in another scratch register comes before every entry in `r`. */
  predicate OtherFirst(s: seq<Loc>, r: nat) {
    exists j :: 0 <= j < |s| && s[j].Reg? && Scratch(s[j].r) && forall k :: 0 <= k <= j ==> s[k] != Reg(r)
  }

  /** Converting the top entry in place loses another entry: one shares its register, and either no
      register has to be spilled for the temporary or one in another scratch register goes first. */
  ghost predicate LosesEntry(a: Frame) {
    && |a.stack| > 0
    && var n := |a.stack| - 1; var top := a.stack[n];
       top.Reg? && Uses(a.stack[..n], top.r) > 0 && (AnyFree(a) || OtherFirst(a.stack[..n], top.r))
  }

  lemma LosesWhen(a: Frame)
    requires Sound(a) && Held(a, []) && |a.stack| > 0
    ensures var n := |a.stack| - 1;
            LosesEntry(a) <==> SharesRegister(a.(stack := a.stack[..n]), a.stack[n])
  {
    hide Uses, Freeable, Precedes, OtherFirst, Scratch, Pins;
    var n := |a.stack| - 1;
    var b, top := a.(stack := a.stack[..n]), a.stack[n];
    OnePopped(a);
    if top.Reg? {
      OthersFreeable(b, top);
      OtherIsFreeable(b, top.r);
    }
  }

  /** The operand is the only temporary. */
  lemma OthersFreeable(b: Frame, top: Loc)
    requires Sound(b) && Held(b, [top]) && top.Reg?
    ensures forall q: nat :: q != top.r ==> (Freeable(b, q) <==> Scratch(q))
  {
    OneUse(top);
    hide Uses;
    forall q: nat | q != top.r
      ensures Freeable(b, q) <==> Scratch(q)
    {
      assert q < NUM_GPRS ==> Pins(b, q) == Uses([top], q);
    }
  }

  lemma OtherIsFreeable(b: Frame, r: nat)
    requires forall q: nat :: q != r ==> (Freeable(b, q) <==> Scratch(q))
    ensures Precedes(b, r) <==> OtherFirst(b.stack, r)
  {
    if Precedes(b, r) {
      var j :| 0 <= j < |b.stack| && b.stack[j].Reg? && Freeable(b, b.stack[j].r) &&
        forall k :: 0 <= k <= j ==> b.stack[k] != Reg(r);
      assert b.stack[j] != Reg(r);
    }
    if OtherFirst(b.stack, r) {
      var j :| 0 <= j < |b.stack| && b.stack[j].Reg? && Scratch(b.stack[j].r) &&
        forall k :: 0 <= k <= j ==> b.stack[k] != Reg(r);
      assert b.stack[j] != Reg(r);
    }
  }

  /** What the temporary register cost decides whether the operand's register is still shared. */
  lemma SharedAfter(b: Frame, c: Frame, f: Frame, v: Loc, reg: nat)
    requires |b.counts| == NUM_GPRS && (v.Reg? ==> c == b && reg == v.r && v.r < NUM_GPRS && Pins(b, v.r) >= 1)
    requires SpillOrder(c, f) && (!v.Reg? ==> Uses(f.stack, reg) == 0)
    requires v.Reg? && AnyFree(b) ==> f.stack == b.stack
    requires |f.stack| == |c.stack|
    requires forall k :: 0 <= k < |f.stack| ==> f.stack[k] == c.stack[k] || f.stack[k].Slot?
    ensures Uses(f.stack, reg) > 0 <==> SharesRegister(b, v)
  {
    UsesNone(f.stack, reg);
    UsesNone(b.stack, reg);
    hide Uses;
    if v.Reg? {
      assert !Freeable(b, v.r);
    }
  }

  lemma PickedIsLost(a: Frame)
    requires Sound(a) && AnyFree(a) && |a.stack| > 0 && a.stack[|a.stack| - 1].Reg? && LiveEntry(a, 0)
    ensures LosesEntry(Picked(a, 0))
  {
    PickLeavesFree(a, 0);
    UsesIn(a.stack, |a.stack| - 1);
    assert Picked(a, 0).stack[..|a.stack|] == a.stack;
  }

  lemma OneUse(v: Loc)
    ensures forall r: nat :: Uses([v], r) == if v == Reg(r) then 1 else 0
  {
  }

  /** The operand is in a register that only it pins. */
  lemma OperandInReg(b: Frame, c: Frame, v: Loc, r: Option<nat>)
    requires Sound(b) && Sound(c) && Held(b, [v]) && Live(v, b.depth)
    requires v.Reg? ==> r == Some(v.r) && c == b
    requires !v.Reg? && r.Some? ==> Cloned(b, c, v, r.value, true)
    requires r.None? ==> Spilled(b, c) && AllPinned(c)
    ensures r.Some? && r.value < NUM_GPRS && Held(c, [Reg(r.value)]) && Values(c) == Values(b)
    ensures c.m.regs[r.value] == Denote(v, b.m) && (!v.Reg? ==> Uses(c.stack, r.value) == 0)
  {
    if r.None? {
      StillHeld(b, c, [v]);
      SpareRegister(c, [v]);
    }
    OneUse(v);
    OneUse(Reg(r.value));
  }

  lemma TempTaken(c: Frame, f: Frame, reg: nat, temp: Option<nat>)
    requires Sound(c) && reg < NUM_GPRS && Held(c, [Reg(reg)])
    requires temp.Some? ==> Granted(c, f, temp.value)
    requires temp.None? ==> Spilled(c, f) && AllPinned(f)
    ensures temp.Some? && temp.value < NUM_GPRS && temp.value != reg
    ensures Sound(f) && Values(f) == Values(c) && f.m.regs == c.m.regs && Uses(f.stack, temp.value) == 0
    ensures Held(f, [Reg(reg), Reg(temp.value)]) && (Uses(c.stack, reg) == 0 ==> Uses(f.stack, reg) == 0)
    ensures |f.stack| == |c.stack|
    ensures forall k :: 0 <= k < |f.stack| ==> f.stack[k] == c.stack[k] || f.stack[k].Slot?
  {
    hide Scratch, Values;
    if temp.None? {
      StillHeld(c, f, [Reg(reg)]);
      SpareRegister(f, [Reg(reg)]);
    }
    OneUse(Reg(reg));
    PairUses(Reg(reg), Reg(temp.value));
    assert Pins(c, reg) == 1;
    GrantedFacts(c, f, temp.value);
    UsesNone(c.stack, reg);
    UsesNone(f.stack, reg);
    hide Uses;
  }

  /** Either path yields the correctly rounded number. */
  lemma ConvertedNumber(f: Frame, h: Frame, reg: nat, temp: nat, p: nat)
    requires Sized(f) && reg < NUM_GPRS && temp < NUM_GPRS && reg != temp && 0 <= f.m.regs[reg] < Pow2(64) &&
      1 <= p <= 61
    requires h.m == if f.m.regs[reg] >= Pow2(63) then Halved(f, reg, temp).m else f.m
    ensures |h.m.regs| == NUM_GPRS && h.m.regs[reg] >= 0
    ensures CorrectlyRounded(f.m.regs[reg],
              if f.m.regs[reg] >= Pow2(63) then 2 * RoundTo(h.m.regs[reg], p) else RoundTo(h.m.regs[reg], p), p)
  {
    ConversionCorrect(f.m.regs[reg], p);
    hide Pow2, RoundTo, StickyHalf;
  }

  lemma BothReleased(h: Frame, reg: nat, temp: nat)
    requires Sound(h) && reg < NUM_GPRS && temp < NUM_GPRS && reg != temp && Held(h, [Reg(reg), Reg(temp)])
    ensures h.counts[reg] > 0 && h.counts[temp] > 0
    ensures var e := h.(counts := h.counts[temp := h.counts[temp] - 1][reg := h.counts[reg] - 1]);
            Sound(e) && Held(e, []) && Values(e) == Values(h)
  {
    PairUses(Reg(reg), Reg(temp));
    NoUses();
    assert Pins(h, reg) == 1 && Pins(h, temp) == 1;
    var e := h.(counts := h.counts[temp := h.counts[temp] - 1][reg := h.counts[reg] - 1]);
    forall r | 0 <= r < NUM_GPRS
      ensures Pins(e, r) == 0
    {
      assert Pins(h, r) == Uses([Reg(reg), Reg(temp)], r);
    }
    assert Values(e) == Values(h);
  }

  lemma SamePinsHeld(f: Frame, h: Frame, ls: seq<Loc>)
    requires |f.counts| == NUM_GPRS && |h.counts| == NUM_GPRS && SamePins(f, h) && Held(f, ls)
    ensures Held(h, ls)
  {
  }

  predicate LiveEntry(f: Frame, d: nat) {
    d < |f.stack| && (f.stack[|f.stack| - 1 - d].Reg? ==> f.stack[|f.stack| - 1 - d].r < |f.counts|)
  }

  function Picked(f: Frame, d: nat): Frame
    requires LiveEntry(f, d)
  {
    var v := f.stack[|f.stack| - 1 - d];
    f.(stack := f.stack + [v], counts := if v.Reg? then f.counts[v.r := f.counts[v.r] + 1] else f.counts)
  }

  lemma PickLeavesFree(f: Frame, d: nat)
    requires Sound(f) && LiveEntry(f, d) && AnyFree(f)
    ensures AnyFree(Picked(f, d))
  {
    var v := f.stack[|f.stack| - 1 - d];
    if v.Reg? {
      UsesIn(f.stack, |f.stack| - 1 - d);
      assert Pins(f, v.r) >= 0;
    }
    var r :| 0 <= r < |f.counts| && f.counts[r] == 0;
    assert Picked(f, d).counts[r] == 0;
  }

  // ---------------------------------------------------------------- frames that show the conditions are needed

  /** One entry in RSI with the top bit set, everything else free: where `PickThenConvert` loses it. */
  lemma ConvertExample(m: Machine)
    requires |m.regs| == NUM_GPRS && m.rsp == Bottom(1) && m.regs[6] == Pow2(63) + 1
    ensures var f := Frame([Reg(6)], 1, seq(NUM_GPRS, r requires 0 <= r => if r == 6 then 1 else Reserved(r)), m);
            Sound(f) && Held(f, []) && AnyFree(f) && Pow2(63) <= Values(f)[0] < Pow2(64)
  {
    var f := Frame([Reg(6)], 1, seq(NUM_GPRS, r requires 0 <= r => if r == 6 then 1 else Reserved(r)), m);
    OneUse(Reg(6));
    NoUses();
    assert forall r :: 0 <= r < NUM_GPRS ==> Pins(f, r) == 0;
    assert f.counts[0] == 0;
    assert Pow2(64) == 2 * Pow2(63) && Pow2(63) == 2 * Pow2(62);
  }

  /** Nine entries, two of them in RAX: more than `SerializeArgs` can place without the frame growing.
      Converting the top one loses nothing, because the other is the first to be spilled. */
  lemma NineEntries(m: Machine)
    requires |m.regs| == NUM_GPRS && m.rsp == Bottom(1)
    ensures var counts := seq(NUM_GPRS, r requires 0 <= r => if r == 0 then 2 else 1);
            var f := Frame(ScratchEntries() + [Reg(0)], 1, counts, m);
            && Sound(f) && Held(f, []) && |f.stack| == 9 && (forall i :: 0 <= i < 9 ==> f.stack[i].Reg?)
            && !AnyFree(f) && f.stack[0] == f.stack[8] && !LosesEntry(f)
  {
    hide ScratchEntries, Uses;
    var s := ScratchEntries();
    var f := Frame(s + [Reg(0)], 1, seq(NUM_GPRS, r requires 0 <= r => if r == 0 then 2 else 1), m);
    NoUses();
    forall r | 0 <= r < NUM_GPRS
      ensures Pins(f, r) == 0
    {
      UsesPush(s, Reg(0), r);
      ScratchUses(r);
    }
    assert f.stack[..8] == s;
    assert f.stack[..8][0] == Reg(0);
  }

  function ScratchEntries(): (s: seq<Loc>)
    ensures |s| == 8 && s[0] == Reg(0) && forall i :: 0 <= i < |s| ==> s[i].Reg? && s[i].r < NUM_GPRS
  {
    [Reg(0), Reg(1), Reg(2), Reg(6), Reg(8), Reg(9), Reg(10), Reg(11)]
  }

  lemma ScratchUses(r: nat)
    ensures Uses(ScratchEntries(), r) == if Scratch(r) then 1 else 0
  {
    assert multiset(ScratchEntries()) == multiset{Reg(0), Reg(1), Reg(2), Reg(6), Reg(8), Reg(9), Reg(10), Reg(11)};
  }

  /** All eight scratch registers hold an entry each; shrinking from depth 2 to 1 is cramped. */
  lemma CrampedExample(m: Machine)
    requires |m.regs| == NUM_GPRS && m.rsp == Bottom(2)
    ensures var f := Frame(ScratchEntries(), 2, seq(NUM_GPRS, _ => 1), m);
            Sound(f) && Held(f, []) && AllLive(f.stack, 1) && Cramped(f, 1)
  {
    hide ScratchEntries, Uses, Scratch;
    var f := Frame(ScratchEntries(), 2, seq(NUM_GPRS, _ => 1), m);
    assert f.stack[0].Reg?;
    NoUses();
    forall r | 0 <= r < NUM_GPRS
      ensures Pins(f, r) == 0
    {
      ScratchUses(r);
    }
  }
}
