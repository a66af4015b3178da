/** The machine the one-pass code generator targets, the locations its virtual stack is made of
    and what a location means on the machine.  Integer registers only. */
module Locations {
  type Word = int

  const NUM_GPRS := 16

  /** Register numbers follow the x86-64 encoding; `VMCTX` is RDI. */
  const RAX := 0
  const RCX := 1
  const RDX := 2
  const RBX := 3
  const RSP := 4
  const RBP := 5
  const RSI := 6
  const RDI := 7
  const R8 := 8
  const R9 := 9
  const VMCTX := RDI

  /** RSI, RDX, RCX, R8, R9, RAX, R10, R11. */
  predicate Scratch(r: nat) {
    r == 6 || r == 2 || r == 1 || r == 8 || r == 9 || r == 0 || r == 10 || r == 11
  }

  /** What no operator may use for its own purposes: the registers that section 3.2.1 of the System V
      AMD64 ABI has a function preserve, and the VMContext pointer. */
  predicate OffLimits(r: nat) {
    r == RBX || r == RSP || r == RBP || r == VMCTX || 12 <= r <= 15
  }

  lemma ScratchOrOffLimits(r: nat)
    requires r < NUM_GPRS
    ensures Scratch(r) <==> !OffLimits(r)
  {
  }

  // ---------------------------------------------------------------- machine

  /** Memory operands are `[rsp + off]`, counted in words. */
  datatype Operand = R(r: nat) | M(off: int) | I(v: Word)

  datatype Ins =
    | Mov(dst: nat, src: Operand)
    | PushIns(src: Operand)
    | PopIns(dst: nat)
    | Alu(f: (Word, Word) -> Word, dst: nat, src: Operand)
    | AddRsp(words: int)

  /** `rsp` and the keys of `mem` are word offsets from the value of rsp at function entry. */
  datatype Machine = Machine(regs: seq<Word>, rsp: int, mem: map<int, Word>) {
    function Mem(o: int): Word {
      if o in mem then mem[o] else 0
    }
    function Read(op: Operand): Word {
      match op
      case R(r) => if r < |regs| then regs[r] else 0
      case M(off) => Mem(rsp + off)
      case I(v) => v
    }
    function Write(r: nat, v: Word): (m: Machine)
      ensures |m.regs| == |regs|
    {
      if r < |regs| then this.(regs := regs[r := v]) else this
    }
  }

  function Execute(i: Ins, m: Machine): Machine {
    match i
    case Mov(d, s) => m.Write(d, m.Read(s))
    case PushIns(s) => m.(rsp := m.rsp - 1, mem := m.mem[m.rsp - 1 := m.Read(s)])
    case PopIns(d) => m.Write(d, m.Mem(m.rsp)).(rsp := m.rsp + 1)
    case Alu(f, d, s) => m.Write(d, f(m.Read(R(d)), m.Read(s)))
    case AddRsp(w) => m.(rsp := m.rsp + w)
  }

  ghost function Run(m: Machine, code: seq<Ins>): Machine {
    if code == [] then m else Execute(code[|code| - 1], Run(m, code[..|code| - 1]))
  }

  // ---------------------------------------------------------------- locations

  /** `ValueLocation` without condition codes.  Slots are keyed by their offset from entry rsp. */
  datatype Loc = Reg(r: nat) | Slot(o: int) | Imm(v: Word)

  function Denote(l: Loc, m: Machine): Word {
    match l
    case Reg(r) => m.Read(R(r))
    case Slot(o) => m.Mem(o)
    case Imm(v) => v
  }

  /** The code generator's state beside the machine its code has produced so far. */
  datatype Frame = Frame(stack: seq<Loc>, depth: nat, counts: seq<nat>, m: Machine)

  function Reserved(r: nat): nat {
    if Scratch(r) then 0 else 1
  }

  function Uses(stack: seq<Loc>, r: nat): nat {
    multiset(stack)[Reg(r)]
  }

  /** How often a register is held by something other than the stack or the initial reservation:
      the pins of popped temporaries. */
  function Pins(f: Frame, r: nat): int
    requires r < |f.counts|
  {
    f.counts[r] - Reserved(r) - Uses(f.stack, r)
  }

  /** Where rsp points, in words from its value at entry. */
  function Bottom(depth: nat): int {
    0 - depth
  }

  predicate Live(l: Loc, depth: nat) {
    match l
    case Reg(r) => r < NUM_GPRS
    case Slot(o) => Bottom(depth) <= o
    case Imm(_) => true
  }

  predicate Sized(f: Frame) {
    |f.counts| == NUM_GPRS && |f.m.regs| == NUM_GPRS && f.m.rsp == Bottom(f.depth)
  }

  ghost predicate Sound(f: Frame) {
    && Sized(f)
    && (forall i :: 0 <= i < |f.stack| ==> Live(f.stack[i], f.depth))
    && (forall r :: 0 <= r < NUM_GPRS ==> Pins(f, r) >= 0)
  }

  lemma SoundSized(f: Frame)
    requires Sound(f)
    ensures Sized(f)
  {
  }

  ghost function Values(f: Frame): (s: seq<Word>)
    ensures |s| == |f.stack|
    ensures forall i :: 0 <= i < |s| ==> s[i] == Denote(f.stack[i], f.m)
  {
    seq(|f.stack|, i requires 0 <= i < |f.stack| => Denote(f.stack[i], f.m))
  }

  ghost predicate SamePins(a: Frame, b: Frame)
    requires |a.counts| == NUM_GPRS && |b.counts| == NUM_GPRS
  {
    forall r :: 0 <= r < NUM_GPRS ==> Pins(a, r) == Pins(b, r)
  }

  /** Slots that were in use keep their contents and stay in use. */
  ghost predicate SlotsKept(a: Frame, b: Frame) {
    a.depth <= b.depth && forall o {:trigger b.m.Mem(o)} :: Bottom(a.depth) <= o ==> b.m.Mem(o) == a.m.Mem(o)
  }

  /** What spilling may do: some register entries become slots below every slot in use; all values,
      all registers and all pins stay. */
  ghost predicate Spilled(a: Frame, b: Frame) {
    && Sound(a) && Sound(b)
    && Values(b) == Values(a)
    && b.m.regs == a.m.regs
    && SlotsKept(a, b)
    && SamePins(a, b)
    && (forall i :: 0 <= i < |a.stack| ==>
          b.stack[i] == a.stack[i] || (a.stack[i].Reg? && b.stack[i].Slot? && b.stack[i].o < Bottom(a.depth)))
  }

  lemma SpilledSelf(a: Frame)
    requires Sound(a)
    ensures Spilled(a, a)
  {
  }

  lemma SpilledSound(a: Frame, b: Frame)
    requires Spilled(a, b)
    ensures Sound(a) && Sound(b) && |a.stack| == |b.stack| && Values(b) == Values(a)
  {
  }

  lemma SpilledRegs(a: Frame, b: Frame)
    requires Spilled(a, b)
    ensures b.m.regs == a.m.regs
  {
  }

  lemma SpilledTrans(a: Frame, b: Frame, c: Frame)
    requires Spilled(a, b) && Spilled(b, c)
    ensures Spilled(a, c)
  {
  }

  lemma DenoteKept(a: Frame, b: Frame, l: Loc)
    requires b.m.regs == a.m.regs && SlotsKept(a, b) && Live(l, a.depth)
    ensures Denote(l, b.m) == Denote(l, a.m) && Live(l, b.depth)
  {
  }

  /** Every scratch register is pinned. */
  ghost predicate AllPinned(f: Frame)
    requires |f.counts| == NUM_GPRS
  {
    forall r :: 0 <= r < NUM_GPRS && Scratch(r) ==> Pins(f, r) > 0
  }

  /** Code between `a` and `b` leaves alone every register that is off limits, except those in `dsts`,
      and the words of a frame of `floor` words. */
  ghost predicate Confined(a: Machine, b: Machine, dsts: set<nat>, floor: nat) {
    && |a.regs| == NUM_GPRS == |b.regs|
    && (forall r :: 0 <= r < NUM_GPRS && OffLimits(r) && r !in dsts ==> b.regs[r] == a.regs[r])
    && (forall o {:trigger b.Mem(o)} :: Bottom(floor) <= o ==> b.Mem(o) == a.Mem(o))
  }

  /** The same for code that does not shrink the frame it starts with. */
  ghost predicate Extends(a: Frame, b: Frame, dsts: set<nat>) {
    Confined(a.m, b.m, dsts, a.depth) && a.depth <= b.depth
  }

  lemma ConfinedTrans(a: Machine, b: Machine, c: Machine, dsts: set<nat>, more: set<nat>, floor: nat, high: nat)
    requires Confined(a, b, dsts, floor) && Confined(b, c, more, high) && floor <= high
    ensures Confined(a, c, dsts + more, floor)
  {
    hide OffLimits;
  }

  lemma ExtendsMore(a: Frame, b: Frame, c: Frame, dsts: set<nat>)
    requires Extends(a, b, dsts) && Extends(b, c, {})
    ensures Extends(a, c, dsts)
  {
    hide OffLimits;
  }

  lemma ExtendsSelf(a: Frame)
    requires Sized(a)
    ensures Extends(a, a, {})
  {
  }

  lemma SpilledExtends(a: Frame, b: Frame)
    requires Spilled(a, b)
    ensures Extends(a, b, {})
  {
  }

  function RegOf(l: Loc): set<nat> {
    if l.Reg? then {l.r} else {}
  }

  function RegsOf(args: seq<nat>): (s: set<nat>)
    ensures forall r :: r in s <==> r in args
  {
    set i | 0 <= i < |args| :: args[i]
  }

  lemma ClonedExtends(a: Frame, b: Frame, v: Loc, q: nat, freed: bool)
    requires Cloned(a, b, v, q, freed) && Scratch(q)
    ensures Extends(a, b, {})
  {
    ScratchOrOffLimits(q);
    hide OffLimits, Scratch, Values;
  }

  // ---------------------------------------------------------------- steps of the frame

  /** `push_physical` of a register whose count is given up, or of a slot. */
  function Pushed(f: Frame, l: Loc): Frame
    requires Sized(f) && (l.Reg? ==> l.r < NUM_GPRS && f.counts[l.r] > 0)
  {
    f.(depth := f.depth + 1, m := Execute(PushIns(SourceOf(f, l)), f.m),
       counts := if l.Reg? then f.counts[l.r := f.counts[l.r] - 1] else f.counts)
  }

  /** The instruction operand for a location: slots are addressed from rsp, depth words away. */
  function SourceOf(f: Frame, l: Loc): (s: Operand)
    ensures f.m.rsp == Bottom(f.depth) ==> f.m.Read(s) == Denote(l, f.m)
  {
    match l
    case Reg(r) => R(r)
    case Slot(o) => M(f.depth + o)
    case Imm(v) => I(v)
  }

  lemma PushedFacts(f: Frame, l: Loc)
    requires Sized(f) && (l.Reg? ==> l.r < NUM_GPRS && f.counts[l.r] > 0)
    ensures var g := Pushed(f, l);
            && Sized(g) && SlotsKept(f, g) && g.m.regs == f.m.regs
            && Denote(Slot(Bottom(f.depth + 1)), g.m) == Denote(l, f.m)
  {
  }

  /** Replacing entry `i` by a location with the same value; a register it held is released. */
  function Moved(f: Frame, i: nat, l: Loc): Frame
    requires i < |f.stack|
    requires f.stack[i].Reg? ==> f.stack[i].r < |f.counts| && f.counts[f.stack[i].r] > 0
  {
    f.(stack := f.stack[i := l],
       counts := if f.stack[i].Reg? then f.counts[f.stack[i].r := f.counts[f.stack[i].r] - 1] else f.counts)
  }

  lemma UsesUpdate(s: seq<Loc>, i: nat, l: Loc, r: nat)
    requires i < |s|
    ensures Uses(s[i := l], r) == Uses(s, r) - (if s[i] == Reg(r) then 1 else 0) + (if l == Reg(r) then 1 else 0)
  {
  }

  lemma UsesIn(s: seq<Loc>, i: nat)
    requires i < |s| && s[i].Reg?
    ensures Uses(s, s[i].r) > 0
  {
    assert s[i] in multiset(s);
  }

  lemma UsesNone(s: seq<Loc>, r: nat)
    ensures Uses(s, r) == 0 <==> forall i :: 0 <= i < |s| ==> s[i] != Reg(r)
  {
    assert Reg(r) in multiset(s) <==> Reg(r) in s;
  }

  lemma UsesSplit(a: seq<Loc>, b: seq<Loc>, r: nat)
    ensures Uses(a + b, r) == Uses(a, r) + Uses(b, r)
  {
  }

  lemma UsesPush(s: seq<Loc>, l: Loc, r: nat)
    ensures Uses(s + [l], r) == Uses(s, r) + if l == Reg(r) then 1 else 0
  {
  }

  lemma UsesPop(s: seq<Loc>, r: nat)
    requires |s| > 0
    ensures Uses(s[..|s| - 1], r) == Uses(s, r) - if s[|s| - 1] == Reg(r) then 1 else 0
  {
    assert s == s[..|s| - 1] + [s[|s| - 1]];
  }

  /** Moving one register entry to a fresh slot that already holds its value. */
  lemma MovedFacts(f: Frame, i: nat, o: int)
    requires Sound(f) && i < |f.stack| && f.stack[i].Reg?
    requires Bottom(f.depth) <= o && Denote(Slot(o), f.m) == Denote(f.stack[i], f.m)
    ensures f.counts[f.stack[i].r] > 0
    ensures var g := Moved(f, i, Slot(o)); Sound(g) && Values(g) == Values(f) && SamePins(f, g)
  {
    var q := f.stack[i].r;
    assert Live(f.stack[i], f.depth);
    UsesIn(f.stack, i);
    assert Pins(f, q) >= 0;
    var g := Moved(f, i, Slot(o));
    forall r | 0 <= r < NUM_GPRS
      ensures Pins(g, r) == Pins(f, r)
    {
      UsesUpdate(f.stack, i, Slot(o), r);
    }
  }

  /** The first move of a spill: push the register, then point the entry at the new slot. */
  lemma SpillFirst(f: Frame, i: nat)
    requires Sound(f) && i < |f.stack| && f.stack[i].Reg?
    ensures f.stack[i].r < NUM_GPRS && f.counts[f.stack[i].r] > 0
    ensures var g := Pushed(f, f.stack[i]); var o := Bottom(f.depth + 1);
            var h := g.(stack := g.stack[i := Slot(o)]);
            Spilled(f, h) && Denote(Slot(o), h.m) == Denote(f.stack[i], h.m)
  {
    hide Uses;
    assert Live(f.stack[i], f.depth);
    UsesIn(f.stack, i);
    assert Pins(f, f.stack[i].r) >= 0;
    PushedFacts(f, f.stack[i]);
    var o := Bottom(f.depth + 1);
    var p := f.(m := Execute(PushIns(SourceOf(f, f.stack[i])), f.m), depth := f.depth + 1);
    PushSound(f, p);
    assert p.m.regs == f.m.regs;
    MovedFacts(p, i, o);
    assert Moved(p, i, Slot(o)) == Pushed(f, f.stack[i]).(stack := f.stack[i := Slot(o)]);
  }

  lemma PushSound(f: Frame, p: Frame)
    requires Sound(f) && p.stack == f.stack && p.counts == f.counts && p.m.regs == f.m.regs && Sized(p) &&
      SlotsKept(f, p)
    ensures Sound(p) && Values(p) == Values(f) && SamePins(f, p)
  {
    forall i | 0 <= i < |f.stack|
      ensures Live(p.stack[i], p.depth) && Denote(p.stack[i], p.m) == Denote(f.stack[i], f.m)
    {
      assert Live(f.stack[i], f.depth);
      DenoteKept(f, p, f.stack[i]);
    }
    assert forall r :: 0 <= r < NUM_GPRS ==> Pins(p, r) == Pins(f, r);
  }

  // ---------------------------------------------------------------- temporaries

  /** The pins are exactly the registers of the popped temporaries `ls`. */
  ghost predicate Held(f: Frame, ls: seq<Loc>)
    requires |f.counts| == NUM_GPRS
  {
    forall r :: 0 <= r < NUM_GPRS ==> Pins(f, r) == Uses(ls, r)
  }

  function Elements(ls: seq<Loc>): (r: set<Loc>)
    ensures |r| <= |ls| && forall l :: l in r <==> l in ls
  {
    if ls == [] then {} else Elements(ls[..|ls| - 1]) + {ls[|ls| - 1]}
  }

  function ScratchLocs(): (s: set<Loc>)
    ensures |s| == 8
    ensures forall l :: l in s <==> l.Reg? && Scratch(l.r)
  {
    var a := {Reg(0), Reg(1), Reg(2), Reg(6)};
    var b := {Reg(8), Reg(9), Reg(10), Reg(11)};
    assert |a| == 4 && |b| == 4 && a !! b;
    a + b
  }

  /** Fewer than eight temporaries cannot pin all eight scratch registers. */
  lemma SpareRegister(f: Frame, ls: seq<Loc>)
    requires |f.counts| == NUM_GPRS && Held(f, ls) && |ls| < 8
    ensures !AllPinned(f)
  {
    hide ScratchLocs, Uses;
    if AllPinned(f) {
      forall l | l in ScratchLocs()
        ensures l in Elements(ls)
      {
        assert Pins(f, l.r) > 0;
        UsesNone(ls, l.r);
      }
      Subset(ScratchLocs(), Elements(ls));
    }
  }

  lemma Subset<T>(a: set<T>, b: set<T>)
    requires a <= b
    ensures |a| <= |b|
  {
    assert b == a + (b - a);
  }

  lemma PoppedFacts(f: Frame)
    requires Sound(f) && |f.stack| > 0
    ensures var g := f.(stack := f.stack[..|f.stack| - 1]); var l := f.stack[|f.stack| - 1];
            && Sound(g) && Live(l, g.depth) && Values(g) == Values(f)[..|f.stack| - 1]
            && forall r :: 0 <= r < NUM_GPRS ==> Pins(g, r) == Pins(f, r) + if l == Reg(r) then 1 else 0
  {
    var g := f.(stack := f.stack[..|f.stack| - 1]);
    forall r | 0 <= r < NUM_GPRS
      ensures Pins(g, r) == Pins(f, r) + if f.stack[|f.stack| - 1] == Reg(r) then 1 else 0
    {
      UsesPop(f.stack, r);
    }
  }

  lemma PushedOn(f: Frame, l: Loc)
    requires Sound(f) && Live(l, f.depth) && (l.Reg? ==> Pins(f, l.r) > 0)
    ensures var g := f.(stack := f.stack + [l]);
            && Sound(g) && Values(g) == Values(f) + [Denote(l, f.m)]
            && forall r :: 0 <= r < NUM_GPRS ==> Pins(g, r) == Pins(f, r) - if l == Reg(r) then 1 else 0
  {
    var g := f.(stack := f.stack + [l]);
    forall r | 0 <= r < NUM_GPRS
      ensures Pins(g, r) == Pins(f, r) - if l == Reg(r) then 1 else 0
    {
      UsesPush(f.stack, l, r);
    }
  }

  /** `b` is `a` with the temporary `v` copied to the register `q`, which nobody else uses; the
      temporary itself has been given up if `freed`. */
  ghost predicate Cloned(a: Frame, b: Frame, v: Loc, q: nat, freed: bool) {
    && Sound(a) && Sound(b) && q < NUM_GPRS
    && Values(b) == Values(a)
    && SlotsKept(a, b)
    && (forall r :: 0 <= r < NUM_GPRS && r != q ==> b.m.regs[r] == a.m.regs[r])
    && b.m.regs[q] == Denote(v, a.m)
    && Uses(b.stack, q) == 0
    && (forall i :: 0 <= i < |a.stack| ==> b.stack[i] == a.stack[i] || (a.stack[i].Reg? && b.stack[i].Slot?))
    && Pins(a, q) == (if v == Reg(q) then 1 else 0)
    && forall r :: 0 <= r < NUM_GPRS ==>
         Pins(b, r) == Pins(a, r) + (if r == q then 1 else 0) - (if freed && v == Reg(r) then 1 else 0)
  }

  /** Writing a register no entry refers to disturbs no value. */
  lemma WriteUnused(f: Frame, q: nat, w: Word)
    requires Sound(f) && q < NUM_GPRS && Uses(f.stack, q) == 0
    ensures var g := f.(m := f.m.Write(q, w)); Sound(g) && Values(g) == Values(f) && SlotsKept(f, g) && SamePins(f, g)
  {
    UsesNone(f.stack, q);
    var g := f.(m := f.m.Write(q, w));
    assert forall r :: 0 <= r < NUM_GPRS ==> Pins(g, r) == Pins(f, r);
  }

  /** Another temporary keeps its value. */
  lemma ClonedOther(a: Frame, b: Frame, v: Loc, q: nat, freed: bool, w: Loc)
    requires Cloned(a, b, v, q, freed) && Live(w, a.depth)
    requires w.Reg? ==> Pins(a, w.r) >= (if v == w then 2 else 1)
    ensures Denote(w, b.m) == Denote(w, a.m) && Live(w, b.depth) && w != Reg(q)
  {
  }

  /** Position of the first register entry. */
  function FirstReg(s: seq<Loc>): (i: nat)
    ensures i <= |s|
    ensures forall j :: 0 <= j < i ==> !s[j].Reg?
    ensures i < |s| ==> s[i].Reg?
  {
    if s == [] then 0
    else if s[0].Reg? then 0
    else
      var r := FirstReg(s[1..]);
      assert forall j :: 0 < j < 1 + r ==> s[j] == s[1..][j - 1];
      1 + r
  }
}
