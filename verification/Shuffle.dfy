/** The argument shuffle before a call, as a parallel assignment to registers.  What a pending
    list means, why a move may be finished when its destination is free, and why a round in which
    no move can be finished always has a register source that can be pushed to break the cycle. */
module Shuffle {
  import opened Locations

  datatype Move = Move(src: Loc, dst: nat)

  /** What is fixed during a shuffle: the frame before the arguments were popped, how many entries
      stay on the stack, the destinations with the values they must receive, and a register that
      is free throughout. */
  datatype Job = Job(a: Frame, keep: nat, want: map<nat, Word>, spare: nat)

  ghost predicate JobOk(j: Job) {
    && Sound(j.a) && j.keep <= |j.a.stack|
    && (forall d :: d in j.want ==>
      d < NUM_GPRS && Scratch(d) && Pins(j.a, d) == 0 && Uses(j.a.stack[..j.keep], d) == 0)
    && j.spare < NUM_GPRS && j.spare !in j.want
  }

  function Sources(todo: seq<Move>): (s: seq<Loc>)
    ensures |s| == |todo| && forall i :: 0 <= i < |s| ==> s[i] == todo[i].src
  {
    seq(|todo|, i requires 0 <= i < |todo| => todo[i].src)
  }

  predicate Awaited(todo: seq<Move>, d: nat) {
    exists i :: 0 <= i < |todo| && todo[i].dst == d
  }

  ghost predicate DistinctDests(todo: seq<Move>) {
    forall i, k :: 0 <= i < k < |todo| ==> todo[i].dst != todo[k].dst
  }

  predicate MoveOk(j: Job, f: Frame, mv: Move) {
    Live(mv.src, f.depth) && mv.dst in j.want && Denote(mv.src, f.m) == j.want[mv.dst]
  }

  function Finished(j: Job, todo: seq<Move>, r: nat): nat {
    if r in j.want && !Awaited(todo, r) then 1 else 0
  }

  /** The moves `todo` remain: their sources still hold the wanted values, every other destination
      has received its value and is pinned for it, and nothing else has changed. */
  ghost predicate Outstanding(j: Job, f: Frame, todo: seq<Move>) {
    && JobOk(j) && Sound(f)
    && f.stack == j.a.stack[..j.keep] && Values(f) == Values(j.a)[..j.keep] && SlotsKept(j.a, f)
    && DistinctDests(todo)
    && (forall i :: 0 <= i < |todo| ==> MoveOk(j, f, todo[i]))
    && (forall d :: d in j.want && !Awaited(todo, d) ==> f.m.Read(R(d)) == j.want[d])
    && (forall r :: 0 <= r < NUM_GPRS && r !in j.want ==> f.m.regs[r] == j.a.m.regs[r])
    && (forall r :: 0 <= r < NUM_GPRS ==> Pins(f, r) == Pins(j.a, r) + Uses(Sources(todo), r) + Finished(j, todo, r))
    && f.counts[j.spare] == 0
  }

  function Remove(todo: seq<Move>, k: nat): seq<Move>
    requires k < |todo|
  {
    todo[..k] + todo[k + 1..]
  }

  lemma RemoveUses(todo: seq<Move>, k: nat, r: nat)
    requires k < |todo|
    ensures Uses(Sources(Remove(todo, k)), r) == Uses(Sources(todo), r) - if todo[k].src == Reg(r) then 1 else 0
  {
    var s, l := Sources(todo), todo[k].src;
    assert Sources(Remove(todo, k)) == s[..k] + s[k + 1..];
    assert s == s[..k] + ([l] + s[k + 1..]);
    UsesSplit(s[..k], [l] + s[k + 1..], r);
    UsesSplit([l], s[k + 1..], r);
    UsesSplit(s[..k], s[k + 1..], r);
    assert Uses([l], r) == if l == Reg(r) then 1 else 0;
  }

  lemma RemoveAt(todo: seq<Move>, k: nat, i: nat)
    requires k < |todo| && i < |todo| - 1
    ensures Remove(todo, k)[i] == if i < k then todo[i] else todo[i + 1]
  {
  }

  lemma RemoveDests(todo: seq<Move>, k: nat)
    requires k < |todo| && DistinctDests(todo)
    ensures DistinctDests(Remove(todo, k))
    ensures forall d: nat :: Awaited(Remove(todo, k), d) <==> Awaited(todo, d) && d != todo[k].dst
  {
    var rest := Remove(todo, k);
    forall d: nat
      ensures Awaited(rest, d) <==> Awaited(todo, d) && d != todo[k].dst
    {
      if Awaited(todo, d) && d != todo[k].dst {
        var i :| 0 <= i < |todo| && todo[i].dst == d;
        assert rest[if i < k then i else i - 1] == todo[i];
      }
      if Awaited(rest, d) {
        var i :| 0 <= i < |rest| && rest[i].dst == d;
        RemoveAt(todo, k, i);
      }
    }
  }

  /** A destination that no pending source occupies and that is still awaited is free. */
  lemma DestPins(j: Job, f: Frame, todo: seq<Move>, k: nat)
    requires Outstanding(j, f, todo) && k < |todo|
    ensures var d := todo[k].dst; d < NUM_GPRS && f.counts[d] == Uses(Sources(todo), d) && Uses(f.stack, d) == 0
  {
    var d := todo[k].dst;
    assert MoveOk(j, f, todo[k]);
    assert Awaited(todo, d);
    assert Pins(f, d) == Pins(j.a, d) + Uses(Sources(todo), d) + Finished(j, todo, d);
  }

  lemma SourceCounted(j: Job, f: Frame, todo: seq<Move>, k: nat)
    requires Outstanding(j, f, todo) && k < |todo| && todo[k].src.Reg?
    ensures var r := todo[k].src.r; r < NUM_GPRS && f.counts[r] > 0 && r != j.spare
  {
    var r := todo[k].src.r;
    assert MoveOk(j, f, todo[k]);
    assert Sources(todo)[k] == Reg(r);
    UsesIn(Sources(todo), k);
    assert Pins(j.a, r) >= 0;
  }

  /** A value that already sits in its destination needs no instruction. */
  lemma InPlace(j: Job, f: Frame, todo: seq<Move>, k: nat)
    requires Outstanding(j, f, todo) && k < |todo| && todo[k].src == Reg(todo[k].dst)
    ensures Outstanding(j, f, Remove(todo, k))
  {
    var rest := Remove(todo, k);
    RemoveDests(todo, k);
    assert MoveOk(j, f, todo[k]);
    forall i | 0 <= i < |rest|
      ensures MoveOk(j, f, rest[i])
    {
      RemoveAt(todo, k, i);
    }
    forall r | 0 <= r < NUM_GPRS
      ensures Pins(f, r) == Pins(j.a, r) + Uses(Sources(rest), r) + Finished(j, rest, r)
    {
      RemoveUses(todo, k, r);
      assert r == todo[k].dst ==> Awaited(todo, r);
    }
  }

  /** The frame after a copy to a free destination and the release of its source. */
  function Copied(f: Frame, mv: Move): Frame
    requires mv.dst < |f.counts| && (mv.src.Reg? ==> mv.src.r < |f.counts| && f.counts[mv.src.r] > 0)
  {
    var c := f.counts[mv.dst := f.counts[mv.dst] + 1];
    f.(m := f.m.Write(mv.dst, Denote(mv.src, f.m)),
       counts := if mv.src.Reg? then c[mv.src.r := c[mv.src.r] - 1] else c)
  }

  lemma CopyDone(j: Job, f: Frame, todo: seq<Move>, k: nat)
    requires Outstanding(j, f, todo) && k < |todo| && f.counts[todo[k].dst] == 0
    ensures todo[k].src.Reg? ==> todo[k].src.r < NUM_GPRS && f.counts[todo[k].src.r] > 0
    ensures Outstanding(j, Copied(f, todo[k]), Remove(todo, k))
  {
    hide Values, Pins, Denote, Uses, Finished, Sources, Awaited;
    var mv, rest := todo[k], Remove(todo, k);
    assert MoveOk(j, f, mv);
    DestPins(j, f, todo, k);
    if mv.src.Reg? {
      SourceCounted(j, f, todo, k);
    }
    RemoveDests(todo, k);
    CopiedFrame(j, f, todo, k);
    CopiedPins(j, f, todo, k);
    CopiedRegs(j, f, todo, k);
    var g := Copied(f, mv);
    forall i | 0 <= i < |rest|
      ensures MoveOk(j, g, rest[i])
    {
      RemoveAt(todo, k, i);
      CopiedOther(j, f, todo, k, if i < k then i else i + 1);
    }
    assert Sound(g);
  }

  lemma CopiedRegs(j: Job, f: Frame, todo: seq<Move>, k: nat)
    requires Outstanding(j, f, todo) && k < |todo| && todo[k].dst < NUM_GPRS
    requires todo[k].src.Reg? ==> todo[k].src.r < NUM_GPRS && f.counts[todo[k].src.r] > 0
    requires forall d: nat :: Awaited(Remove(todo, k), d) <==> Awaited(todo, d) && d != todo[k].dst
    ensures var g := Copied(f, todo[k]);
            && (forall d :: d in j.want && !Awaited(Remove(todo, k), d) ==> g.m.Read(R(d)) == j.want[d])
            && (forall r :: 0 <= r < NUM_GPRS && r !in j.want ==> g.m.regs[r] == j.a.m.regs[r])
            && g.stack == f.stack
  {
    hide Values, Pins, Uses, Finished, Sources, Awaited, Remove;
    assert MoveOk(j, f, todo[k]);
  }

  lemma CopiedFrame(j: Job, f: Frame, todo: seq<Move>, k: nat)
    requires Outstanding(j, f, todo) && k < |todo| && f.counts[todo[k].dst] == 0
    requires todo[k].src.Reg? ==> todo[k].src.r < NUM_GPRS && f.counts[todo[k].src.r] > 0
    ensures var g := Copied(f, todo[k]);
            Values(g) == Values(f) && SlotsKept(j.a, g) && Sized(g) &&
              (forall i :: 0 <= i < |g.stack| ==> Live(g.stack[i], g.depth))
  {
    DestPins(j, f, todo, k);
    WriteUnused(f, todo[k].dst, Denote(todo[k].src, f.m));
    var g := Copied(f, todo[k]);
    assert Values(g) == Values(f.(m := g.m));
  }

  lemma CopiedPins(j: Job, f: Frame, todo: seq<Move>, k: nat)
    requires Outstanding(j, f, todo) && k < |todo| && f.counts[todo[k].dst] == 0 && todo[k].dst in j.want
    requires todo[k].src.Reg? ==> todo[k].src.r < NUM_GPRS && f.counts[todo[k].src.r] > 0
    requires forall d: nat :: Awaited(Remove(todo, k), d) <==> Awaited(todo, d) && d != todo[k].dst
    ensures forall r :: 0 <= r < NUM_GPRS ==>
      Pins(Copied(f, todo[k]), r) == Pins(j.a, r) + Uses(Sources(Remove(todo, k)), r) + Finished(j, Remove(todo, k), r)
    ensures forall r :: 0 <= r < NUM_GPRS ==> Pins(Copied(f, todo[k]), r) >= 0
  {
    hide Uses, Scratch;
    var rest := Remove(todo, k);
    assert Awaited(todo, todo[k].dst);
    forall r | 0 <= r < NUM_GPRS
      ensures Pins(Copied(f, todo[k]), r) == Pins(j.a, r) + Uses(Sources(rest), r) + Finished(j, rest, r)
      ensures Pins(Copied(f, todo[k]), r) >= 0
    {
      RemoveUses(todo, k, r);
      assert Pins(j.a, r) >= 0;
    }
  }

  /** The destination is free, so no other pending source is in it. */
  lemma CopiedOther(j: Job, f: Frame, todo: seq<Move>, k: nat, i: nat)
    requires Outstanding(j, f, todo) && k < |todo| && i < |todo| && f.counts[todo[k].dst] == 0
    requires todo[k].src.Reg? ==> todo[k].src.r < NUM_GPRS && f.counts[todo[k].src.r] > 0
    ensures MoveOk(j, Copied(f, todo[k]), todo[i])
  {
    DestPins(j, f, todo, k);
    UsesNone(Sources(todo), todo[k].dst);
    assert Sources(todo)[i] != Reg(todo[k].dst);
    assert MoveOk(j, f, todo[i]);
  }

  // ---------------------------------------------------------------- blocked rounds

  function DestLocs(todo: seq<Move>): (s: set<Loc>)
    ensures forall l :: l in s <==> l.Reg? && Awaited(todo, l.r)
    decreases |todo|
  {
    if todo == [] then {} else
    var n := |todo| - 1;
    var front := DestLocs(todo[..n]);
    assert forall i :: 0 <= i < n ==> todo[..n][i] == todo[i];
    assert forall d: nat :: Awaited(todo, d) <==> Awaited(todo[..n], d) || todo[n].dst == d;
    front + {Reg(todo[n].dst)}
  }

  lemma {:induction false} DestCount(todo: seq<Move>)
    requires DistinctDests(todo)
    ensures |DestLocs(todo)| == |todo|
    decreases |todo|
  {
    if todo != [] {
      var n := |todo| - 1;
      DestCount(todo[..n]);
      assert !Awaited(todo[..n], todo[n].dst);
    }
  }

  lemma SameSize<T>(a: set<T>, b: set<T>)
    requires a <= b && |b| <= |a|
    ensures a == b
  {
    Subset(a, b);
    assert b == a + (b - a);
  }

  /** When every destination is occupied, the pending moves permute their destinations: each
      source is a register, each is the destination of another move, and no two are the same. */
  lemma BlockedIsPermutation(j: Job, f: Frame, todo: seq<Move>)
    requires Outstanding(j, f, todo)
    requires forall k :: 0 <= k < |todo| ==> todo[k].dst < NUM_GPRS && f.counts[todo[k].dst] > 0
    ensures Elements(Sources(todo)) == DestLocs(todo) && |Elements(Sources(todo))| == |todo|
  {
    forall l | l in DestLocs(todo)
      ensures l in Elements(Sources(todo))
    {
      var k :| 0 <= k < |todo| && todo[k].dst == l.r;
      DestPins(j, f, todo, k);
      UsesNone(Sources(todo), l.r);
    }
    DestCount(todo);
    SameSize(DestLocs(todo), Elements(Sources(todo)));
  }

  lemma NoRepeats(s: seq<Loc>, i: nat, k: nat)
    requires |Elements(s)| == |s| && i < k < |s|
    ensures s[i] != s[k]
  {
    hide Elements;
    if s[i] == s[k] {
      var t := s[..k] + s[k + 1..];
      forall l | l in Elements(s)
        ensures l in Elements(t)
      {
        var p :| 0 <= p < |s| && s[p] == l;
        assert t[if p < k then p else if p == k then i else p - 1] == l;
      }
      Subset(Elements(s), Elements(t));
    }
  }

  function Redirect(todo: seq<Move>, from: Loc, to: Loc): (r: seq<Move>)
    ensures |r| == |todo|
    ensures forall i :: 0 <= i < |r| ==> r[i] == if todo[i].src == from then todo[i].(src := to) else todo[i]
  {
    seq(|todo|, i requires 0 <= i < |todo| => if todo[i].src == from then todo[i].(src := to) else todo[i])
  }

  /** Pushing one register source of a blocked round keeps the meaning of the pending list, frees
      the register and leaves one register source fewer. */
  lemma CycleBroken(j: Job, f: Frame, todo: seq<Move>, k: nat)
    requires Outstanding(j, f, todo) && k < |todo| && k == FirstReg(Sources(todo))
    requires forall i :: 0 <= i < |todo| ==> todo[i].dst < NUM_GPRS && f.counts[todo[i].dst] > 0
    ensures todo[k].src.r < NUM_GPRS && f.counts[todo[k].src.r] > 0
    ensures var next := Redirect(todo, todo[k].src, Slot(Bottom(f.depth + 1)));
            && Outstanding(j, Pushed(f, todo[k].src), next)
            && FirstReg(Sources(next)) > k
  {
    hide Outstanding, Pushed, FirstReg, Redirect;
    var slot := Slot(Bottom(f.depth + 1));
    SourceCounted(j, f, todo, k);
    OnlySource(j, f, todo, k, slot);
    BrokenOutstanding(j, f, todo, k);
    BrokenFirst(todo, k, slot);
  }

  lemma OnlySource(j: Job, f: Frame, todo: seq<Move>, k: nat, slot: Loc)
    requires Outstanding(j, f, todo) && k < |todo|
    requires forall i :: 0 <= i < |todo| ==> todo[i].dst < NUM_GPRS && f.counts[todo[i].dst] > 0
    ensures Redirect(todo, todo[k].src, slot) == todo[k := todo[k].(src := slot)]
  {
    hide Outstanding, Elements, DestLocs;
    BlockedIsPermutation(j, f, todo);
    forall i | 0 <= i < |todo| && i != k
      ensures todo[i].src != todo[k].src
    {
      NoRepeats(Sources(todo), if i < k then i else k, if i < k then k else i);
    }
  }

  lemma BrokenOutstanding(j: Job, f: Frame, todo: seq<Move>, k: nat)
    requires Outstanding(j, f, todo) && k < |todo| && todo[k].src.Reg? && todo[k].src.r < NUM_GPRS &&
      f.counts[todo[k].src.r] > 0
    requires todo[k].src.r != j.spare
    ensures Outstanding(j, Pushed(f, todo[k].src), todo[k := todo[k].(src := Slot(Bottom(f.depth + 1)))])
  {
    hide Values, Pins, Denote, Uses, Finished, Sources, Awaited, MoveOk;
    BrokenPins(j, f, todo, k);
    BrokenFrame(j, f, todo, k);
    var g, next := Pushed(f, todo[k].src), todo[k := todo[k].(src := Slot(Bottom(f.depth + 1)))];
    assert DistinctDests(next);
    PinsPositive(j, g, next);
  }

  lemma PinsPositive(j: Job, g: Frame, todo: seq<Move>)
    requires JobOk(j) && |g.counts| == NUM_GPRS
    requires forall r :: 0 <= r < NUM_GPRS ==> Pins(g, r) == Pins(j.a, r) + Uses(Sources(todo), r) + Finished(j,
      todo, r)
    ensures forall r :: 0 <= r < NUM_GPRS ==> Pins(g, r) >= 0
  {
    forall r | 0 <= r < NUM_GPRS
      ensures Pins(g, r) >= 0
    {
      assert Pins(j.a, r) >= 0;
    }
  }

  lemma BrokenFirst(todo: seq<Move>, k: nat, slot: Loc)
    requires k < |todo| && k == FirstReg(Sources(todo)) && slot.Slot?
    ensures FirstReg(Sources(todo[k := todo[k].(src := slot)])) > k
  {
    var s := Sources(todo[k := todo[k].(src := slot)]);
    assert forall i :: 0 <= i <= k ==> !s[i].Reg?;
  }

  lemma SameAwaited(todo: seq<Move>, k: nat, l: Loc)
    requires k < |todo|
    ensures forall d: nat :: Awaited(todo[k := todo[k].(src := l)], d) <==> Awaited(todo, d)
  {
    var next := todo[k := todo[k].(src := l)];
    assert forall i :: 0 <= i < |todo| ==> next[i].dst == todo[i].dst;
    forall d: nat
      ensures Awaited(next, d) <==> Awaited(todo, d)
    {
      if Awaited(todo, d) {
        var i :| 0 <= i < |todo| && todo[i].dst == d;
        assert next[i].dst == d;
      }
    }
  }

  lemma BrokenPins(j: Job, f: Frame, todo: seq<Move>, k: nat)
    requires Outstanding(j, f, todo) && k < |todo| && todo[k].src.Reg? && todo[k].src.r < NUM_GPRS &&
      f.counts[todo[k].src.r] > 0
    ensures var g := Pushed(f, todo[k].src); var next := todo[k := todo[k].(src := Slot(Bottom(f.depth + 1)))];
            && (forall d: nat :: Awaited(next, d) <==> Awaited(todo, d))
            && forall r :: 0 <= r < NUM_GPRS ==> Pins(g, r) == Pins(j.a, r) + Uses(Sources(next), r) + Finished(j,
               next, r)
  {
    hide Uses, Scratch, Awaited;
    var slot := Slot(Bottom(f.depth + 1));
    var g, next := Pushed(f, todo[k].src), todo[k := todo[k].(src := slot)];
    SameAwaited(todo, k, slot);
    assert Sources(next) == Sources(todo)[k := slot];
    forall r | 0 <= r < NUM_GPRS
      ensures Pins(g, r) == Pins(j.a, r) + Uses(Sources(next), r) + Finished(j, next, r)
    {
      UsesUpdate(Sources(todo), k, slot, r);
    }
  }

  lemma BrokenFrame(j: Job, f: Frame, todo: seq<Move>, k: nat)
    requires Outstanding(j, f, todo) && k < |todo| && todo[k].src.Reg? && todo[k].src.r < NUM_GPRS &&
      f.counts[todo[k].src.r] > 0
    ensures var g := Pushed(f, todo[k].src); var next := todo[k := todo[k].(src := Slot(Bottom(f.depth + 1)))];
            && (forall i :: 0 <= i < |next| ==> MoveOk(j, g, next[i]))
            && Values(g) == Values(f) && SlotsKept(f, g) && g.m.regs == f.m.regs && Sized(g)
            && (forall i :: 0 <= i < |g.stack| ==> Live(g.stack[i], g.depth))
  {
    var src := todo[k].src;
    var g := Pushed(f, src);
    PushedFacts(f, src);
    var p := g.(counts := f.counts);
    PushSound(f, p);
    assert Values(g) == Values(p);
    var next := todo[k := todo[k].(src := Slot(Bottom(f.depth + 1)))];
    forall i | 0 <= i < |next|
      ensures MoveOk(j, g, next[i])
    {
      assert MoveOk(j, f, todo[i]);
      DenoteKept(f, g, todo[i].src);
    }
  }

  // ---------------------------------------------------------------- start and end

  /** `count` arguments have been popped into `todo`, topmost first. */
  ghost predicate Popped(a: Frame, f: Frame, args: seq<nat>, todo: seq<Move>) {
    && Sound(a) && Sound(f) && f.m == a.m && f.depth == a.depth
    && |todo| <= |args| <= |a.stack|
    && f.stack == a.stack[..|a.stack| - |todo|]
    && (forall i :: 0 <= i < |todo| ==> todo[i] == Move(a.stack[|a.stack| - 1 - i], args[|args| - 1 - i]))
    && (forall r :: 0 <= r < NUM_GPRS ==> Pins(f, r) == Pins(a, r) + Uses(Sources(todo), r))
    && f.counts == a.counts
  }

  lemma PoppedNext(a: Frame, f: Frame, args: seq<nat>, todo: seq<Move>)
    requires Popped(a, f, args, todo) && |todo| < |args|
    ensures |f.stack| > 0
    ensures var mv := Move(f.stack[|f.stack| - 1], args[|args| - 1 - |todo|]);
            Popped(a, f.(stack := f.stack[..|f.stack| - 1]), args, todo + [mv])
  {
    hide Uses, Values, Pins, Denote, Sources, Live;
    var mv := Move(f.stack[|f.stack| - 1], args[|args| - 1 - |todo|]);
    PoppedFacts(f);
    MoreSources(todo, mv);
    assert f.stack[..|f.stack| - 1] == a.stack[..|a.stack| - |todo + [mv]|];
  }

  lemma MoreSources(todo: seq<Move>, mv: Move)
    ensures forall r: nat :: Uses(Sources(todo + [mv]), r) == Uses(Sources(todo), r) + if mv.src == Reg(r) then 1 else 0
  {
    assert Sources(todo + [mv]) == Sources(todo) + [mv.src];
    forall r: nat
      ensures Uses(Sources(todo + [mv]), r) == Uses(Sources(todo), r) + if mv.src == Reg(r) then 1 else 0
    {
      UsesPush(Sources(todo), mv.src, r);
    }
  }

  /** The parallel assignment the arguments ask for. */
  function Wants(vs: seq<Word>, args: seq<nat>, k: nat): (w: map<nat, Word>)
    requires k <= |args| <= |vs|
    ensures forall r :: r in w ==> r in args
    decreases k
  {
    if k == 0 then map[] else Wants(vs, args, k - 1)[args[k - 1] := vs[|vs| - |args| + k - 1]]
  }

  lemma {:induction false} WantsAt(vs: seq<Word>, args: seq<nat>, k: nat, i: nat)
    requires i < k <= |args| <= |vs| && DistinctArgs(args)
    ensures args[i] in Wants(vs, args, k) && Wants(vs, args, k)[args[i]] == vs[|vs| - |args| + i]
    decreases k
  {
    if i < k - 1 {
      WantsAt(vs, args, k - 1, i);
      assert args[i] != args[k - 1];
    }
  }

  /** The register of the integer argument `k`, counted from 0, in section 3.2.3 of the System V AMD64
      ABI. */
  function IntegerArgument(k: nat): (r: nat)
    requires k < 6
    ensures r < NUM_GPRS
  {
    if k == 0 then RDI else if k == 1 then RSI else if k == 2 then RDX
    else if k == 3 then RCX else if k == 4 then R8 else R9
  }

  /** `arg_locs` for up to five integer parameters.  The VMContext is the first argument. */
  function ArgRegs(count: nat): (args: seq<nat>)
    requires count <= 5
    ensures |args| == count && DistinctArgs(args)
    ensures forall i :: 0 <= i < count ==> args[i] == IntegerArgument(i + 1)
    ensures forall i :: 0 <= i < count ==> args[i] < NUM_GPRS && Scratch(args[i]) && args[i] != RAX
  {
    [RSI, RDX, RCX, R8, R9][..count]
  }

  predicate DistinctArgs(args: seq<nat>) {
    forall i, k :: 0 <= i < k < |args| ==> args[i] != args[k]
  }

  ghost predicate ArgsOk(a: Frame, args: seq<nat>, spare: nat) {
    && Sound(a) && |args| <= |a.stack| && DistinctArgs(args)
    && (forall i :: 0 <= i < |args| ==>
          args[i] < NUM_GPRS && Scratch(args[i]) && Pins(a, args[i]) == 0 &&
            Uses(a.stack[..|a.stack| - |args|], args[i]) == 0)
    && spare < NUM_GPRS && a.counts[spare] == 0 && spare !in args
  }

  ghost function JobFor(a: Frame, args: seq<nat>, spare: nat): Job
    requires |args| <= |a.stack| && DistinctArgs(args)
  {
    Job(a, |a.stack| - |args|, Wants(Values(a), args, |args|), spare)
  }

  lemma ShuffleStarts(a: Frame, f: Frame, args: seq<nat>, todo: seq<Move>, spare: nat)
    requires ArgsOk(a, args, spare) && Popped(a, f, args, todo) && |todo| == |args|
    ensures Outstanding(JobFor(a, args, spare), f, todo)
  {
    hide Uses, Pins, Sources, Values, Scratch, MoveOk, Wants, JobOk, Awaited;
    var j := JobFor(a, args, spare);
    StartMoves(a, f, args, todo, spare);
    JobStarts(a, args, spare);
    AllAwaited(args, todo);
    assert f.stack == a.stack[..j.keep];
    assert Values(f) == Values(a)[..j.keep];
  }

  lemma JobStarts(a: Frame, args: seq<nat>, spare: nat)
    requires ArgsOk(a, args, spare)
    ensures JobOk(JobFor(a, args, spare))
  {
    hide Uses, Wants, DistinctArgs, Scratch;
    var j := JobFor(a, args, spare);
    forall d | d in j.want
      ensures d < NUM_GPRS && Scratch(d) && Pins(a, d) == 0 && Uses(a.stack[..j.keep], d) == 0
    {
      var i :| 0 <= i < |args| && args[i] == d;
    }
  }

  lemma StartMoves(a: Frame, f: Frame, args: seq<nat>, todo: seq<Move>, spare: nat)
    requires ArgsOk(a, args, spare) && Popped(a, f, args, todo) && |todo| == |args|
    ensures forall i :: 0 <= i < |todo| ==> MoveOk(JobFor(a, args, spare), f, todo[i])
    ensures DistinctDests(todo)
  {
    hide Uses, Pins, Sources, Scratch, Wants, DistinctArgs;
    var j := JobFor(a, args, spare);
    forall i | 0 <= i < |todo|
      ensures MoveOk(j, f, todo[i])
    {
      var k := |args| - 1 - i;
      assert Live(a.stack[|a.stack| - 1 - i], a.depth);
      WantsAt(Values(a), args, |args|, k);
    }
    StartDests(args, todo);
  }

  lemma StartDests(args: seq<nat>, todo: seq<Move>)
    requires DistinctArgs(args) && |todo| == |args| &&
      forall i :: 0 <= i < |todo| ==> todo[i].dst == args[|args| - 1 - i]
    ensures DistinctDests(todo)
  {
  }

  lemma AllAwaited(args: seq<nat>, todo: seq<Move>)
    requires |todo| == |args| && forall i :: 0 <= i < |todo| ==> todo[i].dst == args[|args| - 1 - i]
    ensures forall d :: d in args ==> Awaited(todo, d)
  {
    forall d | d in args
      ensures Awaited(todo, d)
    {
      var i :| 0 <= i < |args| && args[i] == d;
      assert todo[|args| - 1 - i].dst == d;
    }
  }

  lemma ShuffleEnds(a: Frame, f: Frame, args: seq<nat>, spare: nat)
    requires ArgsOk(a, args, spare) && Outstanding(JobFor(a, args, spare), f, [])
    ensures Sound(f) && f.stack == a.stack[..|a.stack| - |args|] && Values(f) == Values(a)[..|a.stack| - |args|]
    ensures SlotsKept(a, f)
    ensures forall i :: 0 <= i < |args| ==> args[i] < NUM_GPRS && f.m.regs[args[i]] == Values(a)[|a.stack| - |args| + i]
    ensures forall r :: 0 <= r < NUM_GPRS ==> Pins(f, r) == Pins(a, r) + if r in args then 1 else 0
    ensures forall r :: 0 <= r < NUM_GPRS && r !in args ==> f.m.regs[r] == a.m.regs[r]
  {
    hide Uses, Pins, Scratch, Live, SlotsKept, Wants, DistinctArgs;
    var j := JobFor(a, args, spare);
    NoSources();
    WantsKeys(Values(a), args);
    forall i | 0 <= i < |args|
      ensures f.m.regs[args[i]] == Values(a)[|a.stack| - |args| + i]
    {
      WantsAt(Values(a), args, |args|, i);
      assert f.m.Read(R(args[i])) == j.want[args[i]];
    }
  }

  lemma WantsKeys(vs: seq<Word>, args: seq<nat>)
    requires |args| <= |vs| && DistinctArgs(args)
    ensures forall r :: r in Wants(vs, args, |args|) <==> r in args
  {
    hide Wants;
    forall r | r in args
      ensures r in Wants(vs, args, |args|)
    {
      var i :| 0 <= i < |args| && args[i] == r;
      WantsAt(vs, args, |args|, i);
    }
  }

  lemma NoSources()
    ensures forall r: nat :: Uses(Sources([]), r) == 0 && !Awaited([], r)
  {
    assert Sources([]) == [];
  }
}
