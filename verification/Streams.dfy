/** What holds of every stream the converter emits for a validated body: labels are declared
    before they are used, each label follows a terminator, the caller metadata of block
    declarations is true, and the code between a loop header and the end of its loop can only
    be entered through the header. */
module Streams {
  import opened Wasm
  import opened Microwasm
  import opened Converter
  import opened ConverterFacts
  import opened ConverterNames
  import opened Preservation

  // ---------------------------------------------------------------- properties of a stream

  /** The operator has a branch to the label. */
  predicate Calls(op: Op, n: Name) {
    match op
    case MBr(t) => t == To(n)
    case MBrIf(a, b) => a.target == To(n) || b.target == To(n)
    case MBrTable(ts, d) => d.target == To(n) || exists i :: 0 <= i < |ts| && ts[i].target == To(n)
    case _ => false
  }

  /** A conditional branch that names the label on one side only. */
  predicate CallsOnce(op: Op, n: Name) {
    op.MBrIf? && ((op.thn.target == To(n)) != (op.els.target == To(n)))
  }

  /** No operator of `xs` branches to a label of `ys`. */
  ghost predicate NoCallsInto(xs: seq<Op>, ys: seq<Op>) {
    forall p, r {:trigger xs[p], ys[r]} ::
      0 <= p < |xs| && 0 <= r < |ys| && ys[r].MLabel? ==> !Calls(xs[p], ys[r].name)
  }

  ghost predicate CallsWithin(out: seq<Op>, lo: nat, hi: nat, outer: set<Name>) {
    forall k, n {:trigger Calls(out[k], n)} ::
      0 <= k < |out| && Calls(out[k], n) ==> lo <= n.id < hi || n in outer
  }

  ghost predicate DeclaredBy(out: seq<Op>, k: nat, n: Name) {
    exists j :: 0 <= j < k && j < |out| && Declares(out[j], n)
  }

  /** Every label is declared before it is branched to and before it is defined. */
  ghost predicate DeclaredFirst(out: seq<Op>, outer: set<Name>) {
    && (forall k, n {:trigger Calls(out[k], n)} ::
          0 <= k < |out| && Calls(out[k], n) && n !in outer ==> DeclaredBy(out, k, n))
    && (forall k :: 0 <= k < |out| && out[k].MLabel? ==> DeclaredBy(out, k, out[k].name))
  }

  /** Labels strictly between `q` and `e` are branched to from there only. */
  ghost predicate Sealed(out: seq<Op>, q: nat, e: nat) {
    forall p, r {:trigger out[p], out[r]} ::
      0 <= p < |out| && q < r < e && r < |out| && out[r].MLabel? && Calls(out[p], out[r].name) ==> q < p < e
  }

  ghost predicate BackwardDecl(out: seq<Op>, q: nat, n: Name) {
    exists j :: 0 <= j < q && j < |out| && Declares(out[j], n) && out[j].backwards
  }

  /** A branch from `i` back to the label at `q`: the label is declared to have backward callers,
      and up to some point after `i` the code is entered through it only. */
  ghost predicate LoopRegion(out: seq<Op>, q: nat, i: nat)
    requires q < |out| && out[q].MLabel?
  {
    && BackwardDecl(out, q, out[q].name)
    && exists e :: i < e <= |out| && Sealed(out, q, e)
  }

  ghost predicate BackEdges(out: seq<Op>) {
    forall q, i {:trigger out[q], out[i]} ::
      0 <= q <= i < |out| && out[q].MLabel? && Calls(out[i], out[q].name) ==> LoopRegion(out, q, i)
  }

  ghost predicate OnlyCaller(out: seq<Op>, n: Name, k: nat) {
    && k < |out| && CallsOnce(out[k], n)
    && forall p :: 0 <= p < |out| && p != k ==> !Calls(out[p], n)
  }

  /** A declaration that announces one caller has exactly one. */
  ghost predicate OneCaller(out: seq<Op>) {
    forall j :: 0 <= j < |out| && out[j].MBlock? && out[j].numCallers == Some(1) ==>
      exists k :: OnlyCaller(out, out[j].name, k)
  }

  predicate LastTerminates(prev: bool, out: seq<Op>) {
    if out == [] then prev else Terminator(out[|out| - 1])
  }

  predicate GuardedAt(prev: bool, out: seq<Op>, k: nat)
    requires k < |out|
  {
    if k == 0 then prev else Terminator(out[k - 1])
  }

  /** Every label directly follows a terminator; `prev` says so of the operator before. */
  ghost predicate Guarded(prev: bool, out: seq<Op>) {
    forall k {:trigger out[k]} :: 0 <= k < |out| && out[k].MLabel? ==> GuardedAt(prev, out, k)
  }

  ghost predicate OuterBelow(outer: set<Name>, lo: nat) {
    forall n :: n in outer ==> n.id < lo
  }

  predicate SingleDecl(op: Op, n: Name) {
    op.MBlock? && op.name == n && op.numCallers == Some(1) && !op.backwards
  }

  ghost predicate HasSingleDecl(out: seq<Op>, n: Name) {
    exists j :: 0 <= j < |out| && SingleDecl(out[j], n)
  }

  /** The sides of a conditional branch lead to different blocks, and the second is a block with one
      caller and no backward ones. */
  ghost predicate FreshElse(out: seq<Op>) {
    forall k :: 0 <= k < |out| && out[k].MBrIf? ==>
      out[k].els.target.To? && out[k].thn.target != out[k].els.target && HasSingleDecl(out, out[k].els.target.name)
  }

  /** Declarations announce one caller or an unknown number. */
  ghost predicate KnownCounts(out: seq<Op>) {
    forall j :: 0 <= j < |out| && out[j].MBlock? ==> out[j].numCallers == None || out[j].numCallers == Some(1)
  }

  /** The invariant of a chunk whose new labels have ids in `lo..hi` and that may branch out to
      the labels `outer`. */
  ghost predicate ChunkOk(out: seq<Op>, lo: nat, hi: nat, outer: set<Name>) {
    && NamesIn(out, lo, hi) && OuterBelow(outer, lo)
    && CallsWithin(out, lo, hi, outer)
    && DeclaredFirst(out, outer)
    && BackEdges(out)
    && OneCaller(out)
    && Guarded(false, out)
    && FreshElse(out) && KnownCounts(out)
  }

  // ---------------------------------------------------------------- concatenation

  lemma ConcatAt(x: seq<Op>, y: seq<Op>, k: nat)
    requires k < |x + y|
    ensures (x + y)[k] == if k < |x| then x[k] else y[k - |x|]
  {
  }

  lemma CallsConcat(x: seq<Op>, y: seq<Op>, lo: nat, mid: nat, hi: nat, outer: set<Name>, own: set<Name>)
    requires lo <= mid <= hi
    requires CallsWithin(x, lo, mid, outer) && CallsWithin(y, mid, hi, outer + own)
    requires forall n :: n in own ==> lo <= n.id < hi
    ensures CallsWithin(x + y, lo, hi, outer)
  {
    forall k, n | 0 <= k < |x + y| && Calls((x + y)[k], n)
      ensures lo <= n.id < hi || n in outer
    {
      if k < |x| {
        assert Calls(x[k], n);
      } else {
        assert Calls(y[k - |x|], n);
      }
    }
  }

  lemma DeclaredExtends(x: seq<Op>, y: seq<Op>, k: nat, n: Name)
    ensures DeclaredBy(x, k, n) ==> forall m :: m >= k ==> DeclaredBy(x + y, m, n)
    ensures DeclaredBy(y, k, n) ==> DeclaredBy(x + y, |x| + k, n)
  {
    if DeclaredBy(x, k, n) {
      var j :| 0 <= j < k && j < |x| && Declares(x[j], n);
      assert Declares((x + y)[j], n);
    }
    if DeclaredBy(y, k, n) {
      var j :| 0 <= j < k && j < |y| && Declares(y[j], n);
      assert Declares((x + y)[|x| + j], n);
    }
  }

  /** Labels of `y` that it does not declare itself are declared in `x`. */
  lemma DeclaredConcat(x: seq<Op>, y: seq<Op>, outer: set<Name>)
    requires DeclaredFirst(x, outer)
    requires forall k, n {:trigger Calls(y[k], n)} ::
      0 <= k < |y| && Calls(y[k], n) && n !in outer ==> DeclaredBy(y, k, n) || DeclaredBy(x, |x|, n)
    requires forall k :: 0 <= k < |y| && y[k].MLabel? ==> DeclaredBy(y, k, y[k].name) || DeclaredBy(x, |x|, y[k].name)
    ensures DeclaredFirst(x + y, outer)
  {
    var z := x + y;
    forall k, n | 0 <= k < |z| && (Calls(z[k], n) || (z[k].MLabel? && z[k].name == n)) && (n !in outer || z[k].MLabel?)
      ensures DeclaredBy(z, k, n)
    {
      DeclaredExtends(x, y, k, n);
      DeclaredExtends(x, y, |x|, n);
      if k < |x| {
        assert Calls(x[k], n) || x[k].MLabel?;
      } else {
        assert Calls(y[k - |x|], n) || y[k - |x|].MLabel?;
        DeclaredExtends(x, y, k - |x|, n);
      }
    }
  }

  lemma SealedLeft(x: seq<Op>, y: seq<Op>, q: nat, e: nat)
    requires Sealed(x, q, e) && e <= |x| && NoCallsInto(y, x)
    ensures Sealed(x + y, q, e)
  {
    var z := x + y;
    forall p, r | 0 <= p < |z| && q < r < e && r < |z| && z[r].MLabel? && Calls(z[p], z[r].name)
      ensures q < p < e
    {
      assert z[r] == x[r];
      ConcatAt(x, y, p);
    }
  }

  lemma SealedRight(x: seq<Op>, y: seq<Op>, q: nat, e: nat)
    requires Sealed(y, q, e) && e <= |y| && NoCallsInto(x, y)
    ensures Sealed(x + y, |x| + q, |x| + e)
  {
    var z := x + y;
    forall p, r | 0 <= p < |z| && |x| + q < r < |x| + e && r < |z| && z[r].MLabel? && Calls(z[p], z[r].name)
      ensures |x| + q < p < |x| + e
    {
      assert z[r] == y[r - |x|];
      ConcatAt(x, y, p);
    }
  }

  lemma RegionLeft(x: seq<Op>, y: seq<Op>, q: nat, i: nat)
    requires q <= i < |x| && x[q].MLabel? && LoopRegion(x, q, i) && NoCallsInto(y, x)
    ensures LoopRegion(x + y, q, i)
  {
    var e :| i < e <= |x| && Sealed(x, q, e);
    SealedLeft(x, y, q, e);
    var j :| 0 <= j < q && j < |x| && Declares(x[j], x[q].name) && x[j].backwards;
    assert Declares((x + y)[j], (x + y)[q].name);
  }

  lemma RegionRight(x: seq<Op>, y: seq<Op>, q: nat, i: nat)
    requires q <= i < |y| && y[q].MLabel? && LoopRegion(y, q, i) && NoCallsInto(x, y)
    ensures LoopRegion(x + y, |x| + q, |x| + i)
  {
    var e :| i < e <= |y| && Sealed(y, q, e);
    SealedRight(x, y, q, e);
    var j :| 0 <= j < q && j < |y| && Declares(y[j], y[q].name) && y[j].backwards;
    assert Declares((x + y)[|x| + j], (x + y)[|x| + q].name);
  }

  /** Two chunks that do not branch into each other's labels. */
  lemma BackEdgesApart(x: seq<Op>, y: seq<Op>)
    requires BackEdges(x) && BackEdges(y) && NoCallsInto(y, x) && NoCallsInto(x, y)
    ensures BackEdges(x + y)
  {
    var z := x + y;
    forall q, i | 0 <= q <= i < |z| && z[q].MLabel? && Calls(z[i], z[q].name)
      ensures LoopRegion(z, q, i)
    {
      ConcatAt(x, y, q);
      ConcatAt(x, y, i);
      if i < |x| {
        RegionLeft(x, y, q, i);
      } else if q >= |x| {
        RegionRight(x, y, q - |x|, i - |x|);
      }
    }
  }

  /** Closing operators define labels that were only branched to before. */
  lemma BackEdgesCloser(x: seq<Op>, z: seq<Op>)
    requires BackEdges(x) && NoCallsInto(z, x)
    requires forall q, i {:trigger z[q], z[i]} :: 0 <= q <= i < |z| && z[q].MLabel? ==> !Calls(z[i], z[q].name)
    ensures BackEdges(x + z)
  {
    var w := x + z;
    forall q, i | 0 <= q <= i < |w| && w[q].MLabel? && Calls(w[i], w[q].name)
      ensures LoopRegion(w, q, i)
    {
      ConcatAt(x, z, q);
      ConcatAt(x, z, i);
      if i < |x| {
        RegionLeft(x, z, q, i);
      }
    }
  }

  /** A loop body after its header: branches back to the header stay in the loop's region. */
  lemma BackEdgesLoop(x: seq<Op>, y: seq<Op>, header: Name)
    requires BackEdges(x) && BackEdges(y) && NoCallsInto(x, y)
    requires |x| > 0 && x[|x| - 1] == MLabel(header) && BackwardDecl(x, |x| - 1, header)
    requires forall p, r {:trigger y[p], x[r]} ::
      0 <= p < |y| && 0 <= r < |x| - 1 && x[r].MLabel? ==> !Calls(y[p], x[r].name)
    requires forall q, i {:trigger x[q], x[i]} :: 0 <= q <= i < |x| && x[q].MLabel? ==> !Calls(x[i], x[q].name)
    ensures BackEdges(x + y)
  {
    var z := x + y;
    forall q, i | 0 <= q <= i < |z| && z[q].MLabel? && Calls(z[i], z[q].name)
      ensures LoopRegion(z, q, i)
    {
      ConcatAt(x, y, q);
      ConcatAt(x, y, i);
      if q >= |x| {
        RegionRight(x, y, q - |x|, i - |x|);
      } else {
        assert i >= |x| && q == |x| - 1;
        HeaderRegion(x, y, i);
      }
    }
  }

  lemma HeaderRegion(x: seq<Op>, y: seq<Op>, i: nat)
    requires NoCallsInto(x, y) && |x| > 0 && x[|x| - 1].MLabel? && BackwardDecl(x, |x| - 1, x[|x| - 1].name)
    requires |x| <= i < |x + y|
    ensures LoopRegion(x + y, |x| - 1, i)
  {
    var z := x + y;
    var q := |x| - 1;
    var j :| 0 <= j < q && j < |x| && Declares(x[j], x[q].name) && x[j].backwards;
    assert Declares(z[j], z[q].name);
    forall p, r | 0 <= p < |z| && q < r < |z| && z[r].MLabel? && Calls(z[p], z[r].name)
      ensures q < p < |z|
    {
      assert z[r] == y[r - |x|];
      ConcatAt(x, y, p);
    }
    assert Sealed(z, q, |z|);
  }

  lemma OneCallerConcat(x: seq<Op>, y: seq<Op>)
    requires OneCaller(x) && OneCaller(y)
    requires forall j, p {:trigger x[j], y[p]} ::
      0 <= j < |x| && x[j].MBlock? && x[j].numCallers == Some(1) && 0 <= p < |y| ==> !Calls(y[p], x[j].name)
    requires forall j, p {:trigger y[j], x[p]} ::
      0 <= j < |y| && y[j].MBlock? && y[j].numCallers == Some(1) && 0 <= p < |x| ==> !Calls(x[p], y[j].name)
    ensures OneCaller(x + y)
  {
    var z := x + y;
    forall j | 0 <= j < |z| && z[j].MBlock? && z[j].numCallers == Some(1)
      ensures exists k :: OnlyCaller(z, z[j].name, k)
    {
      if j < |x| {
        assert z[j] == x[j];
        var k :| OnlyCaller(x, x[j].name, k);
        OnlyCallerLeft(x, y, x[j].name, k);
      } else {
        assert z[j] == y[j - |x|];
        var k :| OnlyCaller(y, y[j - |x|].name, k);
        OnlyCallerRight(x, y, y[j - |x|].name, k);
      }
    }
  }

  lemma OnlyCallerLeft(x: seq<Op>, y: seq<Op>, n: Name, k: nat)
    requires OnlyCaller(x, n, k) && forall p :: 0 <= p < |y| ==> !Calls(y[p], n)
    ensures OnlyCaller(x + y, n, k)
  {
  }

  lemma OnlyCallerRight(x: seq<Op>, y: seq<Op>, n: Name, k: nat)
    requires OnlyCaller(y, n, k) && forall p :: 0 <= p < |x| ==> !Calls(x[p], n)
    ensures OnlyCaller(x + y, n, |x| + k)
  {
  }

  lemma GuardedConcat(prev: bool, x: seq<Op>, y: seq<Op>)
    requires Guarded(prev, x) && Guarded(LastTerminates(prev, x), y)
    ensures Guarded(prev, x + y)
  {
    var z := x + y;
    forall k | 0 <= k < |z| && z[k].MLabel?
      ensures GuardedAt(prev, z, k)
    {
      if k < |x| {
        assert z[k] == x[k] && (k > 0 ==> z[k - 1] == x[k - 1]);
      } else {
        assert z[k] == y[k - |x|];
        assert GuardedAt(LastTerminates(prev, x), y, k - |x|);
        assert k > 0 ==> z[k - 1] == if k == |x| then x[k - 1] else y[k - |x| - 1];
      }
    }
  }

  // ---------------------------------------------------------------- building a chunk

  lemma RangeApart(x: seq<Op>, y: seq<Op>, lo: nat, mid: nat, hi: nat, outer: set<Name>)
    requires CallsWithin(x, lo, mid, outer) && OuterBelow(outer, lo) && lo <= mid && NamesIn(y, mid, hi)
    ensures NoCallsInto(x, y)
    ensures forall j, p {:trigger y[j], x[p]} ::
      0 <= j < |y| && y[j].MBlock? && 0 <= p < |x| ==> !Calls(x[p], y[j].name)
  {
    forall p, r | 0 <= p < |x| && 0 <= r < |y| && Named(y[r])
      ensures !Calls(x[p], y[r].name)
    {
      assert mid <= y[r].name.id < hi;
    }
  }

  lemma SingleDeclStays(x: seq<Op>, y: seq<Op>, n: Name)
    requires HasSingleDecl(x, n) || HasSingleDecl(y, n)
    ensures HasSingleDecl(x + y, n)
  {
    if HasSingleDecl(x, n) {
      var j :| 0 <= j < |x| && SingleDecl(x[j], n);
      assert (x + y)[j] == x[j];
    } else {
      var j :| 0 <= j < |y| && SingleDecl(y[j], n);
      assert (x + y)[|x| + j] == y[j];
    }
  }

  lemma FreshElseConcat(x: seq<Op>, y: seq<Op>)
    requires FreshElse(x) && FreshElse(y) && KnownCounts(x) && KnownCounts(y)
    ensures FreshElse(x + y) && KnownCounts(x + y)
  {
    hide HasSingleDecl;
    forall k | 0 <= k < |x + y| && (x + y)[k].MBrIf?
      ensures var op := (x + y)[k];
        op.els.target.To? && op.thn.target != op.els.target && HasSingleDecl(x + y, op.els.target.name)
    {
      ConcatAt(x, y, k);
      SingleDeclStays(x, y, (x + y)[k].els.target.name);
    }
  }

  /** `y` comes after `x` and may branch to the labels `own` of `x`, which `x` declares. */
  lemma AddBody(x: seq<Op>, y: seq<Op>, lo: nat, mid: nat, hi: nat, outer: set<Name>, own: set<Name>)
    requires lo <= mid <= hi && ChunkOk(x, lo, mid, outer) && ChunkOk(y, mid, hi, outer + own)
    requires forall n :: n in own ==> lo <= n.id < mid && DeclaredBy(x, |x|, n)
    requires forall j :: 0 <= j < |x| && x[j].MBlock? && x[j].numCallers == Some(1) ==> x[j].name !in own
    requires BackEdges(x + y)
    ensures ChunkOk(x + y, lo, hi, outer)
  {
    hide BackEdges, DeclaredBy;
    NamesWiden(x, lo, mid, lo, hi);
    NamesWiden(y, mid, hi, lo, hi);
    NamesConcat(x, y, lo, hi);
    CallsConcat(x, y, lo, mid, hi, outer, own);
    RangeApart(x, y, lo, mid, hi, outer);
    forall k, n | 0 <= k < |y| && Calls(y[k], n) && n !in outer
      ensures DeclaredBy(y, k, n) || DeclaredBy(x, |x|, n)
    {
      assert n in own || n !in outer + own;
    }
    DeclaredConcat(x, y, outer);
    forall j, p | 0 <= j < |x| && x[j].MBlock? && x[j].numCallers == Some(1) && 0 <= p < |y|
      ensures !Calls(y[p], x[j].name)
    {
      assert x[j].name !in outer + own;
    }
    OneCallerConcat(x, y);
    GuardedWeaken(y, LastTerminates(false, x));
    GuardedConcat(false, x, y);
    FreshElseConcat(x, y);
  }

  lemma GuardedWeaken(y: seq<Op>, prev: bool)
    requires Guarded(false, y)
    ensures Guarded(prev, y)
  {
  }

  /** A body with no label of its own in `x` yet: a sibling, or the inside of a block or `if`. */
  lemma AddPlainBody(x: seq<Op>, y: seq<Op>, lo: nat, mid: nat, hi: nat, outer: set<Name>, own: set<Name>)
    requires lo <= mid <= hi && ChunkOk(x, lo, mid, outer) && ChunkOk(y, mid, hi, outer + own)
    requires forall n :: n in own ==> lo <= n.id < mid && DeclaredBy(x, |x|, n)
    requires forall j :: 0 <= j < |x| && x[j].MBlock? && x[j].numCallers == Some(1) ==> x[j].name !in own
    requires forall j :: 0 <= j < |x| && x[j].MLabel? ==> x[j].name !in own
    ensures ChunkOk(x + y, lo, hi, outer)
  {
    RangeApart(x, y, lo, mid, hi, outer);
    forall p, r | 0 <= p < |y| && 0 <= r < |x| && x[r].MLabel?
      ensures !Calls(y[p], x[r].name)
    {
      assert x[r].name !in outer + own;
    }
    BackEdgesApart(x, y);
    AddBody(x, y, lo, mid, hi, outer, own);
  }

  /** A loop body directly after its header label. */
  lemma AddLoopBody(x: seq<Op>, y: seq<Op>, id: nat, hi: nat, outer: set<Name>)
    requires id < hi && ChunkOk(x, id, id + 1, outer) && ChunkOk(y, id + 1, hi, outer + {Name(id, Header)})
    requires |x| > 0 && x[|x| - 1] == MLabel(Name(id, Header)) && BackwardDecl(x, |x| - 1, Name(id, Header))
    requires forall j :: 0 <= j < |x| - 1 ==> !x[j].MLabel?
    requires forall j :: 0 <= j < |x| && x[j].MBlock? ==> x[j].numCallers == None
    requires forall j :: 0 <= j < |x| ==> x[j].MLabel? ==> !Calls(x[|x| - 1], x[j].name)
    ensures ChunkOk(x + y, id, hi, outer)
  {
    var header := Name(id, Header);
    RangeApart(x, y, id, id + 1, hi, outer);
    BackEdgesLoop(x, y, header);
    var j :| 0 <= j < |x| - 1 && j < |x| && Declares(x[j], header) && x[j].backwards;
    assert DeclaredBy(x, |x|, header);
    AddBody(x, y, id, id + 1, hi, outer, {header});
  }

  /** Closing operators: they declare nothing, and define and branch to declared labels of the
      same bracket that are not yet defined. */
  lemma AddCloser(x: seq<Op>, z: seq<Op>, id: nat, hi: nat, outer: set<Name>)
    requires id < hi && ChunkOk(x, id, hi, outer)
    requires NamesIn(z, id, id + 1) && CallsWithin(z, id, id + 1, {})
    requires forall k :: 0 <= k < |z| ==> !z[k].MBlock? && !z[k].MBrIf?
    requires forall k :: 0 <= k < |z| && z[k].MLabel? ==> DeclaredBy(x, |x|, z[k].name)
    requires forall k, n {:trigger Calls(z[k], n)} :: 0 <= k < |z| && Calls(z[k], n) ==> DeclaredBy(x, |x|, n)
    requires NoCallsInto(z, x)
    requires forall q, i {:trigger z[q], z[i]} :: 0 <= q <= i < |z| && z[q].MLabel? ==> !Calls(z[i], z[q].name)
    requires forall j, p {:trigger x[j], z[p]} ::
      0 <= j < |x| && x[j].MBlock? && x[j].numCallers == Some(1) && 0 <= p < |z| ==> !Calls(z[p], x[j].name)
    requires Guarded(LastTerminates(false, x), z)
    ensures ChunkOk(x + z, id, hi, outer)
  {
    hide DeclaredBy;
    NamesWiden(z, id, id + 1, id, hi);
    NamesConcat(x, z, id, hi);
    CloserCalls(x, z, id, hi, outer);
    DeclaredConcat(x, z, outer);
    BackEdgesCloser(x, z);
    OneCallerConcat(x, z);
    GuardedConcat(false, x, z);
    FreshElseConcat(x, z);
  }

  lemma CloserCalls(x: seq<Op>, z: seq<Op>, id: nat, hi: nat, outer: set<Name>)
    requires id < hi && CallsWithin(x, id, hi, outer) && CallsWithin(z, id, id + 1, {})
    ensures CallsWithin(x + z, id, hi, outer)
  {
    forall k, n | 0 <= k < |x + z| && Calls((x + z)[k], n)
      ensures id <= n.id < hi || n in outer
    {
      if k < |x| {
        assert Calls(x[k], n);
      } else {
        assert Calls(z[k - |x|], n);
      }
    }
  }

  // ---------------------------------------------------------------- chunks of the converter

  /** The labels that branches to the enclosing frames use. */
  function FrameNames(frames: seq<Frame>): (r: set<Name>)
    ensures forall n :: n in r <==> exists i :: 0 <= i < |frames| && frames[i].BrTarget() == To(n)
  {
    set i | 0 <= i < |frames| && frames[i].BrTarget().To? :: frames[i].BrTarget().name
  }

  ghost predicate FramesBelow(frames: seq<Frame>, id: nat) {
    forall i :: 0 <= i < |frames| ==> frames[i].id < id
  }

  lemma GrownNames(fs: seq<Frame>, gs: seq<Frame>, id: nat, id': nat)
    requires FramesGrown(fs, gs) && FramesBelow(fs, id) && id <= id'
    ensures FrameNames(gs) == FrameNames(fs) && FramesBelow(gs, id')
  {
    forall i | 0 <= i < |fs|
      ensures gs[i].BrTarget() == fs[i].BrTarget() && gs[i].id == fs[i].id
    {
      assert Grown(fs[i], gs[i]);
    }
  }

  lemma NamesBelow(frames: seq<Frame>, id: nat)
    requires FramesBelow(frames, id)
    ensures OuterBelow(FrameNames(frames), id)
  {
  }

  ghost predicate Undefined(x: seq<Op>, n: Name) {
    forall j :: 0 <= j < |x| && x[j].MLabel? ==> x[j].name != n
  }

  ghost predicate NotSingle(x: seq<Op>, n: Name) {
    forall j :: 0 <= j < |x| && x[j].MBlock? && x[j].numCallers == Some(1) ==> x[j].name != n
  }

  /** The end label of a bracket is declared, shared and still to be defined. */
  ghost predicate EndPending(x: seq<Op>, id: nat) {
    && DeclaredBy(x, |x|, Name(id, End)) && Undefined(x, Name(id, End)) && NotSingle(x, Name(id, End))
  }

  lemma PendingAfter(x: seq<Op>, y: seq<Op>, id: nat, mid: nat, hi: nat)
    requires EndPending(x, id) && NamesIn(y, mid, hi) && id < mid
    ensures EndPending(x + y, id)
  {
    DeclaredExtends(x, y, |x|, Name(id, End));
  }

  lemma OpenBlockChunk(c: Conv, bt: BlockType, outer: set<Name>)
    requires OuterBelow(outer, c.nextId)
    ensures ChunkOk(OpenBlock(c, bt).out, c.nextId, c.nextId + 1, outer) && EndPending(OpenBlock(c, bt).out, c.nextId)
  {
    var x := OpenBlock(c, bt).out;
    assert Declares(x[0], Name(c.nextId, End));
  }

  /** `loop` opens with its declarations, the branch into it and its label. */
  ghost predicate LoopHead(x: seq<Op>, id: nat, params: seq<Ty>, rets: seq<Ty>) {
    x == [LoopDecl(params, Name(id, Header)), EndDecl(params + rets, Name(id, End)), MBr(To(Name(id, Header))),
          MLabel(Name(id, Header))]
  }

  lemma LoopHeadDecls(x: seq<Op>, id: nat, params: seq<Ty>, rets: seq<Ty>, outer: set<Name>)
    requires LoopHead(x, id, params, rets)
    ensures DeclaredFirst(x, outer) && EndPending(x, id) && BackwardDecl(x, |x| - 1, Name(id, Header))
  {
    var header := Name(id, Header);
    assert Declares(x[0], header) && Declares(x[1], Name(id, End));
    assert DeclaredBy(x, 2, header) && DeclaredBy(x, 3, header);
  }

  lemma LoopHeadCalls(x: seq<Op>, id: nat, params: seq<Ty>, rets: seq<Ty>, outer: set<Name>)
    requires LoopHead(x, id, params, rets)
    ensures NamesIn(x, id, id + 1) && CallsWithin(x, id, id + 1, outer) && BackEdges(x) && Guarded(false, x)
    ensures OneCaller(x) && FreshElse(x) && KnownCounts(x)
  {
    hide LoopRegion;
  }

  lemma OpenLoopChunk(c: Conv, bt: BlockType, outer: set<Name>)
    requires OuterBelow(outer, c.nextId)
    ensures ChunkOk(OpenLoop(c, bt).out, c.nextId, c.nextId + 1, outer) && EndPending(OpenLoop(c, bt).out, c.nextId)
    ensures var x := OpenLoop(c, bt).out; BackwardDecl(x, |x| - 1, Name(c.nextId, Header))
  {
    hide OuterBelow, LoopRegion, DeclaredFirst, EndPending, BackwardDecl, NamesIn, CallsWithin, BackEdges, Guarded,
      OneCaller, FreshElse, KnownCounts;
    var x := OpenLoop(c, bt).out;
    LoopHeadDecls(x, c.nextId, c.stack, Rets(bt), outer);
    LoopHeadCalls(x, c.nextId, c.stack, Rets(bt), outer);
  }

  /** `if` opens with its declarations, the conditional branch and the label of the first side. */
  ghost predicate IfHead(x: seq<Op>, id: nat, params: seq<Ty>, rets: seq<Ty>) {
    x == [BlockDecl(params, Name(id, Header)), BlockDecl(params, Name(id, Else)), EndDecl(params + rets, Name(id, End)),
          MBrIf(TargetDrop(To(Name(id, Header)), None), TargetDrop(To(Name(id, Else)), None)), MLabel(Name(id, Header))]
  }

  lemma IfHeadDecls(x: seq<Op>, id: nat, params: seq<Ty>, rets: seq<Ty>, outer: set<Name>)
    requires IfHead(x, id, params, rets)
    ensures DeclaredFirst(x, outer) && EndPending(x, id) && DeclaredBy(x, 5, Name(id, Else))
  {
    var t, e := Name(id, Header), Name(id, Else);
    assert Declares(x[0], t) && Declares(x[1], e) && Declares(x[2], Name(id, End));
    assert DeclaredBy(x, 3, t) && DeclaredBy(x, 3, e) && DeclaredBy(x, 4, t);
  }

  lemma IfHeadCalls(x: seq<Op>, id: nat, params: seq<Ty>, rets: seq<Ty>, outer: set<Name>)
    requires IfHead(x, id, params, rets)
    ensures NamesIn(x, id, id + 1) && CallsWithin(x, id, id + 1, outer) && BackEdges(x) && Guarded(false, x)
    ensures OneCaller(x)
  {
    hide LoopRegion;
    assert OnlyCaller(x, Name(id, Header), 3) && OnlyCaller(x, Name(id, Else), 3);
  }

  lemma OpenIfChunk(c: Conv, bt: BlockType, outer: set<Name>)
    requires OuterBelow(outer, c.nextId)
    ensures ChunkOk(OpenIf(c, bt).out, c.nextId, c.nextId + 1, outer) && EndPending(OpenIf(c, bt).out, c.nextId)
    ensures DeclaredBy(OpenIf(c, bt).out, 5, Name(c.nextId, Else))
  {
    hide OuterBelow, LoopRegion, DeclaredFirst, EndPending, DeclaredBy, NamesIn, CallsWithin, BackEdges, Guarded,
      OneCaller, FreshElse, KnownCounts;
    var x := OpenIf(c, bt).out;
    IfFresh(c, bt);
    IfHeadDecls(x, c.nextId, c.stack, Rets(bt), outer);
    IfHeadCalls(x, c.nextId, c.stack, Rets(bt), outer);
  }

  lemma IfFresh(c: Conv, bt: BlockType)
    ensures FreshElse(OpenIf(c, bt).out) && KnownCounts(OpenIf(c, bt).out)
  {
    var x := OpenIf(c, bt).out;
    assert SingleDecl(x[1], Name(c.nextId, Else));
  }

  lemma BrIfFresh(c: Conv, depth: nat)
    requires depth < |c.frames| && FramesBelow(c.frames, c.nextId)
    ensures FreshElse(LiveBrIf(c, depth).out) && KnownCounts(LiveBrIf(c, depth).out)
  {
    var x := LiveBrIf(c, depth).out;
    assert SingleDecl(x[0], Name(c.nextId, Header));
    assert Nth(c.frames, depth).id < c.nextId;
  }

  lemma BrIfChunk(c: Conv, depth: nat, outer: set<Name>)
    requires depth < |c.frames| && FramesBelow(c.frames, c.nextId) && outer == FrameNames(c.frames)
    ensures ChunkOk(LiveBrIf(c, depth).out, c.nextId, c.nextId + 1, outer)
  {
    hide FreshElse, KnownCounts;
    BrIfFresh(c, depth);
    var x := LiveBrIf(c, depth).out;
    var next := Name(c.nextId, Header);
    var f := Nth(c.frames, depth);
    assert f.id < c.nextId;
    assert f.BrTarget().To? ==> f.BrTarget().name in outer;
    assert Declares(x[0], next);
    assert DeclaredBy(x, 1, next) && DeclaredBy(x, 2, next);
    assert OnlyCaller(x, next, 1);
    NamesBelow(c.frames, c.nextId);
  }

  /** A chunk without declarations and labels that only branches out. */
  lemma PlainChunk(out: seq<Op>, lo: nat, hi: nat, outer: set<Name>)
    requires lo <= hi && OuterBelow(outer, lo)
    requires forall k :: 0 <= k < |out| ==> !Named(out[k]) && !out[k].MBrIf?
    requires forall k, n {:trigger Calls(out[k], n)} :: 0 <= k < |out| && Calls(out[k], n) ==> n in outer
    ensures ChunkOk(out, lo, hi, outer)
  {
  }

  lemma TargetName(frames: seq<Frame>, depth: nat)
    requires depth < |frames|
    ensures Nth(frames, depth).BrTarget().To? ==> Nth(frames, depth).BrTarget().name in FrameNames(frames)
  {
    assert frames[|frames| - 1 - depth].BrTarget() == Nth(frames, depth).BrTarget();
  }

  /** `unreachable`, `br`, `br_table` and `return` end in a terminator and only branch out. */
  lemma EndingLeaf(c: Conv, ctx: Ctx, i: Instr, opds: seq<Ty>)
    requires InStep(c, ctx, opds) && CheckInstr(ctx, i, opds).Dead?
    ensures ConvertInstr(c, i).Ok? && EndsOut(ConvertInstr(c, i).out, FrameNames(c.frames))
  {
    hide InStep, EndsOut, FrameNames;
    match i
    case Unreachable => TrapCalls(c, ctx, opds);
    case Return => ReturnCalls(c, ctx, opds);
    case Br(d) => BrCalls(c, ctx, d, opds);
    case BrTable(ds, d) => TableCalls(c, ctx, ds, d, opds);
  }

  /** The chunk ends in a terminator, has no labels and declarations and only branches to `names`. */
  ghost predicate EndsOut(out: seq<Op>, names: set<Name>) {
    && out != [] && Terminator(out[|out| - 1])
    && (forall k :: 0 <= k < |out| ==> !Named(out[k]) && !out[k].MBrIf?)
    && forall k, n {:trigger Calls(out[k], n)} :: 0 <= k < |out| && Calls(out[k], n) ==> n in names
  }

  lemma TrapCalls(c: Conv, ctx: Ctx, opds: seq<Ty>)
    requires InStep(c, ctx, opds)
    ensures var e := Convert1(c, OpUnreachable); e.Ok? && EndsOut(e.out, FrameNames(c.frames))
  {
    TrapLeaf(c, ctx, opds);
  }

  lemma DropBrCalls(d: Option<Range>, f: Frame, frames: seq<Frame>)
    requires f in frames
    ensures EndsOut(DropOps(d) + [MBr(f.BrTarget())], FrameNames(frames))
  {
  }

  lemma ReturnCalls(c: Conv, ctx: Ctx, opds: seq<Ty>)
    requires InStep(c, ctx, opds)
    ensures var e := Convert1(c, OpReturn); e.Ok? && EndsOut(e.out, FrameNames(c.frames))
  {
    TrapLeaf(c, ctx, opds);
    DropBrCalls(ToDrop(|c.stack|, c.frames[0]), c.frames[0], c.frames);
  }

  lemma BrCalls(c: Conv, ctx: Ctx, d: nat, opds: seq<Ty>)
    requires InStep(c, ctx, opds) && d < |ctx.labels|
    ensures var e := Convert1(c, OpBr(d)); e.Ok? && EndsOut(e.out, FrameNames(c.frames))
  {
    BrLeaf(c, ctx, opds, d);
    DropBrCalls(ToDrop(|c.stack|, Nth(c.frames, d)), Nth(c.frames, d), c.frames);
  }

  lemma TableCalls(c: Conv, ctx: Ctx, ds: seq<nat>, d: nat, opds: seq<Ty>)
    requires InStep(c, ctx, opds) && CheckInstr(ctx, BrTable(ds, d), opds).Dead?
    ensures var e := Convert1(c, OpBrTable(ds, d)); e.Ok? && EndsOut(e.out, FrameNames(c.frames))
  {
    CheckedTable(c, ctx, opds, ds, d);
    var c0 := Popped1(c, ctx, opds);
    var ts := Targets(|c0.stack|, c0.frames, ds);
    TargetName(c.frames, d);
    forall i | 0 <= i < |ds| && ts[i].target.To?
      ensures ts[i].target.name in FrameNames(c.frames)
    {
      TargetName(c.frames, ds[i]);
    }
    TableOut(ts, TargetDrop(Nth(c0.frames, d).BrTarget(), ToDrop(|c0.stack|, Nth(c0.frames, d))), FrameNames(c.frames));
    hide EndsOut, FrameNames;
  }

  lemma TableOut(ts: seq<TargetDrop>, d: TargetDrop, names: set<Name>)
    requires forall i :: 0 <= i < |ts| && ts[i].target.To? ==> ts[i].target.name in names
    requires d.target.To? ==> d.target.name in names
    ensures EndsOut([MBrTable(ts, d)], names)
  {
  }

  // ---------------------------------------------------------------- closing operators

  lemma CloserFacts(f: Frame, dead: bool)
    ensures var z := EndOut(f, dead); var end := Name(f.id, End);
      && NamesIn(z, f.id, f.id + 1) && CallsWithin(z, f.id, f.id + 1, {})
      && (forall k :: 0 <= k < |z| ==> !z[k].MBlock? && !z[k].MBrIf?)
      && (forall k :: 0 <= k < |z| && z[k].MLabel? ==>
            z[k].name == end || (z[k].name == Name(f.id, Else) && f.kind == IfKind(false)))
      && (forall k, n {:trigger Calls(z[k], n)} :: 0 <= k < |z| && Calls(z[k], n) ==> n == end)
      && (forall q, i {:trigger z[q], z[i]} :: 0 <= q <= i < |z| && z[q].MLabel? ==> !Calls(z[i], z[q].name))
      && (z != [] && !dead ==> !z[0].MLabel?)
      && Guarded(true, z)
  {
  }

  lemma ElseFacts(f: Frame, dead: bool)
    ensures var z := ElseOut(f, dead); var end := Name(f.id, End);
      && NamesIn(z, f.id, f.id + 1) && CallsWithin(z, f.id, f.id + 1, {})
      && (forall k :: 0 <= k < |z| ==> !z[k].MBlock? && !z[k].MBrIf?)
      && (forall k :: 0 <= k < |z| && z[k].MLabel? ==> z[k].name == Name(f.id, Else))
      && (forall k, n {:trigger Calls(z[k], n)} :: 0 <= k < |z| && Calls(z[k], n) ==> n == end)
      && (forall q, i {:trigger z[q], z[i]} :: 0 <= q <= i < |z| && z[q].MLabel? ==> !Calls(z[i], z[q].name))
      && (!dead ==> !z[0].MLabel?)
      && Guarded(true, z)
  {
  }

  lemma GuardedIf(z: seq<Op>, prev: bool)
    requires Guarded(true, z) && (prev || z == [] || !z[0].MLabel?)
    ensures Guarded(prev, z)
  {
  }

  /** Adding the operators of an `else` or `end` to a bracket in progress. */
  lemma Close(x: seq<Op>, z: seq<Op>, id: nat, hi: nat, outer: set<Name>)
    requires id < hi && ChunkOk(x, id, hi, outer) && EndPending(x, id)
    requires NamesIn(z, id, id + 1) && CallsWithin(z, id, id + 1, {})
    requires forall k :: 0 <= k < |z| ==> !z[k].MBlock? && !z[k].MBrIf?
    requires forall k :: 0 <= k < |z| && z[k].MLabel? ==> DeclaredBy(x, |x|, z[k].name)
    requires forall k, n {:trigger Calls(z[k], n)} :: 0 <= k < |z| && Calls(z[k], n) ==> n == Name(id, End)
    requires forall q, i {:trigger z[q], z[i]} :: 0 <= q <= i < |z| && z[q].MLabel? ==> !Calls(z[i], z[q].name)
    requires Guarded(true, z) && (LastTerminates(false, x) || z == [] || !z[0].MLabel?)
    ensures ChunkOk(x + z, id, hi, outer)
  {
    GuardedIf(z, LastTerminates(false, x));
    AddCloser(x, z, id, hi, outer);
  }

  // ---------------------------------------------------------------- whole code

  ghost predicate EndsDead(out: seq<Op>, r: Checked) {
    r.Dead? ==> out != [] && Terminator(out[|out| - 1])
  }

  /** Every chunk of validated code satisfies the stream invariant. */
  lemma {:induction false} CodeChunk(c: Conv, ctx: Ctx, code: Code, opds: seq<Ty>)
    requires InStep(c, ctx, opds) && !CheckCode(ctx, code, opds).Invalid? && FramesBelow(c.frames, c.nextId)
    ensures var e := ConvertCode(c, code);
      e.Ok? && ChunkOk(e.out, c.nextId, e.conv.nextId, FrameNames(c.frames)) &&
        EndsDead(e.out, CheckCode(ctx, code, opds))
    decreases code, 0
  {
    hide FreshElse, KnownCounts, BackEdges, OneCaller, DeclaredFirst;
    NamesBelow(c.frames, c.nextId);
    match code
    case Nil => PlainChunk([], c.nextId, c.nextId, FrameNames(c.frames));
    case Cons(i, rest) =>
      hide ChunkOk, ConvertInstr, CheckInstr, InStep;
      InstrChunk(c, ctx, i, opds);
      InstrOk(c, ctx, i, opds);
      var r := ConvertInstr(c, i);
      GrownNames(c.frames, r.conv.frames, c.nextId, r.conv.nextId);
      match CheckInstr(ctx, i, opds) {
        case Live(o) =>
          AfterInStep(c, r.conv, ctx, opds, o);
          CodeChunk(r.conv, ctx, rest, o);
          CodeOk(r.conv, ctx, rest, o);
          var q := ConvertCode(r.conv, rest);
          Siblings(r.out, q.out, c.nextId, r.conv.nextId, q.conv.nextId, FrameNames(c.frames));
          assert q.out != [] ==> (r.out + q.out)[|r.out + q.out| - 1] == q.out[|q.out| - 1];
        case Dead =>
          SkipCode(r.conv, rest);
          assert r.out + [] == r.out;
      }
  }

  lemma Siblings(x: seq<Op>, y: seq<Op>, lo: nat, mid: nat, hi: nat, outer: set<Name>)
    requires lo <= mid <= hi && ChunkOk(x, lo, mid, outer) && ChunkOk(y, mid, hi, outer)
    ensures ChunkOk(x + y, lo, hi, outer)
  {
    assert outer + {} == outer;
    AddPlainBody(x, y, lo, mid, hi, outer, {});
  }

  lemma {:induction false} InstrChunk(c: Conv, ctx: Ctx, i: Instr, opds: seq<Ty>)
    requires InStep(c, ctx, opds) && !CheckInstr(ctx, i, opds).Invalid? && FramesBelow(c.frames, c.nextId)
    ensures var e := ConvertInstr(c, i);
      e.Ok? && ChunkOk(e.out, c.nextId, e.conv.nextId, FrameNames(c.frames)) &&
        EndsDead(e.out, CheckInstr(ctx, i, opds))
    decreases i, 1
  {
    hide ChunkOk, InStep, CheckCode, ConvertCode;
    match i
    case Block(bt, body) => BlockChunk(c, ctx, i, opds);
    case Loop(bt, body) => LoopChunk(c, ctx, i, opds);
    case IfThen(bt, thn) => IfThenChunk(c, ctx, i, opds);
    case IfElse(bt, thn, els) => IfElseChunk(c, ctx, i, opds);
    case BrIf(d) =>
      BrIfLeaf(c, ctx, opds, d);
      BrIfChunk(Popped1(c, ctx, opds), d, FrameNames(c.frames));
    case _ => LeafChunk(c, ctx, i, opds);
  }

  lemma InStepFacts(c: Conv, ctx: Ctx, opds: seq<Ty>)
    requires InStep(c, ctx, opds)
    ensures ctx.Wf() && |c.frames| == |ctx.labels|
  {
  }

  lemma LeafChunk(c: Conv, ctx: Ctx, i: Instr, opds: seq<Ty>)
    requires InStep(c, ctx, opds) && !CheckInstr(ctx, i, opds).Invalid? && FramesBelow(c.frames, c.nextId)
    requires !i.Block? && !i.Loop? && !i.IfThen? && !i.IfElse? && !i.BrIf?
    ensures var e := ConvertInstr(c, i);
      e.Ok? && ChunkOk(e.out, c.nextId, e.conv.nextId, FrameNames(c.frames)) &&
        EndsDead(e.out, CheckInstr(ctx, i, opds))
  {
    hide InStep, CheckInstr, ConvertInstr, ChunkOk;
    InStepFacts(c, ctx, opds);
    NamesBelow(c.frames, c.nextId);
    InstrOk(c, ctx, i, opds);
    if CheckInstr(ctx, i, opds).Dead? {
      EndingLeaf(c, ctx, i, opds);
    } else {
      StraightLeaf(c, ctx, i, opds);
    }
    PlainChunk(ConvertInstr(c, i).out, c.nextId, ConvertInstr(c, i).conv.nextId, FrameNames(c.frames));
  }

  lemma PushedNames(frames: seq<Frame>, f: Frame, id: nat)
    requires FramesBelow(frames, id) && f.id == id && f.BrTarget().To?
    ensures FrameNames(frames + [f]) == FrameNames(frames) + {f.BrTarget().name}
    ensures FramesBelow(frames + [f], id + 1)
  {
    var fs := frames + [f];
    assert fs[|frames|] == f;
    assert forall i :: 0 <= i < |frames| ==> fs[i] == frames[i];
  }

  /** The body of a bracket and its closing operators, after an opening `x`. */
  lemma {:induction false} BodyAndEnd(x: seq<Op>, st: Stages, c: Conv, ctx: Ctx, opds: seq<Ty>, l: Lab, code: Code,
      e: Emit,
                                      id: nat, outer: set<Name>)
    requires StagesOf(st, c, ctx, opds, l, code, e) && !l.isLoop
    requires id < st.open.nextId && ChunkOk(x, id, st.open.nextId, outer) && EndPending(x, id)
    requires var f := st.open.frames[|c.frames|];
      f.id == id && !f.kind.LoopKind? && !f.kind.FunctionKind? &&
      (f.kind == IfKind(false) ==> DeclaredBy(x, |x|, Name(id, Else)))
    requires FrameNames(st.open.frames) == outer + {Name(id, End)} && FramesBelow(st.open.frames, st.open.nextId)
    ensures ChunkOk(x + st.body + st.closing, id, st.inner.nextId, outer)
    decreases code, 1
  {
    hide Guarded, NamesIn, CallsWithin, Calls, ConvertInstr, CheckInstr;
    hide ChunkOk, EndPending, DeclaredBy, InStep;
    StageFrame(st, c, ctx, opds, l, code, e);
    var end := Name(id, End);
    CodeChunk(st.open, ctx.Push(l), code, opds);
    WithBody(x, st.body, id, st.open.nextId, st.inner.nextId, outer);
    var f := st.inner.frames[|c.frames|];
    DeclaredStill(x, st.body, Name(id, Else));
    CloseEnd(x + st.body, f, st.dead, id, st.inner.nextId, outer, x, st.body);
  }

  lemma WithBody(x: seq<Op>, body: seq<Op>, id: nat, mid: nat, hi: nat, outer: set<Name>)
    requires id < mid <= hi && ChunkOk(x, id, mid, outer) && EndPending(x, id)
    requires ChunkOk(body, mid, hi, outer + {Name(id, End)})
    ensures ChunkOk(x + body, id, hi, outer) && EndPending(x + body, id)
  {
    AddPlainBody(x, body, id, mid, hi, outer, {Name(id, End)});
    PendingAfter(x, body, id, mid, hi);
  }

  lemma DeclaredStill(x: seq<Op>, y: seq<Op>, n: Name)
    ensures DeclaredBy(x, |x|, n) ==> DeclaredBy(x + y, |x + y|, n)
  {
    DeclaredExtends(x, y, |x|, n);
  }

  lemma CloseEnd(xy: seq<Op>, f: Frame, dead: bool, id: nat, hi: nat, outer: set<Name>, x: seq<Op>, y: seq<Op>)
    requires xy == x + y && id < hi && f.id == id && ChunkOk(xy, id, hi, outer) && EndPending(xy, id)
    requires f.kind == IfKind(false) ==> DeclaredBy(xy, |xy|, Name(id, Else))
    requires dead ==> y != [] && Terminator(y[|y| - 1])
    ensures ChunkOk(xy + EndOut(f, dead), id, hi, outer)
  {
    CloserFacts(f, dead);
    assert dead ==> xy[|xy| - 1] == y[|y| - 1];
    hide EndOut, ChunkOk, DeclaredBy;
    Close(xy, EndOut(f, dead), id, hi, outer);
  }

  lemma {:induction false} BlockChunk(c: Conv, ctx: Ctx, i: Instr, opds: seq<Ty>)
    requires InStep(c, ctx, opds) && i.Block? && !CheckInstr(ctx, i, opds).Invalid? && FramesBelow(c.frames, c.nextId)
    ensures var e := ConvertInstr(c, i); e.Ok? && ChunkOk(e.out, c.nextId, e.conv.nextId, FrameNames(c.frames))
    decreases i.body, 2
  {
    hide ChunkOk, CheckInstr, ConvertInstr, InStep, EndPending;
    NamesBelow(c.frames, c.nextId);
    var st := BlockOk(c, ctx, i, opds);
    OpenBlockChunk(c, i.bt, FrameNames(c.frames));
    PushedNames(c.frames, Frame(c.nextId, |c.stack|, Rets(i.bt), BlockKind(false)), c.nextId);
    BodyAndEnd(st.opening, st, c, ctx, opds, Lab(false, Rets(i.bt), |opds|), i.body, ConvertInstr(c, i), c.nextId,
               FrameNames(c.frames));
  }

  lemma {:induction false} IfThenChunk(c: Conv, ctx: Ctx, i: Instr, opds: seq<Ty>)
    requires InStep(c, ctx, opds) && i.IfThen? && !CheckInstr(ctx, i, opds).Invalid? && FramesBelow(c.frames, c.nextId)
    ensures var e := ConvertInstr(c, i); e.Ok? && ChunkOk(e.out, c.nextId, e.conv.nextId, FrameNames(c.frames))
    decreases i.thn, 2
  {
    hide ChunkOk, ConvertInstr, InStep, EndPending, CheckCode, DeclaredBy;
    NamesBelow(c.frames, c.nextId);
    var st := IfThenOk(c, ctx, i, opds);
    var c0 := Popped1(c, ctx, opds);
    OpenIfChunk(c0, i.bt, FrameNames(c.frames));
    PushedNames(c.frames, Frame(c.nextId, |c0.stack|, Rets(i.bt), IfKind(false)), c.nextId);
    BodyAndEnd(st.opening, st, c0, ctx, PopTop(opds, 1), Lab(false, Rets(i.bt), |opds| - 1), i.thn, ConvertInstr(c, i),
               c.nextId, FrameNames(c.frames));
  }

  lemma {:induction false} LoopChunk(c: Conv, ctx: Ctx, i: Instr, opds: seq<Ty>)
    requires InStep(c, ctx, opds) && i.Loop? && !CheckInstr(ctx, i, opds).Invalid? && FramesBelow(c.frames, c.nextId)
    ensures var e := ConvertInstr(c, i); e.Ok? && ChunkOk(e.out, c.nextId, e.conv.nextId, FrameNames(c.frames))
    decreases i.body, 2
  {
    hide CheckCode, ConvertCode;
    hide EndOut, FramesGrown;
    hide ChunkOk, CheckInstr, ConvertInstr, InStep, EndPending;
    NamesBelow(c.frames, c.nextId);
    var id, outer, l := c.nextId, FrameNames(c.frames), Lab(true, Rets(i.bt), |opds|);
    var st := LoopOk(c, ctx, i, opds);
    StageFrame(st, c, ctx, opds, l, i.body, ConvertInstr(c, i));
    OpenLoopChunk(c, i.bt, outer);
    PushedNames(c.frames, Frame(id, |c.stack|, Rets(i.bt), LoopKind), id);
    CodeChunk(st.open, ctx.Push(l), i.body, opds);
    LoopBodyChunk(c, i.bt, st.body, id, st.inner.nextId, outer);
    CloseEnd(st.opening + st.body, st.inner.frames[|c.frames|], st.dead, id, st.inner.nextId, outer, st.opening,
      st.body);
  }

  lemma LoopBodyChunk(c: Conv, bt: BlockType, body: seq<Op>, id: nat, hi: nat, outer: set<Name>)
    requires id == c.nextId < hi && OuterBelow(outer, id)
    requires ChunkOk(body, id + 1, hi, outer + {Name(id, Header)})
    ensures ChunkOk(OpenLoop(c, bt).out + body, id, hi, outer) && EndPending(OpenLoop(c, bt).out + body, id)
  {
    hide FreshElse, KnownCounts, BackEdges, OneCaller, DeclaredFirst;
    var x := OpenLoop(c, bt).out;
    OpenLoopChunk(c, bt, outer);
    AddLoopBody(x, body, id, hi, outer);
    PendingAfter(x, body, id, id + 1, hi);
  }

  lemma {:induction false} IfElseChunk(c: Conv, ctx: Ctx, i: Instr, opds: seq<Ty>)
    requires InStep(c, ctx, opds) && i.IfElse? && !CheckInstr(ctx, i, opds).Invalid? && FramesBelow(c.frames, c.nextId)
    ensures var e := ConvertInstr(c, i); e.Ok? && ChunkOk(e.out, c.nextId, e.conv.nextId, FrameNames(c.frames))
    decreases i, 0
  {
    hide ChunkOk, ConvertInstr, InStep, EndPending, CheckCode, DeclaredBy, After, FramesGrown, EndOut, OuterBelow,
      ElseOut;
    InStepFacts(c, ctx, opds);
    NamesBelow(c.frames, c.nextId);
    var open, inner, thn, dead, st := IfElseOk(c, ctx, i, opds);
    var o := PopTop(opds, 1);
    var l := Lab(false, Rets(i.bt), |o|);
    var c0 := Popped1(c, ctx, opds);
    AfterGrown(open, inner, ctx.Push(l), o, CheckCode(ctx.Push(l), i.thn, o));
    IfElseFrameIds(c, c0, ctx, o, l, i, open, inner, st);
    PushedNames(c.frames, Frame(c.nextId, |c0.stack|, Rets(i.bt), IfKind(false)), c.nextId);
    ThenChunk(c0, open, inner, thn, dead, ctx.Push(l), i, o);
    ElseFrames(c, open, inner, st.open, c.nextId);
    BodyAndEnd(st.opening, st, c.(frames := inner.frames[..|c.frames|]), ctx, o, l, i.els, ConvertInstr(c, i), c.nextId,
               FrameNames(c.frames));
  }

  /** The `then` side up to the `else` label. */
  lemma {:induction false} ThenChunk(c: Conv, open: Conv, inner: Conv, thn: seq<Op>, dead: bool, ctx: Ctx, i: Instr,
                                     opds: seq<Ty>)
    requires i.IfElse? && open == OpenIf(c, i.bt).conv && InStep(open, ctx, opds) &&
      OuterBelow(FrameNames(c.frames), c.nextId)
    requires !CheckCode(ctx, i.thn, opds).Invalid? && dead == CheckCode(ctx, i.thn, opds).Dead?
    requires ConvertCode(open, i.thn) == Ok(inner, thn) && After(open, inner, ctx, opds, CheckCode(ctx, i.thn, opds))
    requires FrameNames(open.frames) == FrameNames(c.frames) + {Name(c.nextId, End)} &&
      FramesBelow(open.frames, open.nextId)
    requires |inner.frames| == |c.frames| + 1 && inner.frames[|c.frames|].id == c.nextId
    ensures var x := OpenIf(c, i.bt).out + thn + ElseOut(inner.frames[|c.frames|], dead);
      ChunkOk(x, c.nextId, inner.nextId, FrameNames(c.frames)) && EndPending(x, c.nextId)
    decreases i.thn, 1
  {
    hide ChunkOk, InStep, EndPending, CheckCode, ConvertCode, DeclaredBy, FramesGrown, ElseOut, OuterBelow;
    var id, outer := c.nextId, FrameNames(c.frames);
    var a := OpenIf(c, i.bt).out;
    OpenIfChunk(c, i.bt, outer);
    CodeChunk(open, ctx, i.thn, opds);
    WithBody(a, thn, id, id + 1, inner.nextId, outer);
    DeclaredStill(a, thn, Name(id, Else));
    CloseElse(a + thn, inner.frames[|c.frames|], dead, id, inner.nextId, outer, a, thn);
  }

  lemma CloseElse(xy: seq<Op>, f: Frame, dead: bool, id: nat, hi: nat, outer: set<Name>, x: seq<Op>, y: seq<Op>)
    requires xy == x + y && id < hi && f.id == id && ChunkOk(xy, id, hi, outer) && EndPending(xy, id)
    requires DeclaredBy(xy, |xy|, Name(id, Else))
    requires dead ==> y != [] && Terminator(y[|y| - 1])
    ensures ChunkOk(xy + ElseOut(f, dead), id, hi, outer) && EndPending(xy + ElseOut(f, dead), id)
  {
    hide ChunkOk;
    ElseFacts(f, dead);
    assert dead ==> xy[|xy| - 1] == y[|y| - 1];
    DeclaredStill(xy, ElseOut(f, dead), Name(id, End));
    Close(xy, ElseOut(f, dead), id, hi, outer);
  }

  lemma ElseFrames(c: Conv, open: Conv, inner: Conv, els: Conv, id: nat)
    requires FramesGrown(open.frames, inner.frames) && FramesBelow(open.frames, id + 1) && id < inner.nextId
    requires |open.frames| > 0 && open.frames[|open.frames| - 1].kind.IfKind?
    requires els.frames == inner.frames[|inner.frames| - 1 := inner.frames[|inner.frames| - 1].(kind := IfKind(true))]
    ensures FrameNames(els.frames) == FrameNames(open.frames) && FramesBelow(els.frames, inner.nextId)
  {
    forall j | 0 <= j < |open.frames|
      ensures els.frames[j].BrTarget() == open.frames[j].BrTarget() && els.frames[j].id == open.frames[j].id
    {
      assert Grown(open.frames[j], inner.frames[j]);
    }
  }

  // ---------------------------------------------------------------- whole streams

  /** What the block driver relies on. */
  ghost predicate WellFormed(ops: seq<Op>) {
    && Unique(ops)
    && DeclaredFirst(ops, {})
    && BackEdges(ops)
    && OneCaller(ops)
    && Guarded(false, ops)
    && FreshElse(ops) && KnownCounts(ops)
  }

  /** Every stream the converter emits for a valid body is well formed. */
  lemma StreamWellFormed(f: Func, rule: LoopRule)
    requires ValidFunc(f, rule)
    ensures Compile(f).Some? && WellFormed(Compile(f).value.ops)
  {
    var p, body, dead := CompileOk(f, rule);
    InitInStep(f, rule);
    assert FrameNames(Init(f).frames) == {};
    CodeChunk(Init(f), FuncCtx(f, rule), f.body, []);
    hide ConvertCode, CheckCode, ChunkOk;
    var hi := ConvertCode(Init(f), f.body).conv.nextId;
    CodeOk(Init(f), FuncCtx(f, rule), f.body, []);
    var consts := LocalConsts(f.locals);
    var last := if dead then [] else [MBr(ToReturn)];
    PlainChunk(consts, 1, 1, {});
    PlainChunk(last, hi, hi, {});
    Siblings(body, last, 1, hi, hi, {});
    Siblings(consts, body + last, 1, 1, hi, {});
    FromChunk(p.ops, 1, hi);
  }

  lemma FromChunk(ops: seq<Op>, lo: nat, hi: nat)
    requires ChunkOk(ops, lo, hi, {}) && Unique(ops)
    ensures WellFormed(ops)
  {
  }

  lemma SameDecl(ops: seq<Op>, j: nat, d: nat)
    requires Unique(ops) && j < |ops| && d < |ops|
    requires ops[j].MBlock? && Declares(ops[d], ops[j].name)
    ensures d == j
  {
    assert d < j ==> Distinct(ops[d], ops[j]);
    assert j < d ==> Distinct(ops[j], ops[d]);
  }

  /** A block declared without backward callers is never branched to after its label. */
  lemma ForwardOnly(ops: seq<Op>, j: nat, q: nat, i: nat)
    requires WellFormed(ops) && j < |ops| && q < |ops| && i < |ops|
    requires ops[j].MBlock? && !ops[j].backwards && ops[q] == MLabel(ops[j].name) && Calls(ops[i], ops[j].name)
    ensures i < q
  {
    if q <= i {
      assert LoopRegion(ops, q, i);
      var d :| 0 <= d < q && d < |ops| && Declares(ops[d], ops[q].name) && ops[d].backwards;
      SameDecl(ops, j, d);
    }
  }
}
