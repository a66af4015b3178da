/** The initial VMContext image: three loops write signature ids, table sizes and global constants
    into one zeroed byte buffer, relying on the layout for not disturbing each other. */
module VmImage {
  import opened Microwasm
  import opened Bytes
  import opened VmOffsets

  // ---------------------------------------------------------------- sequences of writes

  ghost predicate AllFit(ws: seq<Write>, size: nat) {
    forall i :: 0 <= i < |ws| ==> Fits(ws[i], size)
  }

  /** The writes in order. */
  ghost function Apply(out: seq<Byte>, ws: seq<Write>): (r: seq<Byte>)
    requires AllFit(ws, |out|)
    ensures |r| == |out|
  {
    if ws == [] then out else Put(Apply(out, ws[..|ws| - 1]), ws[|ws| - 1])
  }

  ghost predicate AllApart(ws: seq<Write>) {
    forall i, j {:trigger WritesApart(ws[i], ws[j])} :: 0 <= i < j < |ws| ==> WritesApart(ws[i], ws[j])
  }

  /** No later write disturbs an earlier one. */
  lemma {:induction false} ReadBack(out: seq<Byte>, ws: seq<Write>, i: nat)
    requires AllFit(ws, |out|) && AllApart(ws) && i < |ws|
    ensures Holds(Apply(out, ws), ws[i])
    decreases |ws|
  {
    var n := |ws| - 1;
    var front := ws[..n];
    assert AllApart(front) by {
      forall a, b | 0 <= a < b < |front|
        ensures WritesApart(front[a], front[b])
      {
        assert WritesApart(ws[a], ws[b]);
      }
    }
    if i == n {
      PutHolds(Apply(out, front), ws[n]);
    } else {
      ReadBack(out, front, i);
      assert WritesApart(ws[i], ws[n]);
      PutKeeps(Apply(out, front), ws[i], ws[n]);
    }
  }

  // ---------------------------------------------------------------- signature ids

  /** A function signature: codes of its parameter and result types. */
  datatype Signature = Signature(params: seq<nat>, results: seq<nat>)

  /** The distinct elements in order of first occurrence. */
  function Distinct(s: seq<Signature>): (d: seq<Signature>)
    ensures forall x :: x in d <==> x in s
  {
    if s == [] then [] else
    var d, x := Distinct(s[..|s| - 1]), s[|s| - 1];
    assert s == s[..|s| - 1] + [x];
    if x in d then d else d + [x]
  }

  function IndexOf(d: seq<Signature>, x: Signature): (i: nat)
    ensures i <= |d| && (x in d <==> i < |d|) && (i < |d| ==> d[i] == x)
    ensures forall j :: 0 <= j < i ==> d[j] != x
  {
    if d == [] then 0 else if d[0] == x then 0 else 1 + IndexOf(d[1..], x)
  }

  function Id(sigs: seq<Signature>, i: nat): nat
    requires i < |sigs|
  {
    IndexOf(Distinct(sigs), sigs[i])
  }

  /** Two signatures get the same id exactly when they are equal. */
  lemma IdsSeparate(sigs: seq<Signature>, i: nat, j: nat)
    requires i < |sigs| && j < |sigs|
    ensures Id(sigs, i) == Id(sigs, j) <==> sigs[i] == sigs[j]
  {
    assert sigs[i] in Distinct(sigs) && sigs[j] in Distinct(sigs);
  }

  lemma IndexStable(d: seq<Signature>, y: Signature, x: Signature)
    requires x in d
    ensures IndexOf(d + [y], x) == IndexOf(d, x)
  {
    var i := IndexOf(d, x);
    assert (d + [y])[i] == x;
    assert forall j :: 0 <= j < i ==> (d + [y])[j] == d[j];
  }

  /** Extending the list does not renumber what was seen before. */
  lemma {:induction false} IdStable(sigs: seq<Signature>, k: nat, x: Signature)
    requires k <= |sigs| && x in Distinct(sigs[..k])
    ensures IndexOf(Distinct(sigs), x) == IndexOf(Distinct(sigs[..k]), x)
    decreases |sigs| - k
  {
    if k < |sigs| {
      var d, y := Distinct(sigs[..k]), sigs[k];
      assert sigs[..k + 1][..k] == sigs[..k] && sigs[..k + 1][k] == y;
      if y !in d {
        IndexStable(d, y, x);
      }
      IdStable(sigs, k + 1, x);
    } else {
      assert sigs[..k] == sigs;
    }
  }

  lemma IndexNew(d: seq<Signature>, x: Signature)
    requires x !in d
    ensures IndexOf(d + [x], x) == |d|
  {
    var i := IndexOf(d + [x], x);
    assert (d + [x])[|d|] == x;
    assert forall j :: 0 <= j < |d| ==> (d + [x])[j] == d[j] != x;
  }

  /** Ids are dense in order of first occurrence: a new signature gets the number of different
      signatures before it. */
  lemma IdsDense(sigs: seq<Signature>, i: nat)
    requires i < |sigs| && sigs[i] !in sigs[..i]
    ensures Id(sigs, i) == |Distinct(sigs[..i])|
  {
    var d, x := Distinct(sigs[..i]), sigs[i];
    assert sigs[..i + 1][..i] == sigs[..i] && sigs[..i + 1][i] == x;
    assert Distinct(sigs[..i + 1]) == d + [x];
    IndexNew(d, x);
    IdStable(sigs, i + 1, x);
  }

  // ---------------------------------------------------------------- modules

  type Bits32 = n: nat | n < U32

  type Bits64 = n: nat | n < 0x1_0000_0000_0000_0000

  datatype Init =
    | I32Const(word: Bits32) | I64Const(long: Bits64) | F32Const(single: Bits32) | F64Const(double: Bits64)
    | Unsupported

  /** `tables`, given by their minimum sizes, and `globals` list the imported ones first. */
  datatype Module = Module(
    pointerSize: nat, signatures: seq<Signature>, importedFunctions: nat,
    tables: seq<Bits32>, importedTables: nat, memories: nat, importedMemories: nat,
    globals: seq<Init>, importedGlobals: nat)
  {
    predicate Wf() {
      importedTables <= |tables| && importedGlobals <= |globals| && Layout().Wf() && !AlignWraps(Layout())
    }
    function Layout(): Offsets {
      Offsets(pointerSize, |signatures|, importedFunctions, importedTables, importedMemories, importedGlobals,
              |tables|, memories, |globals|)
    }
    function DefinedTables(): nat
      requires Wf()
    {
      |tables| - importedTables
    }
    function DefinedGlobals(): nat
      requires Wf()
    {
      |globals| - importedGlobals
    }
  }

  function InitBytes(i: Init): (s: seq<Byte>)
    ensures |s| <= 8
  {
    match i
    case I32Const(b) => Encode(b, 4)
    case F32Const(b) => Encode(b, 4)
    case I64Const(b) => Encode(b, 8)
    case F64Const(b) => Encode(b, 8)
    case Unsupported => []
  }

  ghost predicate Supported(m: Module)
    requires m.Wf()
  {
    forall g :: m.importedGlobals <= g < |m.globals| ==> m.globals[g] != Unsupported
  }

  function OffsetAt(o: Offsets, k: Kind, i: nat): nat
    requires i < o.Count(k)
  {
    var r := Offset(o, k, i);
    if r.Some? then r.value else 0
  }

  function SignatureWrite(m: Module, i: nat): Write
    requires m.Wf() && i < |m.signatures|
  {
    Write(OffsetAt(m.Layout(), SignatureId, i), Encode(Id(m.signatures, i), 4))
  }

  /** `vmtable_definition_current_elements`. */
  function CurrentElements(o: Offsets): nat {
    FieldsOf(o, TableDefinition)[1].at
  }

  function TableWrite(m: Module, t: nat): Write
    requires m.Wf() && t < m.DefinedTables()
  {
    Write(OffsetAt(m.Layout(), TableDefinition, t) + CurrentElements(m.Layout()),
          Encode(m.tables[m.importedTables + t], 4))
  }

  function GlobalWrite(m: Module, g: nat): Write
    requires m.Wf() && g < m.DefinedGlobals()
  {
    Write(OffsetAt(m.Layout(), GlobalDefinition, g), InitBytes(m.globals[m.importedGlobals + g]))
  }

  function WriteCount(m: Module): nat
    requires m.Wf()
  {
    |m.signatures| + m.DefinedTables() + m.DefinedGlobals()
  }

  /** The writes of the three loops as one list. */
  function NthWrite(m: Module, n: nat): Write
    requires m.Wf() && n < WriteCount(m)
  {
    var s, t := |m.signatures|, m.DefinedTables();
    if n < s then SignatureWrite(m, n)
    else if n < s + t then TableWrite(m, n - s)
    else GlobalWrite(m, n - s - t)
  }

  ghost function Writes(m: Module, count: nat): (ws: seq<Write>)
    requires m.Wf() && count <= WriteCount(m)
    ensures |ws| == count && forall i :: 0 <= i < count ==> ws[i] == NthWrite(m, i)
  {
    seq(count, i requires 0 <= i < count => NthWrite(m, i))
  }

  /** The entry a write belongs to. */
  function EntryOf(m: Module, n: nat): (e: (Kind, nat))
    requires m.Wf() && n < WriteCount(m)
    ensures e.1 < m.Layout().Count(e.0)
  {
    var s, t := |m.signatures|, m.DefinedTables();
    if n < s then (SignatureId, n)
    else if n < s + t then (TableDefinition, n - s)
    else (GlobalDefinition, n - s - t)
  }

  lemma WithinEntry(m: Module, n: nat)
    requires m.Wf() && SizeOf(m.Layout()).Some? && n < WriteCount(m)
    ensures var w, e, o := NthWrite(m, n), EntryOf(m, n), m.Layout();
            && Offset(o, e.0, e.1).Some?
            && Offset(o, e.0, e.1).value <= w.at && w.at + |w.bytes| <= Offset(o, e.0, e.1).value + o.Size(e.0)
            && Fits(w, SizeOf(o).value)
  {
    var e := EntryOf(m, n);
    EntryInside(m.Layout(), e.0, e.1);
    hide Offset, SizeOf, AlignWraps, Id, Encode;
  }

  lemma NthWritesApart(m: Module, a: nat, b: nat)
    requires m.Wf() && SizeOf(m.Layout()).Some? && a < b < WriteCount(m)
    ensures WritesApart(NthWrite(m, a), NthWrite(m, b))
  {
    WithinEntry(m, a);
    WithinEntry(m, b);
    var e, f := EntryOf(m, a), EntryOf(m, b);
    assert e.0 != f.0 || e.1 != f.1;
    EntriesDisjoint(m.Layout(), e.0, e.1, f.0, f.1);
    hide Offset, SizeOf, AlignWraps, NthWrite;
  }

  lemma AllWritesFit(m: Module, count: nat)
    requires m.Wf() && SizeOf(m.Layout()).Some? && count <= WriteCount(m)
    ensures AllFit(Writes(m, count), SizeOf(m.Layout()).value) && AllApart(Writes(m, count))
  {
    hide NthWrite, SizeOf, AlignWraps;
    var ws := Writes(m, count);
    forall n | 0 <= n < count
      ensures Fits(ws[n], SizeOf(m.Layout()).value)
    {
      WithinEntry(m, n);
    }
    forall a, b | 0 <= a < b < count
      ensures WritesApart(ws[a], ws[b])
    {
      NthWritesApart(m, a, b);
    }
  }

  function Zeros(n: nat): (s: seq<Byte>)
    ensures |s| == n
  {
    seq(n, _ => 0)
  }

  ghost function Image(m: Module, count: nat): (r: seq<Byte>)
    requires m.Wf() && SizeOf(m.Layout()).Some? && count <= WriteCount(m)
  {
    AllWritesFit(m, count);
    Apply(Zeros(SizeOf(m.Layout()).value), Writes(m, count))
  }

  lemma ImageNext(m: Module, n: nat)
    requires m.Wf() && SizeOf(m.Layout()).Some? && n < WriteCount(m)
    ensures |Image(m, n)| == SizeOf(m.Layout()).value && Fits(NthWrite(m, n), |Image(m, n)|)
    ensures Image(m, n + 1) == Put(Image(m, n), NthWrite(m, n))
  {
    hide NthWrite, SizeOf, AlignWraps;
    AllWritesFit(m, n);
    AllWritesFit(m, n + 1);
    assert Writes(m, n + 1)[..n] == Writes(m, n);
    assert Fits(Writes(m, n + 1)[n], SizeOf(m.Layout()).value);
  }

  /** Once made, a write can be read back at any later time. */
  lemma ImageHolds(m: Module, count: nat, n: nat)
    requires m.Wf() && SizeOf(m.Layout()).Some? && n < count <= WriteCount(m)
    ensures Holds(Image(m, count), NthWrite(m, n))
  {
    hide NthWrite, SizeOf, AlignWraps, Apply;
    AllWritesFit(m, count);
    ReadBack(Zeros(SizeOf(m.Layout()).value), Writes(m, count), n);
  }

  // ---------------------------------------------------------------- what a reader of the image finds

  /** The `n` bytes at an offset, as a number. */
  ghost predicate Reads(bytes: seq<Byte>, at: nat, n: nat, value: nat) {
    at + n <= |bytes| && Decode(bytes[at..at + n]) == value
  }

  /** The slot of a signature holds its id. */
  ghost predicate SignatureReads(m: Module, bytes: seq<Byte>, i: nat)
    requires m.Wf() && i < |m.signatures|
  {
    Reads(bytes, OffsetAt(m.Layout(), SignatureId, i), 4, Id(m.signatures, i))
  }

  /** The second member of a table definition holds the table's minimum size. */
  ghost predicate TableReads(m: Module, bytes: seq<Byte>, t: nat)
    requires m.Wf() && t < m.DefinedTables()
  {
    Reads(bytes, OffsetAt(m.Layout(), TableDefinition, t) + MemberAt(m.Layout(), MembersOf(TableDefinition), 1), 4,
          m.tables[m.importedTables + t])
  }

  /** The storage of a global starts with its constant, four or eight bytes wide by its type. */
  ghost predicate GlobalReads(m: Module, bytes: seq<Byte>, g: nat)
    requires m.Wf() && g < m.DefinedGlobals()
  {
    var at := OffsetAt(m.Layout(), GlobalDefinition, g);
    match m.globals[m.importedGlobals + g]
    case I32Const(b) => Reads(bytes, at, 4, b)
    case F32Const(b) => Reads(bytes, at, 4, b)
    case I64Const(b) => Reads(bytes, at, 8, b)
    case F64Const(b) => Reads(bytes, at, 8, b)
    case Unsupported => false
  }

  ghost predicate TablesRead(m: Module, bytes: seq<Byte>)
    requires m.Wf()
  {
    forall t :: 0 <= t < m.DefinedTables() ==> TableReads(m, bytes, t)
  }

  ghost predicate GlobalsRead(m: Module, bytes: seq<Byte>)
    requires m.Wf()
  {
    forall g :: 0 <= g < m.DefinedGlobals() ==> GlobalReads(m, bytes, g)
  }

  lemma HoldsReads(bytes: seq<Byte>, at: nat, v: nat, n: nat)
    requires Holds(bytes, Write(at, Encode(v, n))) && v < Power(n)
    ensures Reads(bytes, at, n, v)
  {
    RoundTrip(v, n);
  }

  lemma Widths()
    ensures Power(4) == U32 && Power(8) == 0x1_0000_0000_0000_0000
  {
    assert Power(1) == 256 && Power(2) == 0x1_0000 && Power(3) == 0x100_0000;
    assert Power(5) == 0x100_0000_0000 && Power(6) == 0x1_0000_0000_0000;
  }

  lemma {:induction false} DistinctSmaller(s: seq<Signature>)
    ensures |Distinct(s)| <= |s|
    decreases |s|
  {
    if s != [] {
      DistinctSmaller(s[..|s| - 1]);
    }
  }

  lemma SignatureIsRead(m: Module, count: nat, i: nat)
    requires m.Wf() && SizeOf(m.Layout()).Some? && i < |m.signatures| <= count <= WriteCount(m)
    ensures SignatureReads(m, Image(m, count), i)
  {
    hide SizeOf, AlignWraps, Offset, Image, Holds, Reads, Power, Encode, Distinct;
    Widths();
    ImageHolds(m, count, i);
    DistinctSmaller(m.signatures);
    assert m.signatures[i] in Distinct(m.signatures);
    HoldsReads(Image(m, count), SignatureWrite(m, i).at, Id(m.signatures, i), 4);
  }

  lemma ElementsAt(o: Offsets)
    requires o.Wf()
    ensures CurrentElements(o) == MemberAt(o, MembersOf(TableDefinition), 1)
  {
    AsDeclared(o, TableDefinition);
  }

  lemma TableIsRead(m: Module, count: nat, t: nat)
    requires m.Wf() && SizeOf(m.Layout()).Some? && t < m.DefinedTables() && |m.signatures| + t < count <= WriteCount(m)
    ensures TableReads(m, Image(m, count), t)
  {
    hide SizeOf, AlignWraps, OffsetAt, Image, Holds, Reads, Power, Encode, Id, MemberAt, CurrentElements;
    Widths();
    ElementsAt(m.Layout());
    ImageHolds(m, count, |m.signatures| + t);
    HoldsReads(Image(m, count), TableWrite(m, t).at, m.tables[m.importedTables + t], 4);
  }

  lemma TablesAreRead(m: Module, count: nat)
    requires m.Wf() && SizeOf(m.Layout()).Some? && |m.signatures| + m.DefinedTables() <= count <= WriteCount(m)
    ensures TablesRead(m, Image(m, count))
  {
    hide SizeOf, AlignWraps, Image, TableReads;
    forall t | 0 <= t < m.DefinedTables()
      ensures TableReads(m, Image(m, count), t)
    {
      TableIsRead(m, count, t);
    }
  }

  lemma GlobalsAreRead(m: Module)
    requires m.Wf() && SizeOf(m.Layout()).Some? && Supported(m)
    ensures GlobalsRead(m, Image(m, WriteCount(m)))
  {
    hide SizeOf, AlignWraps, Offset, Image, Holds, Reads, Power, Encode, Id;
    Widths();
    var image := Image(m, WriteCount(m));
    forall g | 0 <= g < m.DefinedGlobals()
      ensures GlobalReads(m, image, g)
    {
      ImageHolds(m, WriteCount(m), |m.signatures| + m.DefinedTables() + g);
      var at := GlobalWrite(m, g).at;
      match m.globals[m.importedGlobals + g]
      case I32Const(b) => HoldsReads(image, at, b, 4);
      case F32Const(b) => HoldsReads(image, at, b, 4);
      case I64Const(b) => HoldsReads(image, at, b, 8);
      case F64Const(b) => HoldsReads(image, at, b, 8);
    }
  }

  // ---------------------------------------------------------------- the writer

  datatype Relocation = Relocation(index: nat, offset: nat)

  datatype VmContext = VmContext(bytes: seq<Byte>, relocations: seq<Relocation>)

  /** A write through the raw pointer. */
  method WriteTo(out: array<Byte>, at: nat, bytes: seq<Byte>)
    requires at + |bytes| <= out.Length
    modifies out
    ensures out[..] == Put(old(out[..]), Write(at, bytes))
  {
    for k := 0 to |bytes|
      invariant forall p :: 0 <= p < out.Length ==> out[p] == if at <= p < at + k then bytes[p - at] else old(out[p])
    {
      out[at + k] := bytes[k];
    }
  }

  /** What the image promises about signatures, tables and globals. */
  ghost predicate ContextOk(m: Module, c: VmContext)
    requires m.Wf() && SizeOf(m.Layout()).Some?
  {
    && |c.bytes| == SizeOf(m.Layout()).value
    && c.bytes == Image(m, WriteCount(m))
    && (forall i :: 0 <= i < |m.signatures| ==> SignatureReads(m, c.bytes, i))
    && TablesRead(m, c.bytes) && GlobalsRead(m, c.bytes)
    && |c.relocations| == m.DefinedTables()
    && (forall t :: 0 <= t < m.DefinedTables() ==>
          c.relocations[t] == Relocation(t, OffsetAt(m.Layout(), TableDefinition, t)))
  }

  /** `layout_vmcontext`.  An overflowing layout or an unsupported initialiser is a panic. */
  method LayoutContext(m: Module) returns (r: Option<VmContext>)
    requires m.Wf()
    ensures r.Some? <==> SizeOf(m.Layout()).Some? && Supported(m)
    ensures r.Some? ==> ContextOk(m, r.value)
  {
    hide SizeOf, Offset, AlignWraps, Image, NthWrite, Put, Encode, Id, TablesRead, GlobalsRead;
    var o := m.Layout();
    if SizeOf(o).None? {
      return None;
    }
    var out := new Byte[SizeOf(o).value](_ => 0);
    assert out[..] == Zeros(SizeOf(o).value);
    ImageStart(m);
    WriteSignatures(m, out);
    var relocations := WriteTables(m, out);
    var ok := WriteGlobals(m, out);
    if !ok {
      return None;
    }
    ImageDone(m, relocations);
    return Some(VmContext(out[..], relocations));
  }

  lemma ImageStart(m: Module)
    requires m.Wf() && SizeOf(m.Layout()).Some?
    ensures Image(m, 0) == Zeros(SizeOf(m.Layout()).value)
  {
  }

  lemma ImageDone(m: Module, relocations: seq<Relocation>)
    requires m.Wf() && SizeOf(m.Layout()).Some? && Supported(m) && |relocations| == m.DefinedTables()
    requires forall t :: 0 <= t < m.DefinedTables() ==>
      relocations[t] == Relocation(t, OffsetAt(m.Layout(), TableDefinition, t))
    ensures ContextOk(m, VmContext(Image(m, WriteCount(m)), relocations))
  {
    hide SizeOf, AlignWraps, Image, TablesRead, GlobalsRead, SignatureReads;
    ImageSize(m);
    forall i | 0 <= i < |m.signatures|
      ensures SignatureReads(m, Image(m, WriteCount(m)), i)
    {
      SignatureIsRead(m, WriteCount(m), i);
    }
    TablesAreRead(m, WriteCount(m));
    GlobalsAreRead(m);
  }

  lemma ImageSize(m: Module)
    requires m.Wf() && SizeOf(m.Layout()).Some?
    ensures |Image(m, WriteCount(m))| == SizeOf(m.Layout()).value
  {
    hide SizeOf, AlignWraps, NthWrite;
  }

  /** Interns the signatures and writes their ids. */
  method WriteSignatures(m: Module, out: array<Byte>)
    requires m.Wf() && SizeOf(m.Layout()).Some? && out[..] == Image(m, 0)
    modifies out
    ensures out[..] == Image(m, |m.signatures|)
  {
    hide SizeOf, Offset, AlignWraps, Image, Put, Encode;
    var registry: map<Signature, nat> := map[];
    var len := 0;
    for i := 0 to |m.signatures|
      invariant out[..] == Image(m, i)
      invariant len == |Distinct(m.signatures[..i])|
      invariant forall x :: x in registry <==> x in Distinct(m.signatures[..i])
      invariant forall x :: x in registry ==> registry[x] == IndexOf(Distinct(m.signatures[..i]), x)
    {
      ImageNext(m, i);
      var sig := m.signatures[i];
      var at := OffsetAt(m.Layout(), SignatureId, i);
      Interned(m.signatures, i, registry, len);
      var id := if sig in registry then registry[sig] else len;
      if sig !in registry {
        registry := registry[sig := len];
        len := len + 1;
      }
      WriteTo(out, at, Encode(id, 4));
    }
  }

  lemma Interned(sigs: seq<Signature>, i: nat, registry: map<Signature, nat>, len: nat)
    requires i < |sigs| && len == |Distinct(sigs[..i])|
    requires forall x :: x in registry <==> x in Distinct(sigs[..i])
    requires forall x :: x in registry ==> registry[x] == IndexOf(Distinct(sigs[..i]), x)
    ensures Id(sigs, i) == if sigs[i] in registry then registry[sigs[i]] else len
    ensures var more := if sigs[i] in registry then registry else registry[sigs[i] := len];
            && |Distinct(sigs[..i + 1])| == (if sigs[i] in registry then len else len + 1)
            && (forall x :: x in more <==> x in Distinct(sigs[..i + 1]))
            && (forall x :: x in more ==> more[x] == IndexOf(Distinct(sigs[..i + 1]), x))
  {
    var d, y := Distinct(sigs[..i]), sigs[i];
    assert sigs[..i + 1][..i] == sigs[..i] && sigs[..i + 1][i] == y;
    if y in d {
      IdStable(sigs, i, y);
    } else {
      IdsDense(sigs, i);
      IndexNew(d, y);
      forall x | x in d
        ensures IndexOf(d + [y], x) == IndexOf(d, x)
      {
        IndexStable(d, y, x);
      }
    }
  }

  method WriteTables(m: Module, out: array<Byte>) returns (relocations: seq<Relocation>)
    requires m.Wf() && SizeOf(m.Layout()).Some? && out[..] == Image(m, |m.signatures|)
    modifies out
    ensures out[..] == Image(m, |m.signatures| + m.DefinedTables()) && |relocations| == m.DefinedTables()
    ensures TablesRead(m, out[..])
    ensures forall t :: 0 <= t < m.DefinedTables() ==>
      relocations[t] == Relocation(t, OffsetAt(m.Layout(), TableDefinition, t))
  {
    hide SizeOf, Offset, AlignWraps, Image, Put, Encode, Id, TablesRead;
    relocations := [];
    for t := 0 to m.DefinedTables()
      invariant out[..] == Image(m, |m.signatures| + t) && |relocations| == t
      invariant forall u :: 0 <= u < t ==> relocations[u] == Relocation(u, OffsetAt(m.Layout(), TableDefinition, u))
    {
      ImageNext(m, |m.signatures| + t);
      var at := OffsetAt(m.Layout(), TableDefinition, t);
      WriteTo(out, at + CurrentElements(m.Layout()), Encode(m.tables[m.importedTables + t], 4));
      relocations := relocations + [Relocation(t, at)];
    }
    TablesAreRead(m, |m.signatures| + m.DefinedTables());
  }

  method WriteGlobals(m: Module, out: array<Byte>) returns (ok: bool)
    requires m.Wf() && SizeOf(m.Layout()).Some? && out[..] == Image(m, |m.signatures| + m.DefinedTables())
    modifies out
    ensures ok <==> Supported(m)
    ensures ok ==> out[..] == Image(m, WriteCount(m)) && GlobalsRead(m, out[..])
  {
    hide SizeOf, Offset, AlignWraps, Image, Put, Encode, Id, InitBytes, GlobalsRead;
    var n := |m.signatures| + m.DefinedTables();
    for g := 0 to m.DefinedGlobals()
      invariant out[..] == Image(m, n + g)
      invariant forall h :: m.importedGlobals <= h < m.importedGlobals + g ==> m.globals[h] != Unsupported
    {
      var init := m.globals[m.importedGlobals + g];
      if init == Unsupported {
        return false;
      }
      ImageNext(m, n + g);
      WriteTo(out, OffsetAt(m.Layout(), GlobalDefinition, g), InitBytes(init));
    }
    GlobalsAreRead(m);
    return true;
  }

  // ---------------------------------------------------------------- reading the image

  predicate Outside(w: Write, p: nat) {
    p < w.at || w.at + |w.bytes| <= p
  }

  lemma {:induction false} ApplyOutside(out: seq<Byte>, ws: seq<Write>, p: nat)
    requires AllFit(ws, |out|) && p < |out| && forall i :: 0 <= i < |ws| ==> Outside(ws[i], p)
    ensures Apply(out, ws)[p] == out[p]
    decreases |ws|
  {
    if ws != [] {
      ApplyOutside(out, ws[..|ws| - 1], p);
    }
  }

  /** A byte that belongs to no signature id, table size or global constant is zero. */
  lemma RestIsZero(m: Module, c: VmContext, p: nat)
    requires m.Wf() && SizeOf(m.Layout()).Some? && ContextOk(m, c) && p < |c.bytes|
    requires forall n :: 0 <= n < WriteCount(m) ==> Outside(NthWrite(m, n), p)
    ensures c.bytes[p] == 0
  {
    hide SizeOf, AlignWraps, NthWrite, Apply;
    var size := SizeOf(m.Layout()).value;
    AllWritesFit(m, WriteCount(m));
    ApplyOutside(Zeros(size), Writes(m, WriteCount(m)), p);
  }

  /** At run time two signature slots compare equal exactly when the signatures are the same. */
  lemma SlotsSeparate(m: Module, c: VmContext, i: nat, j: nat, x: nat, y: nat)
    requires m.Wf() && SizeOf(m.Layout()).Some? && ContextOk(m, c) && i < |m.signatures| && j < |m.signatures|
    requires Reads(c.bytes, OffsetAt(m.Layout(), SignatureId, i), 4, x)
    requires Reads(c.bytes, OffsetAt(m.Layout(), SignatureId, j), 4, y)
    ensures x == y <==> m.signatures[i] == m.signatures[j]
  {
    hide SizeOf, AlignWraps, OffsetAt, Decode, TablesRead, GlobalsRead, Id, Image;
    assert SignatureReads(m, c.bytes, i) && SignatureReads(m, c.bytes, j);
    IdsSeparate(m.signatures, i, j);
  }
}
