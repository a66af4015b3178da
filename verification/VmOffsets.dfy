/** The layout of the VMContext: nine arrays one after the other, with checked 32-bit arithmetic
    everywhere except in the alignment of the global definitions. */
module VmOffsets {
  import opened Microwasm
  import opened Bytes

  const U32 := 0x1_0000_0000

  /** The arrays in address order. */
  datatype Kind =
    | SignatureId | FunctionImport | TableImport | MemoryImport | GlobalImport
    | TableDefinition | MemoryDefinition | GlobalDefinition | BuiltinFunction

  datatype Offsets = Offsets(
    pointerSize: nat, signatureIds: nat,
    importedFunctions: nat, importedTables: nat, importedMemories: nat, importedGlobals: nat,
    definedTables: nat, definedMemories: nat, definedGlobals: nat)
  {
    predicate Wf() {
      && (pointerSize == 4 || pointerSize == 8)
      && signatureIds < U32 && importedFunctions < U32 && importedTables < U32 && importedMemories < U32
      && importedGlobals < U32 && definedTables < U32 && definedMemories < U32 && definedGlobals < U32
    }

    function Count(k: Kind): nat {
      match k
      case SignatureId => signatureIds
      case FunctionImport => importedFunctions
      case TableImport => importedTables
      case MemoryImport => importedMemories
      case GlobalImport => importedGlobals
      case TableDefinition => definedTables
      case MemoryDefinition => definedMemories
      case GlobalDefinition => definedGlobals
      case BuiltinFunction => 4
    }

    function Size(k: Kind): nat {
      match k
      case SignatureId => 4
      case GlobalImport => pointerSize
      case GlobalDefinition => 16
      case BuiltinFunction => pointerSize
      case _ => 2 * pointerSize
    }
  }

  /** `checked_add(checked_mul(..))`; the caller unwraps. */
  function CheckedEnd(begin: Option<nat>, count: nat, size: nat): Option<nat> {
    if begin.None? || Extent(count, size) >= U32 || begin.value + Extent(count, size) >= U32 then None
    else Some(begin.value + Extent(count, size))
  }

  function Extent(count: nat, size: nat): nat {
    count * size
  }

  /** `align(offset, 16)`: the addition is not checked and wraps in a build without overflow checks. */
  function Align16(offset: nat): nat {
    (offset + 15) % U32 / 16 * 16
  }

  function Previous(k: Kind): Kind
    requires k != SignatureId
  {
    match k
    case FunctionImport => SignatureId
    case TableImport => FunctionImport
    case MemoryImport => TableImport
    case GlobalImport => MemoryImport
    case TableDefinition => GlobalImport
    case MemoryDefinition => TableDefinition
    case GlobalDefinition => MemoryDefinition
    case BuiltinFunction => GlobalDefinition
  }

  function Rank(k: Kind): nat {
    match k
    case SignatureId => 0
    case FunctionImport => 1
    case TableImport => 2
    case MemoryImport => 3
    case GlobalImport => 4
    case TableDefinition => 5
    case MemoryDefinition => 6
    case GlobalDefinition => 7
    case BuiltinFunction => 8
  }

  function Begin(o: Offsets, k: Kind): Option<nat>
    decreases Rank(k), 0
  {
    if k == SignatureId then Some(0) else
    var b := End(o, Previous(k));
    if k == GlobalDefinition && b.Some? then Some(Align16(b.value)) else b
  }

  function End(o: Offsets, k: Kind): Option<nat>
    decreases Rank(k), 1
  {
    CheckedEnd(Begin(o, k), o.Count(k), o.Size(k))
  }

  /** `size_of_vmctx`. */
  function SizeOf(o: Offsets): Option<nat> {
    End(o, BuiltinFunction)
  }

  /** The offset of one entry; the index is asserted to be in range. */
  function Offset(o: Offsets, k: Kind, i: nat): Option<nat>
    requires i < o.Count(k)
  {
    CheckedEnd(Begin(o, k), i, o.Size(k))
  }

  /** The unchecked addition overflows. */
  predicate AlignWraps(o: Offsets) {
    var e := End(o, MemoryDefinition);
    e.Some? && e.value + 15 >= U32
  }

  // ---------------------------------------------------------------- regions

  lemma AlignOk(x: nat)
    requires x < U32
    ensures Align16(x) % 16 == 0
    ensures x <= Align16(x) < x + 16 <==> x + 15 < U32
    ensures x + 15 >= U32 ==> Align16(x) == 0
  {
  }

  lemma {:induction false} BeginsSome(o: Offsets, k: Kind, l: Kind)
    requires Rank(k) <= Rank(l) && End(o, l).Some?
    ensures Begin(o, k).Some? && End(o, k).Some?
    decreases Rank(l)
  {
    if k != l {
      BeginsSome(o, k, Previous(l));
    }
  }

  /** Without a wrap the arrays follow each other. */
  lemma {:induction false} InOrder(o: Offsets, k: Kind, l: Kind)
    requires Rank(k) < Rank(l) && End(o, l).Some? && !AlignWraps(o)
    ensures Begin(o, k).Some? && End(o, k).Some? && Begin(o, l).Some?
    ensures End(o, k).value <= Begin(o, l).value
    decreases Rank(l)
  {
    hide Extent, Align16;
    var m := Previous(l);
    BeginsSome(o, m, l);
    BeginsSome(o, k, l);
    if l == GlobalDefinition {
      AlignOk(End(o, m).value);
    }
    if k != m {
      InOrder(o, k, m);
    }
  }

  lemma NextEntry(size: nat, i: nat)
    ensures Extent(i + 1, size) == Extent(i, size) + size
  {
  }

  lemma {:induction false} EntryEnds(size: nat, i: nat, j: nat)
    requires i < j
    ensures Extent(i, size) + size <= Extent(j, size)
    decreases j
  {
    hide Extent;
    NextEntry(size, j - 1);
    if i < j - 1 {
      EntryEnds(size, i, j - 1);
    }
  }

  /** Every entry has an offset, inside its array. */
  lemma OffsetInArray(o: Offsets, k: Kind, i: nat)
    requires SizeOf(o).Some? && i < o.Count(k)
    ensures Begin(o, k).Some? && End(o, k).Some? && Offset(o, k, i).Some?
    ensures Offset(o, k, i).value == Begin(o, k).value + Extent(i, o.Size(k))
    ensures Offset(o, k, i).value + o.Size(k) <= End(o, k).value
  {
    hide Extent, Begin;
    BeginsSome(o, k, BuiltinFunction);
    EntryEnds(o.Size(k), i, o.Count(k));
  }

  /** The layout without overflow: distinct entries are disjoint, whatever their kinds and indices. */
  lemma EntriesDisjoint(o: Offsets, k: Kind, i: nat, l: Kind, j: nat)
    requires SizeOf(o).Some? && !AlignWraps(o) && i < o.Count(k) && j < o.Count(l) && (k != l || i != j)
    ensures Offset(o, k, i).Some? && Offset(o, l, j).Some?
    ensures Apart(Offset(o, k, i).value, o.Size(k), Offset(o, l, j).value, o.Size(l))
  {
    OffsetInArray(o, k, i);
    OffsetInArray(o, l, j);
    BeginsSome(o, k, BuiltinFunction);
    BeginsSome(o, l, BuiltinFunction);
    hide Begin, End, Offset, SizeOf, Extent;
    if Rank(k) < Rank(l) {
      InOrder(o, k, l);
    } else if Rank(l) < Rank(k) {
      InOrder(o, l, k);
    } else if i < j {
      EntryEnds(o.Size(k), i, j);
    } else {
      EntryEnds(o.Size(k), j, i);
    }
  }

  /** Every entry lies inside the allocation. */
  lemma EntryInside(o: Offsets, k: Kind, i: nat)
    requires SizeOf(o).Some? && !AlignWraps(o) && i < o.Count(k)
    ensures Offset(o, k, i).Some? && Offset(o, k, i).value + o.Size(k) <= SizeOf(o).value
  {
    OffsetInArray(o, k, i);
    if k != BuiltinFunction {
      InOrder(o, k, BuiltinFunction);
    }
  }

  /** Global definitions are 16-byte aligned, wrapped or not. */
  lemma GlobalsAligned(o: Offsets, i: nat)
    requires SizeOf(o).Some? && i < o.definedGlobals
    ensures Offset(o, GlobalDefinition, i).Some? && Offset(o, GlobalDefinition, i).value % 16 == 0
  {
    hide Extent, Align16;
    OffsetInArray(o, GlobalDefinition, i);
    BeginsSome(o, MemoryDefinition, BuiltinFunction);
    AlignOk(End(o, MemoryDefinition).value);
    assert Begin(o, GlobalDefinition).value % 16 == 0;
    hide Begin, End, Offset, SizeOf;
    SixteenEach(i);
  }

  lemma SixteenEach(i: nat)
    ensures Extent(i, 16) == 16 * i
  {
  }

  // ---------------------------------------------------------------- exactly when

  predicate PairApart(o: Offsets, k: Kind, i: nat, l: Kind, j: nat) {
    i < o.Count(k) && j < o.Count(l) && (k != l || i != j) ==>
      Offset(o, k, i).Some? && Offset(o, l, j).Some? &&
      Apart(Offset(o, k, i).value, o.Size(k), Offset(o, l, j).value, o.Size(l))
  }

  /** Any two distinct entries are disjoint. */
  ghost predicate LayoutSound(o: Offsets) {
    forall k: Kind, i: nat, l: Kind, j: nat :: PairApart(o, k, i, l, j)
  }

  /** Some entry before the global definitions has offset 0 unless all those arrays are empty. */
  lemma {:induction false} FirstEntry(o: Offsets, k: Kind) returns (f: Kind)
    requires o.Wf() && Rank(k) < Rank(GlobalDefinition) && End(o, k).Some? && End(o, k).value > 0
    ensures Rank(f) <= Rank(k) && o.Count(f) > 0 && Begin(o, f) == Some(0)
    decreases Rank(k)
  {
    hide Extent;
    f := k;
    if Begin(o, k) != Some(0) {
      f := FirstEntry(o, Previous(k));
    } else if o.Count(k) == 0 {
      NoExtent(o.Size(k));
    }
  }

  lemma NoExtent(size: nat)
    ensures Extent(0, size) == 0
  {
  }

  /** The entries are pairwise disjoint exactly when the unchecked addition does not overflow. */
  lemma DisjointIff(o: Offsets)
    requires o.Wf() && SizeOf(o).Some?
    ensures LayoutSound(o) <==> !AlignWraps(o)
  {
    hide Begin, End, Extent, Offset, SizeOf;
    if !AlignWraps(o) {
      forall k: Kind, i: nat, l: Kind, j: nat
        ensures PairApart(o, k, i, l, j)
      {
        if i < o.Count(k) && j < o.Count(l) && (k != l || i != j) {
          EntriesDisjoint(o, k, i, l, j);
        }
      }
    } else {
      var f := FirstEntry(o, MemoryDefinition);
      var l := WrappedEntry(o);
      OffsetInArray(o, f, 0);
      OffsetInArray(o, l, 0);
      NoExtent(o.Size(f));
      NoExtent(o.Size(l));
      BothAtZero(o, f, l);
    }
  }

  lemma WrappedEntry(o: Offsets) returns (l: Kind)
    requires SizeOf(o).Some? && AlignWraps(o)
    ensures Rank(l) >= Rank(GlobalDefinition) && o.Count(l) > 0 && Begin(o, l) == Some(0)
  {
    hide Extent, Align16;
    BeginsSome(o, MemoryDefinition, BuiltinFunction);
    AlignOk(End(o, MemoryDefinition).value);
    assert Begin(o, GlobalDefinition) == Some(0);
    NoExtent(16);
    l := if o.definedGlobals > 0 then GlobalDefinition else BuiltinFunction;
  }

  lemma BothAtZero(o: Offsets, f: Kind, l: Kind)
    requires o.Wf() && SizeOf(o).Some? && f != l && o.Count(f) > 0 && o.Count(l) > 0
    requires Offset(o, f, 0) == Some(0) && Offset(o, l, 0) == Some(0)
    ensures !LayoutSound(o)
  {
    hide Begin, End, Extent, Offset, SizeOf;
    assert o.Size(f) > 0 && o.Size(l) > 0;
    assert !PairApart(o, f, 0, l, 0);
  }

  /** Such a layout exists: 2^30 - 2 signatures and one global on a 64-bit target. */
  lemma WrapExample()
    ensures var o := Offsets(8, 0x3fff_fffe, 0, 0, 0, 0, 0, 0, 1);
            o.Wf() && SizeOf(o).Some? && AlignWraps(o) && Offset(o, GlobalDefinition, 0) == Offset(o, SignatureId, 0)
  {
    var o := Offsets(8, 0x3fff_fffe, 0, 0, 0, 0, 0, 0, 1);
    assert End(o, SignatureId) == Some(0xffff_fff8);
    assert End(o, FunctionImport) == Some(0xffff_fff8);
    assert End(o, TableImport) == Some(0xffff_fff8);
    assert End(o, MemoryImport) == Some(0xffff_fff8);
    assert End(o, GlobalImport) == Some(0xffff_fff8);
    assert End(o, TableDefinition) == Some(0xffff_fff8);
    assert End(o, MemoryDefinition) == Some(0xffff_fff8);
    assert Begin(o, GlobalDefinition) == Some(0);
    assert End(o, GlobalDefinition) == Some(16);
  }

  // ---------------------------------------------------------------- fields

  datatype Field = Field(kind: Kind, at: nat, size: nat)

  /** The fields of an entry that generated code or the image writer addresses. */
  function FieldsOf(o: Offsets, k: Kind): seq<Field> {
    match k
    case FunctionImport => [Field(k, 0, o.pointerSize), Field(k, o.pointerSize, o.pointerSize)]
    case TableImport => [Field(k, 0, o.pointerSize), Field(k, o.pointerSize, o.pointerSize)]
    case MemoryImport => [Field(k, 0, o.pointerSize), Field(k, o.pointerSize, o.pointerSize)]
    case GlobalImport => [Field(k, 0, o.pointerSize)]
    case TableDefinition => [Field(k, 0, o.pointerSize), Field(k, o.pointerSize, 4)]
    case MemoryDefinition => [Field(k, 0, o.pointerSize), Field(k, o.pointerSize, 4)]
    case _ => []
  }

  // ---------------------------------------------------------------- the runtime's structures

  /** The member types of the `repr(C)` structures in the runtime's `vmcontext.rs`. */
  datatype Member = Pointer | Usize | Uint32 | Storage

  function MemberSize(o: Offsets, m: Member): (s: nat)
    requires o.Wf()
    ensures s > 0
  {
    match m
    case Pointer => o.pointerSize
    case Usize => o.pointerSize
    case Uint32 => 4
    case Storage => 16
  }

  /** In declaration order. */
  function MembersOf(k: Kind): seq<Member> {
    match k
    case SignatureId => [Uint32]
    case FunctionImport => [Pointer, Pointer]
    case TableImport => [Pointer, Pointer]
    case MemoryImport => [Pointer, Pointer]
    case GlobalImport => [Pointer]
    case TableDefinition => [Pointer, Uint32]
    case MemoryDefinition => [Pointer, Usize]
    case GlobalDefinition => [Storage]
    case BuiltinFunction => [Usize]
  }

  function RoundUp(n: nat, to: nat): nat
    requires to > 0
  {
    if n % to == 0 then n else n + to - n % to
  }

  /** Where C puts member `x`: after its predecessor, at the next multiple of its own alignment, which
      is its size here. */
  function MemberAt(o: Offsets, ms: seq<Member>, x: nat): nat
    requires o.Wf() && x < |ms|
  {
    if x == 0 then 0
    else RoundUp(MemberAt(o, ms, x - 1) + MemberSize(o, ms[x - 1]), MemberSize(o, ms[x]))
  }

  /** The size of a structure is a multiple of its alignment, that of its first member here. */
  function StructSize(o: Offsets, ms: seq<Member>): nat
    requires o.Wf() && |ms| > 0
  {
    var last := |ms| - 1;
    RoundUp(MemberAt(o, ms, last) + MemberSize(o, ms[last]), MemberSize(o, ms[0]))
  }

  /** Offsets and sizes agree with the structures the runtime reads the same memory through. */
  lemma AsDeclared(o: Offsets, k: Kind)
    requires o.Wf()
    ensures o.Size(k) == StructSize(o, MembersOf(k))
    ensures FieldsOf(o, k) != [] ==> |FieldsOf(o, k)| == |MembersOf(k)|
    ensures forall x :: 0 <= x < |FieldsOf(o, k)| ==>
      && FieldsOf(o, k)[x].at == MemberAt(o, MembersOf(k), x)
      && FieldsOf(o, k)[x].size <= MemberSize(o, MembersOf(k)[x])
  {
    Rounded();
    hide RoundUp;
    var ms := MembersOf(k);
    assert MemberAt(o, ms, 0) == 0;
    if |ms| == 2 {
      assert MemberAt(o, ms, 1) == RoundUp(o.pointerSize, MemberSize(o, ms[1]));
    }
  }

  lemma Rounded()
    ensures RoundUp(4, 4) == 4 && RoundUp(8, 4) == 8 && RoundUp(8, 8) == 8 && RoundUp(12, 8) == 16
    ensures RoundUp(16, 8) == 16 && RoundUp(16, 16) == 16
  {
  }

  /** Fields of any two entries, and two fields of one entry, never overlap. */
  lemma FieldsDisjoint(o: Offsets, k: Kind, i: nat, x: nat, l: Kind, j: nat, y: nat)
    requires o.Wf() && SizeOf(o).Some? && !AlignWraps(o) && i < o.Count(k) && j < o.Count(l)
    requires x < |FieldsOf(o, k)| && y < |FieldsOf(o, l)| && (k != l || i != j || x != y)
    ensures Offset(o, k, i).Some? && Offset(o, l, j).Some?
    ensures var f, g := FieldsOf(o, k)[x], FieldsOf(o, l)[y];
            && f.at + f.size <= o.Size(k)
            && Apart(Offset(o, k, i).value + f.at, f.size, Offset(o, l, j).value + g.at, g.size)
  {
    EntryInside(o, k, i);
    EntryInside(o, l, j);
    if k != l || i != j {
      EntriesDisjoint(o, k, i, l, j);
    }
    hide Offset, SizeOf;
  }
}
