/** The code memory of the JIT: a bump allocator over writable mappings that are made executable
    when they are published. */
module CodeMemory {
  import opened Microwasm
  import opened Bytes

  datatype Mapping = Mapping(bytes: seq<Byte>, executable: bool)

  /** A block handed out earlier: the mapping it lies in, counted in order of creation, its place
      and what was copied into it. */
  datatype Block = Block(mapping: nat, code: Write)

  predicate BlocksApart(a: Block, b: Block) {
    a.mapping == b.mapping ==> WritesApart(a.code, b.code)
  }

  const MIN_MAPPING := 0x10000

  function TotalLength(slices: seq<seq<Byte>>): nat {
    if slices == [] then 0 else TotalLength(slices[..|slices| - 1]) + |slices[|slices| - 1]|
  }

  /** The slices one after the other in one mapping, starting at `base`. */
  ghost predicate Contiguous(bs: seq<Block>, slices: seq<seq<Byte>>, mapping: nat, base: nat) {
    && |bs| == |slices|
    && forall k :: 0 <= k < |slices| ==> bs[k] == Block(mapping, Write(base + TotalLength(slices[..k]), slices[k]))
  }

  class CodeMemory {
    var current: Mapping
    var mmaps: seq<Mapping>
    var position: nat
    var published: nat
    ghost var blocks: seq<Block>

    /** All mappings; the current one is the next to be retired. */
    ghost function Mappings(): seq<Mapping>
      reads this
    {
      mmaps + [current]
    }

    ghost predicate BlockOk(b: Block)
      reads this
    {
      && b.mapping <= |mmaps|
      && Holds(Mappings()[b.mapping].bytes, b.code)
      && (b.mapping == |mmaps| ==> b.code.at + |b.code.bytes| <= position)
    }

    /** Blocks keep their contents and do not overlap; published mappings are executable or empty
        and all others are still writable. */
    ghost predicate Valid()
      reads this
    {
      && published <= |mmaps| && position <= |current.bytes|
      && (forall i :: 0 <= i < |blocks| ==> BlockOk(blocks[i]))
      && (forall i, j {:trigger BlocksApart(blocks[i], blocks[j])} ::
            0 <= i < j < |blocks| ==> BlocksApart(blocks[i], blocks[j]))
      && (forall i :: 0 <= i < published ==> mmaps[i].executable || mmaps[i].bytes == [])
      && (forall i :: published <= i < |mmaps| ==> !mmaps[i].executable)
      && !current.executable
    }

    constructor ()
      ensures Valid() && blocks == [] && mmaps == [] && published == 0
    {
      current, mmaps, position, published := Mapping([], false), [], 0, 0;
      blocks := [];
    }

    /** The blocks of the current mapping end at or before `limit`. */
    ghost predicate Below(limit: nat)
      reads this
    {
      forall i :: 0 <= i < |blocks| && blocks[i].mapping == |mmaps| ==>
        blocks[i].code.at + |blocks[i].code.bytes| <= limit
    }

    ghost predicate NeedsMapping(size: nat)
      reads this
      requires Valid()
    {
      |current.bytes| - position < size
    }

    /** Reserves `size` bytes of the current mapping.  `mapped` is what the operating system would
        answer to a request for a new mapping: a failure, or a length that is large enough. */
    method Allocate(size: nat, mapped: Option<nat>) returns (at: Option<nat>)
      requires Valid() && (mapped.Some? ==> mapped.value >= Max(MIN_MAPPING, size))
      modifies this
      ensures Valid() && blocks == old(blocks) && published == old(published)
      ensures at.None? <==> old(NeedsMapping(size)) && mapped.None?
      ensures at.None? ==> current == old(current) && mmaps == old(mmaps) && position == old(position)
      ensures at.Some? ==> at.value + size == position
      ensures at.Some? ==> mmaps == if old(NeedsMapping(size)) then old(mmaps) + [old(current)] else old(mmaps)
      ensures at.Some? ==> Below(at.value)
    {
      if |current.bytes| - position < size {
        if mapped.None? {
          return None;
        }
        Retired();
        mmaps := mmaps + [current];
        current := Mapping(seq(mapped.value, _ => 0), false);
        position := 0;
      }
      assert forall i :: 0 <= i < |blocks| ==> BlockOk(blocks[i]);
      at := Some(position);
      position := position + size;
    }

    /** Retiring the current mapping moves no block. */
    lemma Retired()
      requires Valid()
      ensures forall m: Mapping, i :: 0 <= i < |blocks| ==>
        blocks[i].mapping < |mmaps + [current] + [m]| &&
          Holds((mmaps + [current] + [m])[blocks[i].mapping].bytes, blocks[i].code)
    {
      forall m: Mapping, i | 0 <= i < |blocks|
        ensures blocks[i].mapping < |mmaps + [current] + [m]|
        ensures Holds((mmaps + [current] + [m])[blocks[i].mapping].bytes, blocks[i].code)
      {
        assert BlockOk(blocks[i]);
        assert (mmaps + [current] + [m])[blocks[i].mapping] == Mappings()[blocks[i].mapping];
      }
    }

    /** Copies code to a reserved place of the current mapping and records the block. */
    method CopyIn(at: nat, slice: seq<Byte>) returns (b: Block)
      requires Valid() && at + |slice| <= position && Below(at)
      modifies this
      ensures Valid() && Below(at + |slice|) && b == Block(|mmaps|, Write(at, slice)) && blocks == old(blocks) + [b]
      ensures mmaps == old(mmaps) && position == old(position) && published == old(published)
    {
      b := Block(|mmaps|, Write(at, slice));
      ghost var was := Mappings();
      PutHolds(current.bytes, b.code);
      forall i | 0 <= i < |blocks| && blocks[i].mapping == |mmaps|
        ensures Holds(Put(current.bytes, b.code), blocks[i].code)
      {
        assert BlockOk(blocks[i]);
        PutKeeps(current.bytes, blocks[i].code, b.code);
      }
      forall i | 0 <= i < |blocks|
        ensures BlocksApart(blocks[i], b)
      {
        assert BlockOk(blocks[i]);
      }
      assert forall i :: 0 <= i < |blocks| ==> BlockOk(blocks[i]);
      current := current.(bytes := Put(current.bytes, b.code));
      assert forall i :: 0 <= i < |mmaps| ==> Mappings()[i] == was[i];
      blocks := blocks + [b];
    }

    /** `allocate_copy_of_byte_slice`. */
    method AllocateCopy(slice: seq<Byte>, mapped: Option<nat>) returns (b: Option<Block>)
      requires Valid() && (mapped.Some? ==> mapped.value >= Max(MIN_MAPPING, |slice|))
      modifies this
      ensures Valid() && published == old(published) && |old(mmaps)| <= |mmaps|
      ensures forall i :: 0 <= i < |old(mmaps)| ==> mmaps[i] == old(mmaps)[i]
      ensures b.None? <==> old(NeedsMapping(|slice|)) && mapped.None?
      ensures b.None? ==>
        current == old(current) && mmaps == old(mmaps) && position == old(position) && blocks == old(blocks)
      ensures b.Some? ==> blocks == old(blocks) + [b.value] && b.value.code.bytes == slice && b.value.mapping == |mmaps|
    {
      var at := Allocate(|slice|, mapped);
      if at.None? {
        return None;
      }
      var block := CopyIn(at.value, slice);
      b := Some(block);
    }

    /** `allocate_copy_of_byte_slices`: one reservation, the slices one after the other. */
    method AllocateCopies(slices: seq<seq<Byte>>, mapped: Option<nat>) returns (bs: Option<seq<Block>>)
      requires Valid() && (mapped.Some? ==> mapped.value >= Max(MIN_MAPPING, TotalLength(slices)))
      modifies this
      ensures Valid() && published == old(published) && |old(mmaps)| <= |mmaps|
      ensures forall i :: 0 <= i < |old(mmaps)| ==> mmaps[i] == old(mmaps)[i]
      ensures bs.None? <==> old(NeedsMapping(TotalLength(slices))) && mapped.None?
      ensures bs.None? ==>
        current == old(current) && mmaps == old(mmaps) && position == old(position) && blocks == old(blocks)
      ensures bs.Some? ==> blocks == old(blocks) + bs.value && |bs.value| == |slices|
      ensures bs.Some? ==> exists base: nat :: Contiguous(bs.value, slices, |mmaps|, base)
    {
      hide Valid, Below, TotalLength;
      var base := Allocate(TotalLength(slices), mapped);
      if base.None? {
        return None;
      }
      var out := CopyAll(base.value, slices);
      bs := Some(out);
    }

    method CopyAll(base: nat, slices: seq<seq<Byte>>) returns (out: seq<Block>)
      requires Valid() && base + TotalLength(slices) == position && Below(base)
      modifies this
      ensures Valid() && mmaps == old(mmaps) && published == old(published)
      ensures blocks == old(blocks) + out && |out| == |slices| && Contiguous(out, slices, |mmaps|, base)
    {
      hide Valid, Below, TotalLength;
      out := [];
      var tail := base;
      NoSlices(slices);
      for k := 0 to |slices|
        invariant Valid() && mmaps == old(mmaps) && published == old(published) && position == old(position)
        invariant |out| == k && blocks == old(blocks) + out
        invariant tail == base + TotalLength(slices[..k]) && Below(tail)
        invariant forall i :: 0 <= i < k ==> out[i] == Block(|mmaps|, Write(base + TotalLength(slices[..i]), slices[i]))
      {
        LengthNext(slices, k);
        var b := CopyIn(tail, slices[k]);
        tail := tail + |slices[k]|;
        out := out + [b];
      }
    }

    /** Makes every retired mapping executable; the next allocation starts a new mapping. */
    method Publish()
      requires Valid()
      modifies this
      ensures Valid() && blocks == old(blocks) && published == |mmaps| == |old(mmaps)| + 1 && current.bytes == []
      ensures forall i :: 0 <= i < |mmaps| ==> mmaps[i].bytes == old(Mappings())[i].bytes
      ensures forall i :: 0 <= i < |blocks| ==>
        blocks[i].mapping < published && (mmaps[blocks[i].mapping].executable || blocks[i].code.bytes == [])
    {
      assert forall i :: 0 <= i < |blocks| ==> BlockOk(blocks[i]);
      mmaps := mmaps + [current];
      current, position := Mapping([], false), 0;
      for i := published to |mmaps|
        invariant |mmaps| == |old(mmaps)| + 1 && published == old(published) && blocks == old(blocks)
        invariant current == Mapping([], false) && position == 0
        invariant forall k :: 0 <= k < |mmaps| ==> mmaps[k].bytes == old(Mappings())[k].bytes
        invariant forall k :: 0 <= k < i ==> mmaps[k].executable || mmaps[k].bytes == []
      {
        if |mmaps[i].bytes| != 0 {
          mmaps := mmaps[i := mmaps[i].(executable := true)];
        }
      }
      published := |mmaps|;
      forall i | 0 <= i < |blocks|
        ensures BlockOk(blocks[i])
      {
        assert Mappings()[blocks[i].mapping].bytes == old(Mappings())[blocks[i].mapping].bytes;
      }
    }
  }

  lemma NoSlices(slices: seq<seq<Byte>>)
    ensures TotalLength(slices[..0]) == 0
  {
  }

  lemma LengthNext(slices: seq<seq<Byte>>, k: nat)
    requires k < |slices|
    ensures TotalLength(slices[..k + 1]) == TotalLength(slices[..k]) + |slices[k]|
    ensures TotalLength(slices[..k]) + |slices[k]| <= TotalLength(slices)
  {
    assert slices[..k + 1][..k] == slices[..k];
    LengthGrows(slices, k + 1);
  }

  lemma {:induction false} LengthGrows(slices: seq<seq<Byte>>, k: nat)
    requires k <= |slices|
    ensures TotalLength(slices[..k]) <= TotalLength(slices)
    decreases |slices| - k
  {
    if k < |slices| {
      assert slices[..k + 1][..k] == slices[..k];
      LengthGrows(slices, k + 1);
    } else {
      assert slices[..k] == slices;
    }
  }
}
