/** Byte buffers: little-endian numbers and writes of a few bytes at an offset. */
module Bytes {
  type Byte = x: int | 0 <= x < 256

  // ---------------------------------------------------------------- bytes

  /** Little-endian encoding of the low `8 * n` bits. */
  function Encode(v: nat, n: nat): (s: seq<Byte>)
    ensures |s| == n
  {
    if n == 0 then [] else [v % 256] + Encode(v / 256, n - 1)
  }

  function Decode(s: seq<Byte>): nat {
    if s == [] then 0 else s[0] + 256 * Decode(s[1..])
  }

  function Power(n: nat): (r: nat)
    ensures r > 0
  {
    if n == 0 then 1 else 256 * Power(n - 1)
  }

  lemma {:induction false} RoundTrip(v: nat, n: nat)
    requires v < Power(n)
    ensures Decode(Encode(v, n)) == v
    decreases n
  {
    if n > 0 {
      RoundTrip(v / 256, n - 1);
      assert Encode(v, n)[1..] == Encode(v / 256, n - 1);
    }
  }

  // ---------------------------------------------------------------- writes

  datatype Write = Write(at: nat, bytes: seq<Byte>)

  predicate Fits(w: Write, size: nat) {
    w.at + |w.bytes| <= size
  }

  /** Two byte ranges do not overlap. */
  predicate Apart(a: nat, s: nat, b: nat, t: nat) {
    a + s <= b || b + t <= a
  }

  predicate WritesApart(v: Write, w: Write) {
    Apart(v.at, |v.bytes|, w.at, |w.bytes|)
  }

  function Put(out: seq<Byte>, w: Write): (r: seq<Byte>)
    requires Fits(w, |out|)
    ensures |r| == |out|
    ensures forall p :: 0 <= p < |out| ==> r[p] == if w.at <= p < w.at + |w.bytes| then w.bytes[p - w.at] else out[p]
  {
    out[..w.at] + w.bytes + out[w.at + |w.bytes|..]
  }

  ghost predicate Holds(out: seq<Byte>, w: Write) {
    Fits(w, |out|) && out[w.at..w.at + |w.bytes|] == w.bytes
  }

  lemma PutHolds(out: seq<Byte>, w: Write)
    requires Fits(w, |out|)
    ensures Holds(Put(out, w), w)
  {
  }

  lemma PutKeeps(out: seq<Byte>, v: Write, w: Write)
    requires Holds(out, v) && Fits(w, |out|) && WritesApart(v, w)
    ensures Holds(Put(out, w), v)
  {
    var r := Put(out, w);
    forall p | 0 <= p < |v.bytes|
      ensures r[v.at..v.at + |v.bytes|][p] == v.bytes[p]
    {
      assert out[v.at..v.at + |v.bytes|][p] == out[v.at + p];
    }
  }
}
