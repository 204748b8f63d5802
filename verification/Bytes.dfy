/** Little-endian words in byte buffers, for apps/launcher/profile_editor.cpp. */
module Bytes {
  import opened Serial

  type byte = n: int | 0 <= n < 256

  type Buffer = seq<byte>

  // Words that stand for no object and for the end of a page.
  const NULL_OBJECT: u32 := 0xFFFF_FFFF
  const END_PAGE: u32 := 0xFFFF_FFFE

  function LoadU32(s: Buffer, at: nat): u32
    requires at + 4 <= |s|
  {
    var a: int, b: int, c: int, d: int := s[at], s[at + 1], s[at + 2], s[at + 3];
    a + 0x100 * b + 0x1_0000 * c + 0x100_0000 * d
  }

  /** Four bytes compared as they stand, without their value as a number. */
  datatype Quad = Quad(b0: byte, b1: byte, b2: byte, b3: byte)

  function QuadAt(s: Buffer, at: nat): Quad
    requires at + 4 <= |s|
  {
    Quad(s[at], s[at + 1], s[at + 2], s[at + 3])
  }

  /** A 64-bit pattern, its low half first. */
  datatype Pattern = Pattern(low: Quad, high: Quad)

  function PatternAt(s: Buffer, at: nat): Pattern
    requires at + 8 <= |s|
  {
    Pattern(QuadAt(s, at), QuadAt(s, at + 4))
  }

  function QuadBytes(q: Quad): (w: Buffer)
    ensures |w| == 4
  {
    [q.b0, q.b1, q.b2, q.b3]
  }

  function PatternBytes(p: Pattern): (w: Buffer)
    ensures |w| == 8
  {
    QuadBytes(p.low) + QuadBytes(p.high)
  }

  function Word(v: u32): (w: Buffer)
    ensures |w| == 4
  {
    [v % 0x100, v / 0x100 % 0x100, v / 0x1_0000 % 0x100, v / 0x100_0000]
  }

  /** The buffer with `w` written over it. */
  function Put(s: Buffer, at: nat, w: Buffer): (r: Buffer)
    requires at + |w| <= |s|
    ensures |r| == |s|
  {
    seq(|s|, k requires 0 <= k < |s| => if at <= k < at + |w| then w[k - at] else s[k])
  }

  predicate TagIs(s: Buffer, at: nat, tag: Quad) { at + 4 <= |s| && QuadAt(s, at) == tag }

  predicate Agree(s: Buffer, r: Buffer, from: nat, to: nat) {
    |s| == |r| && forall k :: from <= k < to && k < |s| ==> s[k] == r[k]
  }

  lemma WordLoads(v: u32)
    ensures LoadU32(Word(v), 0) == v
  {
    assert v == v % 0x100 + 0x100 * (v / 0x100);
    assert v / 0x100 == v / 0x100 % 0x100 + 0x100 * (v / 0x1_0000);
    assert v / 0x1_0000 == v / 0x1_0000 % 0x100 + 0x100 * (v / 0x100_0000);
  }

  lemma PutLoads(s: Buffer, at: nat, v: u32)
    requires at + 4 <= |s|
    ensures LoadU32(Put(s, at, Word(v)), at) == v
  {
    WordLoads(v);
  }

  lemma PutPattern(s: Buffer, at: nat, p: Pattern)
    requires at + 8 <= |s|
    ensures PatternAt(Put(s, at, PatternBytes(p)), at) == p
  {
  }

  method StoreU32(bytes: array<byte>, at: nat, v: u32)
    requires at + 4 <= bytes.Length
    modifies bytes
    ensures bytes[..] == Put(old(bytes[..]), at, Word(v))
  {
    bytes[at] := v % 0x100;
    bytes[at + 1] := v / 0x100 % 0x100;
    bytes[at + 2] := v / 0x1_0000 % 0x100;
    bytes[at + 3] := v / 0x100_0000;
  }

  method StoreQuad(bytes: array<byte>, at: nat, q: Quad)
    requires at + 4 <= bytes.Length
    modifies bytes
    ensures bytes[..] == Put(old(bytes[..]), at, QuadBytes(q))
  {
    bytes[at] := q.b0;
    bytes[at + 1] := q.b1;
    bytes[at + 2] := q.b2;
    bytes[at + 3] := q.b3;
  }

  method StoreU64(bytes: array<byte>, at: nat, p: Pattern)
    requires at + 8 <= bytes.Length
    modifies bytes
    ensures bytes[..] == Put(old(bytes[..]), at, PatternBytes(p))
  {
    StoreQuad(bytes, at, p.low);
    StoreQuad(bytes, at + 4, p.high);
  }
}
