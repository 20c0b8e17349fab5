/** Fixed-width and variable-width encodings and the checksum mask (util/coding.h, util/coding.cc,
    util/crc32c.h). */
module Coding {
  import opened Format

  type Byte = b: int | 0 <= b < 0x100

  type Bytes = seq<Byte>

  type Word = w: int | 0 <= w < 0x1_0000_0000

  /** Little endian. */
  function EncodeFixed32(w: Word): seq<Byte> {
    [w % 0x100, w / 0x100 % 0x100, w / 0x1_0000 % 0x100, w / 0x100_0000]
  }

  function DecodeFixed32(s: seq<Byte>): Word
    requires |s| >= 4
  {
    s[0] as int + s[1] as int * 0x100 + s[2] as int * 0x1_0000 + s[3] as int * 0x100_0000
  }

  lemma DecodeEncode32(w: Word, rest: seq<Byte>)
    ensures DecodeFixed32(EncodeFixed32(w) + rest) == w
  {
    var a, b := w / 0x100, w / 0x1_0000;
    assert a == b * 0x100 + a % 0x100 && b == a / 0x100;
    assert b == w / 0x100_0000 * 0x100 + b % 0x100;
  }

  /** The lower word first. */
  function EncodeFixed64(v: nat): (s: seq<Byte>)
    ensures |s| == 8
  {
    EncodeFixed32(v % 0x1_0000_0000) + EncodeFixed32(v / 0x1_0000_0000 % 0x1_0000_0000)
  }

  function DecodeFixed64(s: seq<Byte>): nat
    requires |s| >= 8
  {
    DecodeFixed32(s) as nat + DecodeFixed32(s[4..]) as nat * 0x1_0000_0000
  }

  lemma DecodeEncode64(v: nat, rest: seq<Byte>)
    requires v < 0x1_0000_0000_0000_0000
    ensures DecodeFixed64(EncodeFixed64(v) + rest) == v
  {
    hide DecodeFixed32, EncodeFixed32;
    var low, high := EncodeFixed32(v % 0x1_0000_0000), EncodeFixed32(v / 0x1_0000_0000 % 0x1_0000_0000);
    DecodeEncode32(v % 0x1_0000_0000, high + rest);
    DecodeEncode32(v / 0x1_0000_0000 % 0x1_0000_0000, rest);
    assert EncodeFixed64(v) + rest == low + (high + rest);
    assert (low + (high + rest))[4..] == high + rest by { WordBytes(v % 0x1_0000_0000); }
  }

  lemma WordBytes(w: Word)
    ensures |EncodeFixed32(w)| == 4
  {
  }

  const MASK_DELTA: Word := 0xa282ead8

  /** Rotates right by 15 bits and adds a constant, in 32 bits. */
  function Mask(crc: Word): Word {
    (crc / 0x8000 + crc % 0x8000 * 0x2_0000 + MASK_DELTA) % 0x1_0000_0000
  }

  function Unmask(masked: Word): Word {
    var rot := (masked - MASK_DELTA) % 0x1_0000_0000;
    rot / 0x2_0000 + rot % 0x2_0000 * 0x8000
  }

  lemma UnmaskMask(crc: Word)
    ensures Unmask(Mask(crc)) == crc
  {
    var high, low := crc / 0x8000, crc % 0x8000;
    var rot := high + low * 0x2_0000;
    assert high < 0x2_0000 && rot < 0x1_0000_0000;
    assert (Mask(crc) - MASK_DELTA) % 0x1_0000_0000 == rot;
    assert rot / 0x2_0000 == low && rot % 0x2_0000 == high;
  }

  // Varints

  /** Seven bits a byte, the lowest first; all but the last byte have the top bit set. */
  function Varint(v: nat): (s: seq<Byte>)
    ensures |s| > 0
  {
    if v < 128 then [v] else [v % 128 + 128] + Varint(v / 128)
  }

  /** The number that begins at p and ends before `limit` in at most `bytes` bytes, and the
      position after it. */
  function VarintAt(s: seq<Byte>, p: nat, limit: nat, bytes: nat): (r: Option<(nat, nat)>)
    requires limit <= |s|
    ensures r.Some? ==> p < r.value.1 <= limit
    decreases bytes
  {
    if bytes == 0 || p >= limit then None
    else if s[p] < 128 then Some((s[p] as nat, p + 1))
    else
      var rest := VarintAt(s, p + 1, limit, bytes - 1);
      if rest.None? then None else Some((s[p] as nat - 128 + 128 * rest.value.0, rest.value.1))
  }

  /** What is stored at p, with room before the limit. */
  ghost predicate StoredAt(s: seq<Byte>, p: nat, limit: nat, bytes: seq<Byte>) {
    p + |bytes| <= limit <= |s| && s[p..p + |bytes|] == bytes
  }

  lemma {:induction false} VarintRead(s: seq<Byte>, p: nat, limit: nat, bytes: nat, v: nat)
    requires StoredAt(s, p, limit, Varint(v)) && |Varint(v)| <= bytes
    ensures VarintAt(s, p, limit, bytes) == Some((v, p + |Varint(v)|))
    decreases v
  {
    assert s[p] == Varint(v)[0];
    if v >= 128 {
      assert s[p + 1..p + |Varint(v)|] == s[p..p + |Varint(v)|][1..];
      assert Varint(v)[1..] == Varint(v / 128);
      VarintRead(s, p + 1, limit, bytes - 1, v / 128);
    }
  }

  /** 128 to the power n. */
  function Base128(n: nat): nat {
    if n == 0 then 1 else 128 * Base128(n - 1)
  }

  lemma {:induction false} VarintLength(v: nat, n: nat)
    requires n > 0 && v < Base128(n)
    ensures |Varint(v)| <= n
  {
    if v >= 128 {
      assert n > 1;
      VarintLength(v / 128, n - 1);
    }
  }

  lemma WordLength(w: Word)
    ensures |Varint(w)| <= 5
  {
    assert Base128(5) == 128 * 128 * 128 * 128 * 128 by {
      assert Base128(0) == 1 && Base128(1) == 128 && Base128(2) == 128 * 128 && Base128(3) == 128 * 128 * 128;
      assert Base128(4) == 128 * 128 * 128 * 128;
    }
    VarintLength(w, 5);
  }

  /** EncodeVarint64, and EncodeVarint32 with its loop unrolled. */
  method PutVarint(dst: seq<Byte>, value: nat) returns (r: seq<Byte>)
    ensures r == dst + Varint(value)
  {
    var v := value;
    r := dst;
    while v >= 128
      invariant r + Varint(v) == dst + Varint(value)
    {
      r := r + [v % 128 + 128];
      v := v / 128;
    }
    r := r + [v];
  }

  /** A number whose lower groups, below `scale`, are in `low`. */
  function Resume(low: nat, scale: nat, rest: Option<(nat, nat)>): Option<(nat, nat)> {
    if rest.None? then None else Some((low + scale * rest.value.0, rest.value.1))
  }

  /** The lower groups with one more, of a byte with the top bit set. */
  function More(low: nat, scale: nat, byte: Byte): nat
    requires byte >= 128
  {
    low + scale * (byte - 128)
  }

  lemma ResumeNext(s: seq<Byte>, p: nat, limit: nat, bytes: nat, low: nat, scale: nat)
    requires bytes > 0 && p < limit <= |s|
    ensures Resume(low, scale, VarintAt(s, p, limit, bytes)) ==
      if s[p] < 128 then Some((low + scale * s[p] as nat, p + 1))
      else Resume(More(low, scale, s[p]), scale * 128, VarintAt(s, p + 1, limit, bytes - 1))
  {
    if s[p] >= 128 {
      var rest := VarintAt(s, p + 1, limit, bytes - 1);
      if rest.Some? {
        var b, v := s[p] as nat - 128, rest.value.0;
        assert scale * (b + 128 * v) == scale * b + scale * 128 * v;
      }
    }
  }

  /** GetVarint32Ptr and GetVarint64Ptr: at most `bytes` bytes, of a result below `modulus`. */
  method GetVarint(s: seq<Byte>, start: nat, limit: nat, maxBytes: nat, modulus: nat) returns (r: Option<(nat, nat)>)
    requires limit <= |s| && modulus > 0
    ensures var v := VarintAt(s, start, limit, maxBytes);
      r == if v.None? then None else Some((v.value.0 % modulus, v.value.1))
  {
    hide Resume, VarintAt;
    var low: nat, scale: nat, p: nat, bytes: nat := 0, 1, start, maxBytes;
    ghost var whole := VarintAt(s, start, limit, maxBytes);
    ResumeWhole(whole);
    while bytes > 0 && p < limit
      invariant Resume(low, scale, VarintAt(s, p, limit, bytes)) == whole
      decreases bytes
    {
      var byte := s[p];
      ResumeNext(s, p, limit, bytes, low, scale);
      if byte < 128 {
        return Some(((low + scale * byte) % modulus, p + 1));
      }
      low, scale, p, bytes := More(low, scale, byte), scale * 128, p + 1, bytes - 1;
    }
    ResumeNothing(s, p, limit, bytes, low, scale);
    r := None;
  }

  method GetVarint32(s: seq<Byte>, start: nat, limit: nat) returns (r: Option<(nat, nat)>)
    requires limit <= |s|
    ensures var v := VarintAt(s, start, limit, 5);
      r == if v.None? then None else Some((v.value.0 % 0x1_0000_0000, v.value.1))
  {
    r := GetVarint(s, start, limit, 5, 0x1_0000_0000);
  }

  method GetVarint64(s: seq<Byte>, start: nat, limit: nat) returns (r: Option<(nat, nat)>)
    requires limit <= |s|
    ensures var v := VarintAt(s, start, limit, 10);
      r == if v.None? then None else Some((v.value.0 % 0x1_0000_0000_0000_0000, v.value.1))
  {
    r := GetVarint(s, start, limit, 10, 0x1_0000_0000_0000_0000);
  }

  lemma ResumeWhole(rest: Option<(nat, nat)>)
    ensures Resume(0, 1, rest) == rest
  {
  }

  lemma ResumeNothing(s: seq<Byte>, p: nat, limit: nat, bytes: nat, low: nat, scale: nat)
    requires limit <= |s| && (bytes == 0 || p >= limit)
    ensures Resume(low, scale, VarintAt(s, p, limit, bytes)) == None
  {
  }
}
