/** Bloom filters and the filter block (util/bloom.cc, table/filter_block.cc): a filter for each
    range of block offsets, and none of them misses a key. */
module Filter {
  import opened Coding
  import opened Block

  // Bits

  function Bit(i: nat): bv8
    requires i < 8
  {
    1 << i
  }

  predicate TestBit(b: Byte, i: nat)
    requires i < 8
  {
    (b as bv8) & Bit(i) != 0
  }

  function SetBit(b: Byte, i: nat): Byte
    requires i < 8
  {
    ((b as bv8) | Bit(i)) as int
  }

  lemma BackAndForth(x: bv8)
    ensures (x as int) as bv8 == x
  {
  }

  lemma BitsKept(x: bv8, y: bv8, z: bv8)
    requires y != 0
    ensures (x | y) & y != 0 && (x & z != 0 ==> (x | y) & z != 0)
  {
  }

  lemma SetBitSets(b: Byte, i: nat, j: nat)
    requires i < 8 && j < 8
    ensures TestBit(SetBit(b, i), i) && (TestBit(b, j) ==> TestBit(SetBit(b, i), j))
  {
    BackAndForth((b as bv8) | Bit(i));
    BitsKept(b as bv8, Bit(i), Bit(j));
  }

  predicate HasBit(bits: Bytes, pos: nat)
    requires pos < 8 * |bits|
  {
    TestBit(bits[pos / 8], pos % 8)
  }

  // The bloom filter

  type Hash = Bytes -> Word

  /** Rotate right by 17 bits. */
  function Delta(h: Word): Word {
    h / 0x2_0000 + h % 0x2_0000 * 0x8000
  }

  /** The hash before probe j. */
  function Probe(h: Word, j: nat): Word {
    if j == 0 then h else (Probe(h, j - 1) + Delta(h)) % 0x1_0000_0000
  }

  /** The bit a probe asks for in so many bytes. */
  function Position(probe: Word, bytes: nat): (pos: nat)
    requires bytes > 0
    ensures pos < 8 * bytes
  {
    probe % (8 * bytes)
  }

  /** All k probes of the hash hit. */
  ghost predicate Hits(bits: Bytes, h: Word, k: nat) {
    bits != [] && forall j :: 0 <= j < k ==> HasBit(bits, Position(Probe(h, j), |bits|))
  }

  ghost predicate MayMatch(hash: Hash, key: Bytes, filter: Bytes) {
    |filter| >= 2 && (filter[|filter| - 1] > 30 || Hits(filter[..|filter| - 1], hash(key), filter[|filter| - 1]))
  }

  /** The policy's KeyMayMatch. */
  method BloomMayMatch(hash: Hash, key: Bytes, filter: Bytes) returns (b: bool)
    ensures b <==> MayMatch(hash, key, filter)
  {
    hide Hits, HasBit, Position;
    if |filter| < 2 { return false; }
    var bits, k := filter[..|filter| - 1], filter[|filter| - 1];
    if k > 30 { return true; }
    var h := hash(key);
    var delta := Delta(h);
    var probe: Word := h;
    NoProbe(bits, h);
    for j := 0 to k
      invariant probe == Probe(h, j) && Hits(bits, h, j)
    {
      if !HasBit(bits, Position(probe, |bits|)) {
        ProbeMissed(bits, h, k, j);
        return false;
      }
      NextProbe(bits, h, j);
      probe := (probe + delta) % 0x1_0000_0000;
    }
    return true;
  }

  ghost predicate KeepsBits(a: Bytes, b: Bytes) {
    |a| == |b| && forall p :: 0 <= p < 8 * |a| && HasBit(a, p) ==> HasBit(b, p)
  }

  method SetProbes(bits: Bytes, h: Word, k: nat) returns (r: Bytes)
    requires bits != []
    ensures KeepsBits(bits, r) && Hits(r, h, k)
  {
    hide Hits, HasBit, SetBit, Position;
    r := bits;
    var probe: Word := h;
    NoProbe(bits, h);
    for j := 0 to k
      invariant |r| == |bits| && KeepsBits(bits, r) && Hits(r, h, j) && probe == Probe(h, j)
    {
      var pos := Position(probe, |r|);
      SetKeeps(r, pos);
      ghost var before := r;
      r := r[pos / 8 := SetBit(r[pos / 8], pos % 8)];
      HitsKept(before, r, h, j);
      NextProbe(r, h, j);
      probe := (probe + Delta(h)) % 0x1_0000_0000;
    }
  }

  lemma NoProbe(bits: Bytes, h: Word)
    requires bits != []
    ensures Hits(bits, h, 0)
  {
  }

  lemma ProbeMissed(bits: Bytes, h: Word, k: nat, j: nat)
    requires bits != [] && j < k && !HasBit(bits, Position(Probe(h, j), |bits|))
    ensures !Hits(bits, h, k)
  {
  }

  lemma NextProbe(bits: Bytes, h: Word, j: nat)
    requires Hits(bits, h, j) && HasBit(bits, Position(Probe(h, j), |bits|))
    ensures Hits(bits, h, j + 1)
  {
  }

  lemma SetKeeps(a: Bytes, pos: nat)
    requires pos < 8 * |a|
    ensures var b := a[pos / 8 := SetBit(a[pos / 8], pos % 8)]; KeepsBits(a, b) && HasBit(b, pos)
  {
    var b := a[pos / 8 := SetBit(a[pos / 8], pos % 8)];
    SetBitSets(a[pos / 8], pos % 8, pos % 8);
    forall p | 0 <= p < 8 * |a| && HasBit(a, p) ensures HasBit(b, p) {
      if p / 8 == pos / 8 { SetBitSets(a[pos / 8], pos % 8, p % 8); }
    }
  }

  /** CreateFilter: appends a filter that every one of the keys matches. */
  method CreateFilter(hash: Hash, bitsPerKey: nat, k: nat, keys: seq<Bytes>, dst: Bytes) returns (r: Bytes)
    requires 1 <= k <= 30
    ensures |r| > |dst| && r[..|dst|] == dst
    ensures forall key :: key in keys ==> MayMatch(hash, key, r[|dst|..])
  {
    var count := |keys| * bitsPerKey;
    if count < 64 { count := 64; }
    var bytes := (count + 7) / 8;
    var bits: Bytes := seq(bytes, i => 0);
    for i := 0 to |keys|
      invariant |bits| == bytes && forall j :: 0 <= j < i ==> Hits(bits, hash(keys[j]), k)
    {
      var before := bits;
      bits := SetProbes(bits, hash(keys[i]), k);
      forall j | 0 <= j < i ensures Hits(bits, hash(keys[j]), k) {
        HitsKept(before, bits, hash(keys[j]), k);
      }
    }
    r := dst + bits + [k];
    assert r[|dst|..] == bits + [k];
    assert (bits + [k])[..bytes] == bits;
  }

  lemma HitsKept(a: Bytes, b: Bytes, h: Word, k: nat)
    requires Hits(a, h, k) && KeepsBits(a, b)
    ensures Hits(b, h, k)
  {
  }

  // The filter block

  const BASE: nat := 2048
  const BASE_LG: Byte := 11

  /** A key of the table, with the offset of the data block it is in. */
  datatype Placed = Placed(offset: nat, key: Bytes)

  /** The filter of a range of offsets. */
  function FilterOf(result: Bytes, offsets: seq<nat>, i: nat): Bytes
    requires i < |offsets|
  {
    var limit := if i + 1 < |offsets| then offsets[i + 1] else |result|;
    if offsets[i] <= limit <= |result| then result[offsets[i]..limit] else []
  }

  /** A later filter leaves the earlier ones as they are. */
  lemma FilterKept(was: Bytes, result: Bytes, offsets: seq<nat>, i: nat)
    requires |was| <= |result| && result[..|was|] == was && i < |offsets|
    requires forall j :: 0 <= j < |offsets| ==> offsets[j] <= |was|
    requires forall j, k :: 0 <= j < k < |offsets| ==> offsets[j] <= offsets[k]
    ensures FilterOf(result, offsets + [|was|], i) == FilterOf(was, offsets, i)
  {
    var limit := if i + 1 < |offsets| then offsets[i + 1] else |was|;
    assert offsets[i] <= limit <= |was|;
    assert forall k :: offsets[i] <= k < limit ==> result[k] == result[..|was|][k];
    assert result[offsets[i]..limit] == was[offsets[i]..limit];
  }

  class FilterBlockBuilder {
    const hash: Hash
    const bitsPerKey: nat
    const k: nat
    var keys: seq<Bytes> // keys_ with start_: the keys without a filter yet
    var result: Bytes
    var filterOffsets: seq<nat>
    ghost var added: seq<Placed>

    ghost predicate OffsetsOk()
      reads this
    {
      (forall i :: 0 <= i < |filterOffsets| ==> filterOffsets[i] <= |result|)
      && forall i, j :: 0 <= i < j < |filterOffsets| ==> filterOffsets[i] <= filterOffsets[j]
    }

    /** A key added waits for its filter, or is in that of its offset's range. */
    ghost predicate Covered(p: Placed)
      reads this
    {
      var i := p.offset / BASE;
      if i < |filterOffsets| then MayMatch(hash, p.key, FilterOf(result, filterOffsets, i))
          else i == |filterOffsets| && p.key in keys
    }

    ghost predicate Valid()
      reads this
    {
      1 <= k <= 30 && OffsetsOk() && forall p :: p in added ==> Covered(p)
    }

    constructor (hash: Hash, bitsPerKey: nat, k: nat)
      requires 1 <= k <= 30
      ensures Valid() && added == [] && this.hash == hash && filterOffsets == []
    {
      this.hash, this.bitsPerKey, this.k := hash, bitsPerKey, k;
      keys, result, filterOffsets, added := [], [], [], [];
    }

    /** GenerateFilter: the keys that wait get the next filter; without keys it is empty. */
    method GenerateFilter()
      requires Valid()
      modifies this`keys, this`result, this`filterOffsets
      ensures Valid() && |filterOffsets| == |old(filterOffsets)| + 1 && keys == []
    {
      hide MayMatch;
      ghost var was, offsets, waiting := result, filterOffsets, keys;
      filterOffsets := filterOffsets + [|result|];
      if keys != [] {
        result := CreateFilter(hash, bitsPerKey, k, keys, result);
        keys := [];
      }
      forall p | p in added ensures Covered(p) {
        assert old(Covered(p));
        var i := p.offset / BASE;
        if i < |offsets| {
          FilterKept(was, result, offsets, i);
        } else {
          assert FilterOf(result, filterOffsets, i) == result[|was|..];
        }
      }
    }

    /** StartBlock: filters for the ranges before the one of the block's offset. */
    method StartBlock(offset: nat)
      requires Valid() && offset / BASE >= |filterOffsets|
      modifies this`keys, this`result, this`filterOffsets
      ensures Valid() && |filterOffsets| == offset / BASE
    {
      while offset / BASE > |filterOffsets|
        invariant Valid() && |filterOffsets| <= offset / BASE
      {
        GenerateFilter();
      }
    }

    method AddKey(key: Bytes, ghost offset: nat)
      requires Valid() && offset / BASE == |filterOffsets|
      modifies this`keys, this`added
      ensures Valid() && added == old(added) + [Placed(offset, key)] && keys == old(keys) + [key]
    {
      keys := keys + [key];
      added := added + [Placed(offset, key)];
      forall p | p in added ensures Covered(p) {
        assert p in old(added) ==> old(Covered(p));
      }
    }

    /** Finish: the last filter, the offsets, where they begin and the base. */
    method Finish() returns (block: Bytes)
      requires Valid()
      modifies this
      ensures Valid() && keys == [] && added == old(added)
      ensures block == FilterBlock(result, filterOffsets)
    {
      if keys != [] { GenerateFilter(); }
      block := result;
      for i := 0 to |filterOffsets|
        invariant block == result + RestartBytes(filterOffsets[..i])
      {
        assert filterOffsets[..i + 1][..i] == filterOffsets[..i];
        block := block + EncodeFixed32(filterOffsets[i] % MAX_SIZE);
      }
      assert filterOffsets[..|filterOffsets|] == filterOffsets;
      block := block + EncodeFixed32(|result| % MAX_SIZE) + [BASE_LG];
    }
  }

  // Reading the filter block

  class FilterBlockReader {
    const hash: Hash
    const data: Bytes
    const arrayOffset: nat
    const num: nat
    const baseLg: nat

    constructor (hash: Hash, contents: Bytes)
      ensures this.hash == hash
      ensures if |contents| < 5 || DecodeFixed32(contents[|contents| - 5..]) > |contents| - 5 then num == 0 else
        data == contents && baseLg == contents[|contents| - 1]
        && arrayOffset == DecodeFixed32(contents[|contents| - 5..]) && num == (|contents| - 5 - arrayOffset) / 4
    {
      this.hash := hash;
      var n := |contents|;
      if n < 5 || DecodeFixed32(contents[n - 5..]) > n - 5 {
        data, arrayOffset, num, baseLg := [], 0, 0, 0;
      } else {
        var lastWord := DecodeFixed32(contents[n - 5..]);
        data, arrayOffset, num, baseLg := contents, lastWord, (n - 5 - lastWord) / 4, contents[n - 1];
      }
    }

    /** KeyMayMatch: asks the filter of the block's range; errors count as matches. */
    method KeyMayMatch(blockOffset: nat, key: Bytes) returns (b: bool)
      requires num > 0 ==> 5 <= |data| && arrayOffset <= |data| - 5 && num == (|data| - 5 - arrayOffset) / 4
      ensures b <==> Answer(hash, data, arrayOffset, num, baseLg, blockOffset, key)
    {
      hide DecodeFixed32, MayMatch, RangeOf;
      var index := RangeOf(baseLg, blockOffset);
      if index < num {
        var start := DecodeFixed32(data[arrayOffset + 4 * index..]);
        var limit := DecodeFixed32(data[arrayOffset + 4 * index + 4..]);
        if start <= limit && limit <= arrayOffset {
          b := BloomMayMatch(hash, key, data[start..limit]);
          return;
        } else if start == limit {
          return false;
        }
      }
      return true;
    }
  }

  /** blockOffset >> baseLg. */
  function RangeOf(baseLg: nat, blockOffset: nat): nat {
    if baseLg == 0 then blockOffset else RangeOf(baseLg - 1, blockOffset / 2)
  }

  ghost predicate Answer(hash: Hash, data: Bytes, arrayOffset: nat, num: nat, baseLg: nat, blockOffset: nat, key: Bytes)
    requires num > 0 ==> 5 <= |data| && arrayOffset <= |data| - 5 && num == (|data| - 5 - arrayOffset) / 4
  {
    var index := RangeOf(baseLg, blockOffset);
    index < num ==>
      var start, limit := DecodeFixed32(data[arrayOffset + 4 * index..]),
        DecodeFixed32(data[arrayOffset + 4 * index + 4..]);
      if start <= limit && limit <= arrayOffset then MayMatch(hash, key, data[start..limit]) else start != limit
  }

  // No false negatives

  function FilterBlock(result: Bytes, offsets: seq<nat>): Bytes {
    result + RestartBytes(offsets) + EncodeFixed32(|result| % MAX_SIZE) + [BASE_LG]
  }

  /** Where the reader finds the offsets: the one after the last is where the array begins. */
  lemma OffsetWord(result: Bytes, offsets: seq<nat>, i: nat)
    requires i <= |offsets| && |FilterBlock(result, offsets)| < MAX_SIZE && forall j :: 0 <= j < |offsets| ==>
        offsets[j] <= |result|
    ensures |FilterBlock(result, offsets)| == |result| + 4 * |offsets| + 5
    ensures DecodeFixed32(FilterBlock(result, offsets)[|result| + 4 * i..]) == if i < |offsets| then offsets[i]
        else |result|
  {
    hide DecodeFixed32, EncodeFixed32, RestartBytes;
    var words, last := RestartBytes(offsets), EncodeFixed32(|result| % MAX_SIZE);
    var block := FilterBlock(result, offsets);
    WordSize(|result| % MAX_SIZE);
    if offsets != [] { RestartBytesAt(offsets, 0); } else { NoWords(); }
    if i < |offsets| {
      RestartBytesAt(offsets, i);
      MiddleOf(result, words, last + [BASE_LG], 4 * i, 4 * i + 4);
      assert block == result + words + (last + [BASE_LG]);
      var rest := block[|result| + 4 * i + 4..];
      assert block[|result| + 4 * i..] == EncodeFixed32(offsets[i] % MAX_SIZE) + rest;
      DecodeEncode32(offsets[i] % MAX_SIZE, rest);
    } else {
      assert block[|result| + 4 * i..] == last + [BASE_LG];
      DecodeEncode32(|result| % MAX_SIZE, [BASE_LG]);
    }
  }

  lemma WordSize(w: Word)
    ensures |EncodeFixed32(w)| == 4
  {
  }

  lemma NoWords()
    ensures RestartBytes([]) == []
  {
  }

  /** Every key in the filter of its offset's range is a possible match for the reader. */
  lemma NoFalseNegatives(hash: Hash, result: Bytes, offsets: seq<nat>, p: Placed)
    requires |FilterBlock(result, offsets)| < MAX_SIZE
    requires forall j :: 0 <= j < |offsets| ==> offsets[j] <= |result|
    requires forall i, j :: 0 <= i < j < |offsets| ==> offsets[i] <= offsets[j]
    requires p.offset / BASE < |offsets| && MayMatch(hash, p.key, FilterOf(result, offsets, p.offset / BASE))
    ensures var block := FilterBlock(result, offsets);
      |block| >= 5 && DecodeFixed32(block[|block| - 5..]) == |result| <= |block| - 5
        && (|block| - 5 - |result|) / 4 == |offsets|
      && block[|block| - 1] == BASE_LG && Answer(hash, block, |result|, |offsets|, BASE_LG, p.offset, p.key)
  {
    hide DecodeFixed32, MayMatch, RangeOf, FilterBlock, FilterOf;
    var block, i := FilterBlock(result, offsets), p.offset / BASE;
    OffsetWord(result, offsets, |offsets|);
    OffsetWord(result, offsets, i);
    OffsetWord(result, offsets, i + 1);
    RangeIsBase(p.offset);
    LastByte(result, offsets);
    FilterInBlock(result, offsets, i);
  }

  lemma LastByte(result: Bytes, offsets: seq<nat>)
    ensures FilterBlock(result, offsets) != []
    ensures FilterBlock(result, offsets)[|FilterBlock(result, offsets)| - 1] == BASE_LG
  {
  }

  lemma FilterInBlock(result: Bytes, offsets: seq<nat>, i: nat)
    requires i < |offsets| && (forall j :: 0 <= j < |offsets| ==> offsets[j] <= |result|)
    requires forall j, k :: 0 <= j < k < |offsets| ==> offsets[j] <= offsets[k]
    ensures var limit := if i + 1 < |offsets| then offsets[i + 1] else |result|;
      offsets[i] <= limit <= |result| <= |FilterBlock(result, offsets)|
      && FilterBlock(result, offsets)[offsets[i]..limit] == FilterOf(result, offsets, i)
  {
    var limit := if i + 1 < |offsets| then offsets[i + 1] else |result|;
    assert offsets[i] <= limit;
    assert FilterBlock(result, offsets)[offsets[i]..limit] == result[offsets[i]..limit];
  }

  lemma RangeIsBase(offset: nat)
    ensures RangeOf(BASE_LG, offset) == offset / BASE
  {
    RangeBy(offset);
    RangeBy(offset / 16);
    var c := offset / 16 / 16;
    assert RangeOf(3, c) == RangeOf(2, c / 2) == RangeOf(1, c / 2 / 2) == c / 2 / 2 / 2;
    assert offset / 16 / 16 / 2 / 2 / 2 == offset / BASE;
    RangeSplit(4, 7, offset);
    RangeSplit(4, 3, offset / 16);
  }

  lemma RangeBy(offset: nat)
    ensures RangeOf(4, offset) == offset / 16
  {
    assert RangeOf(4, offset) == RangeOf(3, offset / 2) == RangeOf(2, offset / 2 / 2) == RangeOf(1, offset / 2 / 2 / 2);
    assert RangeOf(1, offset / 2 / 2 / 2) == offset / 2 / 2 / 2 / 2;
    assert offset / 2 / 2 == offset / 4 && offset / 4 / 2 / 2 == offset / 16;
  }

  lemma {:induction false} RangeSplit(a: nat, b: nat, offset: nat)
    ensures RangeOf(a + b, offset) == RangeOf(b, RangeOf(a, offset))
    decreases a
  {
    if a > 0 { RangeSplit(a - 1, b, offset / 2); }
  }
}
