/** Table files (table/table_builder.cc, table/table.cc, table/format.cc): data blocks, an index of
    separators and a filter block. A lookup through all three finds what a search through the
    pairs in order finds. */
module Table {
  import opened Format
  import opened Coding
  import opened Block
  import opened Comparator
  import opened Filter
  import TwoLevel

  // Handles and stored blocks

  datatype Handle = Handle(offset: nat, size: nat)

  const MAX_64: nat := 0x1_0000_0000_0000_0000

  predicate HandleFits(h: Handle) {
    h.offset < MAX_64 && h.size < MAX_64
  }

  function HandleBytes(h: Handle): Bytes {
    Varint(h.offset) + Varint(h.size)
  }

  lemma LongLength(v: nat)
    requires v < MAX_64
    ensures |Varint(v)| <= 10
  {
    var w := v / 128 / 128 / 128 / 128 / 128;
    assert w < Base128(5) by {
      assert Base128(1) == 128 && Base128(2) == 0x4000 && Base128(3) == 0x20_0000 && Base128(4) == 0x1000_0000;
      assert Base128(5) == 0x8_0000_0000;
    }
    VarintLength(w, 5);
    assert |Varint(v)| <= |Varint(v / 128)| + 1 <= |Varint(v / 128 / 128)| + 2 <= |Varint(v / 128 / 128 / 128)| + 3;
    assert |Varint(v / 128 / 128 / 128)| <= |Varint(v / 128 / 128 / 128 / 128)| + 1 <= |Varint(w)| + 2;
  }

  /** DecodeFrom. */
  method DecodeHandle(s: Bytes) returns (r: Option<Handle>)
    ensures forall h :: HandleFits(h) && s == HandleBytes(h) ==> r == Some(h)
  {
    hide VarintAt, Varint;
    var a := GetVarint64(s, 0, |s|);
    if a.None? {
      r := None;
    } else {
      var b := GetVarint64(s, a.value.1, |s|);
      r := if b.None? then None else Some(Handle(a.value.0, b.value.0));
    }
    forall h | HandleFits(h) && s == HandleBytes(h) ensures r == Some(h) {
      HandleRead(h);
    }
  }

  lemma HandleRead(h: Handle)
    requires HandleFits(h)
    ensures var s := HandleBytes(h);
      && VarintAt(s, 0, |s|, 10) == Some((h.offset, |Varint(h.offset)|))
      && VarintAt(s, |Varint(h.offset)|, |s|, 10) == Some((h.size, |s|))
  {
    hide VarintAt, Varint;
    var s := HandleBytes(h);
    assert StoredAt(s, 0, |s|, s);
    StoredSplit(s, 0, |s|, Varint(h.offset), Varint(h.size));
    LongLength(h.offset);
    LongLength(h.size);
    VarintRead(s, 0, |s|, 10, h.offset);
    VarintRead(s, |Varint(h.offset)|, |s|, 10, h.size);
  }

  const TRAILER_SIZE: nat := 5
  const NO_COMPRESSION: Byte := 0

  /** The checksum of block contents and type. */
  type Crc = (Bytes, Byte) -> Word

  function Trailer(crc: Crc, contents: Bytes): (t: Bytes)
    ensures |t| == TRAILER_SIZE
  {
    [NO_COMPRESSION] + EncodeFixed32(Mask(crc(contents, NO_COMPRESSION)))
  }

  /** The contents are in the file where the handle says, with their trailer. */
  ghost predicate Written(crc: Crc, file: Bytes, h: Handle, contents: Bytes) {
    && HandleFits(h) && h.size == |contents| && h.offset + h.size + TRAILER_SIZE <= |file|
    && file[h.offset..h.offset + h.size] == contents
    && file[h.offset + h.size..h.offset + h.size + TRAILER_SIZE] == Trailer(crc, contents)
  }

  /** ReadBlock, checking the checksum. */
  method ReadContents(crc: Crc, file: Bytes, h: Handle) returns (r: Option<Bytes>)
    ensures forall c :: Written(crc, file, h, c) ==> r == Some(c)
  {
    if h.offset + h.size + TRAILER_SIZE > |file| { return None; }
    var data := file[h.offset..h.offset + h.size];
    var trailer := file[h.offset + h.size..h.offset + h.size + TRAILER_SIZE];
    forall c | Written(crc, file, h, c)
      ensures c == data && trailer[0] == NO_COMPRESSION && Unmask(DecodeFixed32(trailer[1..])) == crc(data, trailer[0])
    {
      var word := EncodeFixed32(Mask(crc(c, NO_COMPRESSION)));
      assert trailer == Trailer(crc, c) && trailer[1..] == word + [];
      DecodeEncode32(Mask(crc(c, NO_COMPRESSION)), []);
      UnmaskMask(crc(c, NO_COMPRESSION));
    }
    if Unmask(DecodeFixed32(trailer[1..])) != crc(data, trailer[0]) { return None; }
    if trailer[0] != NO_COMPRESSION { return None; }
    r := Some(data);
  }

  // Blocks and their index

  datatype DataBlock = DataBlock(handle: Handle, r: nat, n: nat, pairs: seq<Pair>, marks: seq<Mark>, heads: seq<nat>)

  ghost predicate BlockStored(crc: Crc, file: Bytes, b: DataBlock) {
    exists contents :: Written(crc, file, b.handle, contents) && BlockOk(contents, b.r, b.n, b.pairs, b.marks, b.heads)
  }

  lemma BlockStays(crc: Crc, file: Bytes, more: Bytes, b: DataBlock)
    requires BlockStored(crc, file, b)
    ensures BlockStored(crc, file + more, b)
  {
    hide BlockOk;
    var c :| Written(crc, file, b.handle, c) && BlockOk(c, b.r, b.n, b.pairs, b.marks, b.heads);
    var h := b.handle;
    assert (file + more)[h.offset..h.offset + h.size] == file[h.offset..h.offset + h.size];
    assert (file + more)[h.offset + h.size..h.offset + h.size + TRAILER_SIZE] ==
        file[h.offset + h.size..h.offset + h.size + TRAILER_SIZE];
    assert Written(crc, file + more, h, c);
  }

  function AllPairs(blocks: seq<DataBlock>): seq<Pair> {
    if blocks == [] then [] else AllPairs(blocks[..|blocks| - 1]) + blocks[|blocks| - 1].pairs
  }

  /** Where pair i of block j is among all pairs. */
  lemma {:induction false} PairAt(blocks: seq<DataBlock>, j: nat, i: nat) returns (x: nat)
    requires j < |blocks| && i < |blocks[j].pairs|
    ensures x < |AllPairs(blocks)| && AllPairs(blocks)[x] == blocks[j].pairs[i] && x == |AllPairs(blocks[..j])| + i
    decreases |blocks|
  {
    var init := blocks[..|blocks| - 1];
    if j < |init| {
      x := PairAt(init, j, i);
      assert init[..j] == blocks[..j];
    } else {
      x := |AllPairs(init)| + i;
    }
  }

  lemma {:induction false} PairOf(blocks: seq<DataBlock>, x: nat) returns (j: nat, i: nat)
    requires x < |AllPairs(blocks)|
    ensures j < |blocks| && i < |blocks[j].pairs| && AllPairs(blocks)[x] == blocks[j].pairs[i]
    ensures x == |AllPairs(blocks[..j])| + i
    decreases |blocks|
  {
    var init := blocks[..|blocks| - 1];
    if x < |AllPairs(init)| {
      j, i := PairOf(init, x);
      assert init[..j] == blocks[..j];
    } else {
      j, i := |blocks| - 1, x - |AllPairs(init)|;
    }
  }

  lemma {:induction false} BlocksBefore(blocks: seq<DataBlock>, i: nat, j: nat)
    requires i < j <= |blocks|
    ensures |AllPairs(blocks[..i])| + |blocks[i].pairs| <= |AllPairs(blocks[..j])|
    decreases j
  {
    assert blocks[..j][..j - 1] == blocks[..j - 1];
    if i < j - 1 { BlocksBefore(blocks, i, j - 1); }
  }

  function FirstKey(b: DataBlock): Bytes
    requires b.pairs != []
  {
    b.pairs[0].key
  }

  function LastKey(b: DataBlock): Bytes
    requires b.pairs != []
  {
    b.pairs[|b.pairs| - 1].key
  }

  /** Keys are internal keys, in order. */
  ghost predicate KeysOk(pairs: seq<Pair>) {
    Increasing(pairs, InternalLess) && forall i :: 0 <= i < |pairs| ==> |pairs[i].key| >= TAG_SIZE
  }

  /** A separator lies from the last key of its block on and before the next key; if it is not that
      last key, its user key is smaller than the next one. */
  ghost predicate Separates(sep: Bytes, last: Bytes, next: Option<Bytes>) {
    && |sep| >= TAG_SIZE && |last| >= TAG_SIZE && !InternalLess(sep, last)
    && (next.Some? ==>
      |next.value| >= TAG_SIZE && InternalLess(sep, next.value)
      && (sep == last || BytesLess(UserKey(sep), UserKey(next.value))))
  }

  /** The first key after block j: that of the next block, or of the one being filled. */
  function KeyAfter(blocks: seq<DataBlock>, filling: seq<Pair>, j: nat): Option<Bytes>
    requires forall i :: 0 <= i < |blocks| ==> blocks[i].pairs != []
  {
    if j + 1 < |blocks| then Some(FirstKey(blocks[j + 1])) else if filling != [] then Some(filling[0].key) else None
  }

  ghost predicate NoneEmpty(blocks: seq<DataBlock>) {
    forall i :: 0 <= i < |blocks| ==> blocks[i].pairs != []
  }

  /** Entry j of the index leads to block j. */
  ghost predicate IndexOk(index: seq<Pair>, blocks: seq<DataBlock>, filling: seq<Pair>, j: nat)
    requires NoneEmpty(blocks)
  {
    && j < |index| <= |blocks| && index[j].value == HandleBytes(blocks[j].handle)
    && Separates(index[j].key, LastKey(blocks[j]), KeyAfter(blocks, filling, j))
  }

  // Lookup

  /** The pair at or after the target, of all pairs in order. */
  ghost predicate IsNext(pairs: seq<Pair>, target: Bytes, x: nat) {
    x < |pairs| && !InternalLess(pairs[x].key, target) && forall y :: 0 <= y < x ==> InternalLess(pairs[y].key, target)
  }

  /** What a lookup must say: the next pair if it is of the target's user key. */
  ghost predicate Answers(pairs: seq<Pair>, target: Bytes, r: Option<Pair>)
    requires |target| >= TAG_SIZE
  {
    && (forall x: nat ::
      IsNext(pairs, target, x) && |pairs[x].key| >= TAG_SIZE && UserKey(pairs[x].key) == UserKey(target) ==>
      r == Some(pairs[x]))
    && (r.Some? && |r.value.key| >= TAG_SIZE && UserKey(r.value.key) == UserKey(target) ==>
      exists x: nat :: IsNext(pairs, target, x) && r.value == pairs[x])
  }

  /** Index entry j is the first at or after the target. */
  ghost predicate Chosen(index: seq<Pair>, target: Bytes, j: nat) {
    && j <= |index| && (forall i :: 0 <= i < j ==> InternalLess(index[i].key, target))
    && (j < |index| ==> !InternalLess(index[j].key, target))
  }

  /** All pairs of the blocks before the chosen one come before the target. */
  lemma EarlierBlocks(index: seq<Pair>, blocks: seq<DataBlock>, target: Bytes, j: nat, x: nat)
    requires NoneEmpty(blocks) && |index| == |blocks| && KeysOk(AllPairs(blocks)) && Chosen(index, target, j)
    requires forall i :: 0 <= i < |index| ==> IndexOk(index, blocks, [], i)
    requires x < |AllPairs(blocks[..j])|
    ensures x < |AllPairs(blocks)| && InternalLess(AllPairs(blocks)[x].key, target)
  {
    hide InternalLess;
    var b, i := PairOf(blocks[..j], x);
    assert blocks[..j][..b] == blocks[..b];
    var y := PairAt(blocks, b, i);
    var last := PairAt(blocks, b, |blocks[b].pairs| - 1);
    assert IndexOk(index, blocks, [], b);
    InternalStrict();
    assert y == last || InternalLess(AllPairs(blocks)[y].key, AllPairs(blocks)[last].key);
    assert InternalLess(index[b].key, target);
    NotAfterThenBefore(LastKey(blocks[b]), index[b].key, target);
    if y != last { BeforeThenBefore(AllPairs(blocks)[y].key, LastKey(blocks[b]), target); }
  }

  lemma NotAfterThenBefore(a: Bytes, b: Bytes, c: Bytes)
    requires |a| >= TAG_SIZE && |b| >= TAG_SIZE && !InternalLess(b, a) && InternalLess(b, c)
    ensures InternalLess(a, c)
  {
    LessTotal(UserKey(a), UserKey(b));
    if BytesLess(UserKey(a), UserKey(b)) && BytesLess(UserKey(b), UserKey(c)) {
      LessTransitive(UserKey(a), UserKey(b), UserKey(c));
    }
  }

  lemma BeforeThenBefore(a: Bytes, b: Bytes, c: Bytes)
    requires InternalLess(a, b) && InternalLess(b, c)
    ensures InternalLess(a, c)
  {
    InternalTransitive(a, b, c);
  }

  /** When the chosen block ends before the target, later pairs are of other user keys. */
  lemma LaterBlocks(index: seq<Pair>, blocks: seq<DataBlock>, target: Bytes, j: nat, x: nat)
    requires NoneEmpty(blocks) && |index| == |blocks| && KeysOk(AllPairs(blocks)) && Chosen(index, target, j)
    requires j < |blocks|
    requires forall i :: 0 <= i < |index| ==> IndexOk(index, blocks, [], i)
    requires |target| >= TAG_SIZE && InternalLess(LastKey(blocks[j]), target)
    requires |AllPairs(blocks[..j + 1])| <= x < |AllPairs(blocks)|
    ensures UserKey(AllPairs(blocks)[x].key) != UserKey(target)
  {
    hide InternalLess, BytesLess;
    var b, i := PairOf(blocks, x);
    if b <= j {
      BlocksBefore(blocks, b, j + 1);
      assert false;
    }
    assert IndexOk(index, blocks, [], j);
    var first := PairAt(blocks, j + 1, 0);
    BlocksBeforeOrSame(blocks, j + 1, b);
    var all := AllPairs(blocks);
    assert first <= x && (first < x ==> InternalLess(all[first].key, all[x].key));
    SeparatedUsers(index[j].key, LastKey(blocks[j]), FirstKey(blocks[j + 1]), target, all[x].key);
  }

  lemma BlocksBeforeOrSame(blocks: seq<DataBlock>, i: nat, j: nat)
    requires i <= j < |blocks|
    ensures |AllPairs(blocks[..i])| <= |AllPairs(blocks[..j])|
  {
    if i < j { BlocksBefore(blocks, i, j); }
  }

  lemma SeparatedUsers(sep: Bytes, last: Bytes, next: Bytes, target: Bytes, key: Bytes)
    requires |sep| >= TAG_SIZE && |last| >= TAG_SIZE && |next| >= TAG_SIZE && |target| >= TAG_SIZE && |key| >= TAG_SIZE
    requires InternalLess(last, target) && !InternalLess(sep, target)
    requires sep == last || BytesLess(UserKey(sep), UserKey(next))
    requires key == next || InternalLess(next, key)
    ensures UserKey(key) != UserKey(target)
  {
    NotLess(UserKey(next));
    LessTotal(UserKey(sep), UserKey(target));
    if BytesLess(UserKey(target), UserKey(sep)) { LessTransitive(UserKey(target), UserKey(sep), UserKey(next)); }
    assert BytesLess(UserKey(target), UserKey(next));
    if BytesLess(UserKey(next), UserKey(key)) { LessTransitive(UserKey(target), UserKey(next), UserKey(key)); }
    NotBoth(UserKey(target), UserKey(key));
  }

  // Building

  /** The table's data and index as the builder has them so far. */
  datatype Shape = Shape(blocks: seq<DataBlock>, filling: seq<Pair>, index: seq<Pair>, pending: bool)

  ghost predicate ShapeOk(crc: Crc, file: Bytes, s: Shape, lastKey: Bytes, handle: Handle) {
    && NoneEmpty(s.blocks) && (forall j :: 0 <= j < |s.blocks| ==> BlockStored(crc, file, s.blocks[j]))
    && |s.index| == |s.blocks| - (if s.pending then 1 else 0)
    && (forall j :: 0 <= j < |s.index| ==> IndexOk(s.index, s.blocks, s.filling, j))
    && (s.pending ==> s.filling == [] && s.blocks != [] && handle == s.blocks[|s.blocks| - 1].handle)
    && (!s.pending && s.blocks != [] ==> s.filling != [])
    && var all := AllPairs(s.blocks) + s.filling;
       KeysOk(all) && (all != [] ==> lastKey == all[|all| - 1].key)
  }

  /** The keys of each block, and of the one being filled, are with the filter builder. */
  ghost predicate Filtered(blocks: seq<DataBlock>, filling: seq<Pair>, offset: nat, added: seq<Placed>)
  {
    && (forall j, p :: 0 <= j < |blocks| && p in blocks[j].pairs && |p.key| >= TAG_SIZE ==>
      Placed(blocks[j].handle.offset, UserKey(p.key)) in added)
    && forall p :: p in filling && |p.key| >= TAG_SIZE ==> Placed(offset, UserKey(p.key)) in added
  }

  lemma LastOfAll(blocks: seq<DataBlock>)
    requires NoneEmpty(blocks) && blocks != []
    ensures var all := AllPairs(blocks); all != [] && all[|all| - 1].key == LastKey(blocks[|blocks| - 1])
  {
  }

  /** An index entry for the last block, once the next key is known. */
  lemma IndexAdded(crc: Crc, file: Bytes, s: Shape, lastKey: Bytes, handle: Handle, key: Bytes, value: Bytes,
      sep: Bytes)
    requires ShapeOk(crc, file, s, lastKey, handle) && s.pending
    requires Separates(sep, lastKey, Some(key)) && KeysOk(AllPairs(s.blocks) + [Pair(key, value)])
    ensures ShapeOk(crc, file, Shape(s.blocks, [Pair(key, value)], s.index + [Pair(sep, HandleBytes(handle))], false),
        key, handle)
  {
    hide BlockStored, Separates, KeysOk;
    var index, filling := s.index + [Pair(sep, HandleBytes(handle))], [Pair(key, value)];
    LastOfAll(s.blocks);
    assert AllPairs(s.blocks) + [] == AllPairs(s.blocks);
    forall j | 0 <= j < |index| ensures IndexOk(index, s.blocks, filling, j) {
      if j < |s.index| {
        assert IndexOk(s.index, s.blocks, s.filling, j);
        assert index[j] == s.index[j];
      }
    }
  }

  lemma PairAdded(crc: Crc, file: Bytes, s: Shape, lastKey: Bytes, handle: Handle, p: Pair)
    requires ShapeOk(crc, file, s, lastKey, handle) && !s.pending && KeysOk(AllPairs(s.blocks) + s.filling + [p])
    ensures ShapeOk(crc, file, Shape(s.blocks, s.filling + [p], s.index, false), p.key, handle)
  {
    hide BlockStored, Separates, KeysOk;
    var filling := s.filling + [p];
    assert AllPairs(s.blocks) + filling == AllPairs(s.blocks) + s.filling + [p];
    forall j | 0 <= j < |s.index| ensures IndexOk(s.index, s.blocks, filling, j) {
      assert IndexOk(s.index, s.blocks, s.filling, j);
    }
  }

  /** A pair joins the data block, after the index entry of the block before if that waits. */
  lemma PairJoins(crc: Crc, file: Bytes, s: Shape, lastKey: Bytes, handle: Handle, p: Pair, sep: Bytes)
    requires ShapeOk(crc, file, s, lastKey, handle) && KeysOk(AllPairs(s.blocks) + s.filling + [p])
    requires s.pending ==> Separates(sep, lastKey, Some(p.key))
    ensures ShapeOk(crc, file,
        Shape(s.blocks, s.filling + [p], if s.pending then s.index + [Pair(sep, HandleBytes(handle))]
        else s.index, false), p.key, handle)
  {
    hide BlockStored, Separates, KeysOk;
    if s.pending {
      assert AllPairs(s.blocks) + s.filling + [p] == AllPairs(s.blocks) + [p] && s.filling + [p] == [p];
      IndexAdded(crc, file, s, lastKey, handle, p.key, p.value, sep);
    } else {
      PairAdded(crc, file, s, lastKey, handle, p);
    }
  }

  lemma BlockFlushed(crc: Crc, file: Bytes, s: Shape, lastKey: Bytes, handle: Handle, more: Bytes, b: DataBlock)
    requires ShapeOk(crc, file, s, lastKey, handle) && s.filling != [] && b.pairs == s.filling
    requires BlockStored(crc, file + more, b)
    ensures ShapeOk(crc, file + more, Shape(s.blocks + [b], [], s.index, true), lastKey, b.handle)
  {
    hide BlockStored, Separates, KeysOk;
    var blocks := s.blocks + [b];
    assert blocks[..|s.blocks|] == s.blocks;
    assert AllPairs(blocks) + [] == AllPairs(s.blocks) + s.filling;
    forall j | 0 <= j < |blocks| ensures BlockStored(crc, file + more, blocks[j]) {
      if j < |s.blocks| { BlockStays(crc, file, more, s.blocks[j]); }
    }
    forall j | 0 <= j < |s.index| ensures IndexOk(s.index, blocks, [], j) {
      assert IndexOk(s.index, s.blocks, s.filling, j);
    }
  }

  class TableBuilder {
    const crc: Crc
    const blockSize: nat
    var file: Bytes
    const dataBlock: BlockBuilder
    const indexBlock: BlockBuilder
    const filter: FilterBlockBuilder
    var lastKey: Bytes
    var numEntries: nat
    var pendingIndexEntry: bool
    var pendingHandle: Handle
    ghost var blocks: seq<DataBlock>

    ghost predicate Valid()
      reads this, dataBlock, indexBlock, filter
    {
      && dataBlock != indexBlock && dataBlock.Valid() && indexBlock.Valid() && filter.Valid()
      && ShapeOk(crc, file, State(), lastKey, pendingHandle)
      && |filter.filterOffsets| == |file| / BASE && Filtered(blocks, dataBlock.pairs, |file|, filter.added)
      && numEntries == |Added()| && |file| < MAX_64
    }

    ghost function State(): Shape
      reads this, dataBlock, indexBlock
    {
      Shape(blocks, dataBlock.pairs, indexBlock.pairs, pendingIndexEntry)
    }

    /** The pairs added so far. */
    ghost function Added(): seq<Pair>
      reads this, dataBlock
    {
      AllPairs(blocks) + dataBlock.pairs
    }

    constructor (crc: Crc, blockSize: nat, restartInterval: nat, hash: Hash, bitsPerKey: nat, probes: nat)
      requires restartInterval >= 1 && 1 <= probes <= 30
      ensures Valid() && Added() == [] && this.crc == crc && this.filter.hash == hash
      ensures fresh(dataBlock) && fresh(indexBlock) && fresh(filter)
    {
      this.crc, this.blockSize := crc, blockSize;
      file, lastKey, numEntries, pendingIndexEntry, pendingHandle, blocks := [], [], 0, false, Handle(0, 0), [];
      dataBlock := new BlockBuilder(restartInterval);
      indexBlock := new BlockBuilder(1);
      filter := new FilterBlockBuilder(hash, bitsPerKey, probes);
    }

    /** WriteRawBlock: contents and trailer go to the end of the file. */
    method WriteRawBlock(contents: Bytes) returns (handle: Handle)
      modifies this`file
      ensures file == old(file) + contents + Trailer(crc, contents) && handle == Handle(|old(file)|, |contents|)
      ensures HandleFits(handle) ==> Written(crc, file, handle, contents)
    {
      handle := Handle(|file|, |contents|);
      file := file + contents + Trailer(crc, contents);
      assert file[handle.offset..handle.offset + handle.size] == contents;
      assert file[handle.offset + handle.size..handle.offset + handle.size + TRAILER_SIZE] == Trailer(crc, contents);
    }

    /** Flush: the data block goes to the file; its index entry waits for the next key. */
    method Flush()
      requires Valid() && dataBlock.CurrentSizeEstimate() < MAX_SIZE
      requires |file| + dataBlock.CurrentSizeEstimate() + TRAILER_SIZE < MAX_64
      modifies this`file, this`pendingIndexEntry, this`pendingHandle, this`blocks, dataBlock, filter
      ensures Valid() && Added() == old(Added()) && dataBlock.pairs == []
      ensures dataBlock.CurrentSizeEstimate() == 8
          || dataBlock.CurrentSizeEstimate() == old(dataBlock.CurrentSizeEstimate())
      ensures |file| <= |old(file)| + old(dataBlock.CurrentSizeEstimate()) + TRAILER_SIZE
    {
      hide ShapeOk, BlockStored, Filtered, MayMatch, BlockBuilder.Valid, FilterBlockBuilder.Valid, AllPairs;
      dataBlock.EmptyMeansNoPairs();
      if dataBlock.Empty() { return; }
      ghost var s, was := State(), file;
      ghost var b := WriteDataBlock();
      assert file == was + file[|was|..];
      BlockFlushed(crc, was, s, lastKey, old(pendingHandle), file[|was|..], b);
      FilteredFlush(blocks, s.filling, |was|, |file|, b, filter.added);
      AllWithBlock(blocks, b);
      RangesGrow(|was|, |file|);
      blocks, pendingIndexEntry := blocks + [b], true;
      filter.StartBlock(|file|);
    }

    /** The sizes with which no block grows past four gigabytes and the file past its offsets. */
    predicate Fits(more: nat)
      reads this, dataBlock, indexBlock
    {
      && dataBlock.CurrentSizeEstimate() + more + 19 < MAX_SIZE
        && indexBlock.CurrentSizeEstimate() + |lastKey| + 39 < MAX_SIZE
      && |file| + dataBlock.CurrentSizeEstimate() + more + 19 + TRAILER_SIZE < MAX_64
    }

    /** Add: a data block that has reached its size is flushed. */
    method Add(key: Bytes, value: Bytes)
      requires Valid() && Fits(|key| + |value|) && |key| >= TAG_SIZE && (numEntries > 0 ==> InternalLess(lastKey, key))
      modifies this, dataBlock, indexBlock, filter
      ensures Valid() && Added() == old(Added()) + [Pair(key, value)] && lastKey == key
    {
      hide ShapeOk, BlockStored, Filtered, MayMatch, BlockBuilder.Valid, InternalLess;
      AddPair(key, value);
      if dataBlock.CurrentSizeEstimate() >= blockSize { Flush(); }
    }

    /** The entry of the block before is written to the index now that the next key is known. */
    method AddPair(key: Bytes, value: Bytes)
      requires Valid() && Fits(|key| + |value|) && |key| >= TAG_SIZE && (numEntries > 0 ==> InternalLess(lastKey, key))
      modifies this`lastKey, this`numEntries, this`pendingIndexEntry, dataBlock, indexBlock, filter
      ensures Valid() && Added() == old(Added()) + [Pair(key, value)] && lastKey == key
      ensures dataBlock.CurrentSizeEstimate() <= old(dataBlock.CurrentSizeEstimate()) + |key| + |value| + 19
    {
      hide ShapeOk, BlockStored, Filtered, MayMatch, BlockBuilder.Valid, InternalLess, KeysOk, Separates, AllPairs,
          UserKey, HandleBytes;
      ghost var s, all, sep := State(), Added(), [];
      LastKeyOk();
      KeysAppended(all, lastKey, Pair(key, value));
      if pendingIndexEntry {
        PendingHandleFits();
        sep := AddIndexEntry(key);
        pendingIndexEntry := false;
      }
      PairJoins(crc, file, s, lastKey, pendingHandle, Pair(key, value), sep);
      filter.AddKey(UserKey(key), |file|);
      FilteredAdd(blocks, s.filling, |file|, Pair(key, value), old(filter.added));
      lastKey, numEntries := key, numEntries + 1;
      dataBlock.Add(key, value);
      assert Added() == all + [Pair(key, value)];
    }

    lemma PendingHandleFits()
      requires Valid() && pendingIndexEntry
      ensures HandleFits(pendingHandle)
    {
      assert BlockStored(crc, file, blocks[|blocks| - 1]);
    }

    lemma LastKeyOk()
      requires Valid()
      ensures KeysOk(Added()) && (Added() != [] ==> lastKey == Added()[|Added()| - 1].key)
      ensures (Added() == [] <==> numEntries == 0)
      ensures pendingIndexEntry ==>
          dataBlock.pairs == [] && numEntries > 0 && |lastKey| >= TAG_SIZE && Added() == AllPairs(blocks)
      ensures |indexBlock.pairs| == |blocks| - if pendingIndexEntry then 1 else 0
    {
      if pendingIndexEntry {
        LastOfAll(blocks);
        assert Added() == AllPairs(blocks);
      }
    }

    method AddIndexEntry(key: Bytes) returns (ghost sep: Bytes)
      requires indexBlock.Valid() && |lastKey| >= TAG_SIZE && |key| >= TAG_SIZE && InternalLess(lastKey, key)
      requires indexBlock.CurrentSizeEstimate() + |lastKey| + 39 < MAX_SIZE && HandleFits(pendingHandle)
      modifies indexBlock
      ensures indexBlock.Valid()
      ensures Separates(sep, lastKey, Some(key))
      ensures indexBlock.pairs == old(indexBlock.pairs) + [Pair(sep, HandleBytes(pendingHandle))]
    {
      var separator := InternalSeparator(lastKey, key);
      var value := PutVarint([], pendingHandle.offset);
      value := PutVarint(value, pendingHandle.size);
      assert value == HandleBytes(pendingHandle);
      HandleLength(pendingHandle);
      indexBlock.Add(separator, value);
      sep := separator;
    }

    method WriteDataBlock() returns (ghost b: DataBlock)
      requires dataBlock.Valid() && dataBlock.CurrentSizeEstimate() < MAX_SIZE && |file| < MAX_64
      modifies this`file, this`pendingHandle, dataBlock
      ensures dataBlock.Valid() && dataBlock.pairs == [] && dataBlock.CurrentSizeEstimate() == 8
      ensures old(file) <= file && |file| == |old(file)| + old(dataBlock.CurrentSizeEstimate()) + TRAILER_SIZE
      ensures BlockStored(crc, file, b) && b.pairs == old(dataBlock.pairs) && b.handle == pendingHandle
      ensures b.handle.offset == |old(file)|
    {
      hide BlockStored, BlockBuilder.Valid;
      var handle;
      handle, b := WriteBlock(dataBlock);
      pendingHandle := handle;
    }

    /** WriteBlock: the block goes to the file and its builder starts anew. */
    method WriteBlock(block: BlockBuilder) returns (handle: Handle, ghost b: DataBlock)
      requires block.Valid() && block.CurrentSizeEstimate() < MAX_SIZE
      modifies this`file, block
      ensures block.Valid() && block.pairs == [] && block.CurrentSizeEstimate() == 8
      ensures old(file) <= file && |file| == |old(file)| + old(block.CurrentSizeEstimate()) + TRAILER_SIZE
      ensures |old(file)| < MAX_64 ==> BlockStored(crc, file, b)
      ensures b.pairs == old(block.pairs) && b.handle == handle && handle.offset == |old(file)|
    {
      hide EntriesOk, BlockOk, BlockStored, Offsets, Trailer, Written;
      ghost var r, pairs := |block.buffer|, block.pairs;
      var n := |block.restarts|;
      var raw := block.Finish();
      ghost var marks, heads := block.marks, block.heads;
      BlockSize(raw, r, n, pairs, marks, heads);
      handle := WriteRawBlock(raw);
      b := DataBlock(handle, r, n, pairs, marks, heads);
      if |old(file)| < MAX_64 { StoredFrom(crc, file, b, raw); }
      block.Reset();
    }

    /** Finish: the last block, the filter block, and the index block with an entry for the last
        data block. A table smaller than four gigabytes answers for exactly the pairs added. */
    method Finish() returns (t: Table)
      requires Valid() && Fits(0)
      modifies this, dataBlock, indexBlock, filter
      ensures t.crc == crc && t.hash == filter.hash && t.file == file && AllPairs(t.blocks) == old(Added())
      ensures |file| < MAX_SIZE ==> t.Valid()
    {
      hide ShapeOk, BlockStored, Filtered, MayMatch, BlockBuilder.Valid, InternalLess, KeysOk, Separates, IndexLeads,
          FilterOk, Written, FilterBlock;
      ghost var before := indexBlock.CurrentSizeEstimate();
      Flush();
      ghost var s, flushed := State(), file;
      assert AllPairs(blocks) + [] == AllPairs(blocks);
      var filterBlock := filter.Finish();
      var filterHandle := WriteRawBlock(filterBlock);
      ghost var filtered := file;
      AddLastIndexEntry(s, flushed);
      var indexHandle;
      ghost var index;
      indexHandle, index := WriteBlock(indexBlock);
      if |file| < MAX_SIZE {
        FilterComplete(|flushed|);
        StoredStill(crc, s, lastKey, pendingHandle, flushed, file);
        WrittenStays(crc, filtered, file, filterHandle, filterBlock);
      }
      t := new Table(crc, filter.hash, file, indexHandle, filterHandle, index, blocks, filter.result,
        filter.filterOffsets);
    }

    /** Once the filter builder is done every key of the blocks is in its filter. */
    lemma FilterComplete(offset: nat)
      requires filter.Valid() && filter.keys == [] && Filtered(blocks, [], offset, filter.added)
      requires |FilterBlock(filter.result, filter.filterOffsets)| < MAX_SIZE
      ensures FilterOk(filter.hash, filter.result, filter.filterOffsets, blocks)
    {
      hide MayMatch;
      forall j, p | 0 <= j < |blocks| && p in blocks[j].pairs && |p.key| >= TAG_SIZE
        ensures InFilter(filter.hash, filter.result, filter.filterOffsets,
            Placed(blocks[j].handle.offset, UserKey(p.key)))
      {
        assert filter.Covered(Placed(blocks[j].handle.offset, UserKey(p.key)));
      }
    }

    method AddLastIndexEntry(ghost s: Shape, ghost flushed: Bytes)
      requires ShapeOk(crc, flushed, s, lastKey, pendingHandle) && s == State() && s.filling == [] && indexBlock.Valid()
      requires indexBlock.CurrentSizeEstimate() + |lastKey| + 39 < MAX_SIZE
      modifies indexBlock
      ensures indexBlock.Valid() && IndexLeads(indexBlock.pairs, blocks) && indexBlock.CurrentSizeEstimate() < MAX_SIZE
    {
      hide BlockStored, BlockBuilder.Valid, InternalLess, KeysOk, Separates;
      assert AllPairs(blocks) + [] == AllPairs(blocks);
      if pendingIndexEntry {
        LastOfAll(blocks);
        LastFacts(crc, flushed, s, lastKey, pendingHandle);
        var separator := InternalSuccessor(lastKey);
        var value := PutVarint([], pendingHandle.offset);
        value := PutVarint(value, pendingHandle.size);
        assert value == HandleBytes(pendingHandle);
        HandleLength(pendingHandle);
        indexBlock.Add(separator, value);
        LastIndexed(crc, flushed, s, lastKey, pendingHandle, separator);
      }
    }
  }

  lemma LastFacts(crc: Crc, file: Bytes, s: Shape, lastKey: Bytes, handle: Handle)
    requires ShapeOk(crc, file, s, lastKey, handle) && s.pending
    ensures HandleFits(handle) && |lastKey| >= TAG_SIZE
  {
    assert BlockStored(crc, file, s.blocks[|s.blocks| - 1]);
    LastOfAll(s.blocks);
    assert AllPairs(s.blocks) + s.filling == AllPairs(s.blocks);
  }

  /** With an entry for the last block the index leads to every block. */
  lemma LastIndexed(crc: Crc, file: Bytes, s: Shape, lastKey: Bytes, handle: Handle, sep: Bytes)
    requires ShapeOk(crc, file, s, lastKey, handle) && s.pending && |sep| >= TAG_SIZE && |lastKey| >= TAG_SIZE
    requires !InternalLess(sep, lastKey)
    ensures IndexLeads(s.index + [Pair(sep, HandleBytes(handle))], s.blocks)
  {
    hide BlockStored, KeysOk, InternalLess;
    var index := s.index + [Pair(sep, HandleBytes(handle))];
    LastOfAll(s.blocks);
    assert AllPairs(s.blocks) + s.filling == AllPairs(s.blocks);
    forall j | 0 <= j < |index| ensures IndexOk(index, s.blocks, [], j) {
      if j < |s.index| {
        assert IndexOk(s.index, s.blocks, s.filling, j);
        assert index[j] == s.index[j];
      }
    }
  }

  lemma StoredStill(crc: Crc, s: Shape, lastKey: Bytes, handle: Handle, file: Bytes, longer: Bytes)
    requires ShapeOk(crc, file, s, lastKey, handle) && file <= longer
    ensures forall j :: 0 <= j < |s.blocks| ==> BlockStored(crc, longer, s.blocks[j])
  {
    hide BlockStored, KeysOk;
    assert longer == file + longer[|file|..];
    forall j | 0 <= j < |s.blocks| ensures BlockStored(crc, longer, s.blocks[j]) {
      BlockStays(crc, file, longer[|file|..], s.blocks[j]);
    }
  }

  lemma WrittenStays(crc: Crc, file: Bytes, longer: Bytes, h: Handle, contents: Bytes)
    requires file <= longer && (HandleFits(h) ==> Written(crc, file, h, contents)) && |longer| < MAX_SIZE
    requires h.offset + h.size <= |file|
    ensures Written(crc, longer, h, contents)
  {
    assert longer[h.offset..h.offset + h.size] == file[h.offset..h.offset + h.size];
    assert longer[h.offset + h.size..h.offset + h.size + TRAILER_SIZE] ==
        file[h.offset + h.size..h.offset + h.size + TRAILER_SIZE];
  }

  lemma HandleLength(h: Handle)
    requires HandleFits(h)
    ensures |HandleBytes(h)| <= 20
  {
    LongLength(h.offset);
    LongLength(h.size);
  }

  lemma KeysAppended(all: seq<Pair>, lastKey: Bytes, p: Pair)
    requires KeysOk(all) && |p.key| >= TAG_SIZE
    requires all != [] ==> lastKey == all[|all| - 1].key && InternalLess(lastKey, p.key)
    ensures KeysOk(all + [p])
  {
    hide InternalLess;
    var now := all + [p];
    forall i, j | 0 <= i < j < |now| ensures InternalLess(now[i].key, now[j].key) {
      if j == |all| && i < |all| - 1 {
        InternalTransitive(all[i].key, all[|all| - 1].key, p.key);
      }
    }
  }

  lemma FilteredAdd(blocks: seq<DataBlock>, filling: seq<Pair>, offset: nat, p: Pair, added: seq<Placed>)
    requires Filtered(blocks, filling, offset, added) && |p.key| >= TAG_SIZE
    ensures Filtered(blocks, filling + [p], offset, added + [Placed(offset, UserKey(p.key))])
  {
  }

  lemma FilteredFlush(blocks: seq<DataBlock>, filling: seq<Pair>, offset: nat, next: nat, b: DataBlock,
      added: seq<Placed>)
    requires Filtered(blocks, filling, offset, added) && b.handle.offset == offset && b.pairs == filling
    ensures Filtered(blocks + [b], [], next, added)
  {
  }

  lemma AllWithBlock(blocks: seq<DataBlock>, b: DataBlock)
    ensures AllPairs(blocks + [b]) + [] == AllPairs(blocks) + b.pairs
  {
    assert (blocks + [b])[..|blocks|] == blocks;
  }

  lemma RangesGrow(a: nat, b: nat)
    requires a <= b
    ensures a / BASE <= b / BASE
  {
  }

  lemma BlockSize(data: Bytes, r: nat, n: nat, pairs: seq<Pair>, marks: seq<Mark>, heads: seq<nat>)
    requires BlockOk(data, r, n, pairs, marks, heads)
    ensures |data| == r + 4 * n + 4
  {
  }

  lemma StoredFrom(crc: Crc, file: Bytes, b: DataBlock, contents: Bytes)
    requires Written(crc, file, b.handle, contents) && BlockOk(contents, b.r, b.n, b.pairs, b.marks, b.heads)
    ensures BlockStored(crc, file, b)
  {
  }

  // The finished table

  /** The filter block answers for every key of the blocks. */
  ghost predicate FilterOk(hash: Hash, result: Bytes, offsets: seq<nat>, blocks: seq<DataBlock>) {
    && |FilterBlock(result, offsets)| < MAX_SIZE
    && (forall j :: 0 <= j < |offsets| ==> offsets[j] <= |result|)
    && (forall i, j :: 0 <= i < j < |offsets| ==> offsets[i] <= offsets[j])
    && forall j, p :: 0 <= j < |blocks| && p in blocks[j].pairs && |p.key| >= TAG_SIZE ==>
      InFilter(hash, result, offsets, Placed(blocks[j].handle.offset, UserKey(p.key)))
  }

  ghost predicate InFilter(hash: Hash, result: Bytes, offsets: seq<nat>, p: Placed) {
    p.offset / BASE < |offsets| && MayMatch(hash, p.key, FilterOf(result, offsets, p.offset / BASE))
  }

  ghost predicate IndexLeads(index: seq<Pair>, blocks: seq<DataBlock>) {
    && NoneEmpty(blocks) && |index| == |blocks| && KeysOk(AllPairs(blocks))
    && forall j :: 0 <= j < |index| ==> IndexOk(index, blocks, [], j)
  }

  /** The separators are in order. */
  lemma {:induction false} IndexIncreases(index: seq<Pair>, blocks: seq<DataBlock>, i: nat, j: nat)
    requires IndexLeads(index, blocks) && i < j < |index|
    ensures InternalLess(index[i].key, index[j].key)
    decreases j
  {
    hide InternalLess;
    assert IndexOk(index, blocks, [], j) && IndexOk(index, blocks, [], j - 1);
    var first := PairAt(blocks, j, 0);
    var last := PairAt(blocks, j, |blocks[j].pairs| - 1);
    InternalStrict();
    assert InternalLess(index[j - 1].key, FirstKey(blocks[j]));
    assert first == last || InternalLess(FirstKey(blocks[j]), LastKey(blocks[j]));
    assert !InternalLess(LastKey(blocks[j]), FirstKey(blocks[j])) by {
      if first == last { SelfNotLess(FirstKey(blocks[j])); }
    }
    assert InternalLess(index[j - 1].key, LastKey(blocks[j]));
    assert InternalLess(index[j - 1].key, index[j].key);
    if i < j - 1 {
      IndexIncreases(index, blocks, i, j - 1);
      InternalTransitive(index[i].key, index[j - 1].key, index[j].key);
    }
  }

  ghost function KeysIn(index: seq<Pair>): seq<Bytes> {
    seq(|index|, i requires 0 <= i < |index| => index[i].key)
  }

  ghost function PairsIn(blocks: seq<DataBlock>): seq<seq<Pair>> {
    seq(|blocks|, i requires 0 <= i < |blocks| => blocks[i].pairs)
  }

  /** The index of a table is one the two-level iterator may run over. */
  lemma IndexForIterator(index: seq<Pair>, blocks: seq<DataBlock>)
    requires IndexLeads(index, blocks)
    ensures TwoLevel.Leads(KeysIn(index), PairsIn(blocks), InternalLess)
  {
    hide InternalLess, KeysOk;
    forall b, i | 0 <= b < |blocks| && 0 <= i < |blocks[b].pairs|
      ensures !InternalLess(index[b].key, blocks[b].pairs[i].key)
    {
      NotBeforeOwn(index, blocks, b, i);
    }
    forall b, c, i | 0 <= b < c < |blocks| && 0 <= i < |blocks[c].pairs|
      ensures InternalLess(index[b].key, blocks[c].pairs[i].key)
    {
      BeforeLater(index, blocks, b, c, i);
    }
  }

  lemma NotBeforeOwn(index: seq<Pair>, blocks: seq<DataBlock>, b: nat, i: nat)
    requires IndexLeads(index, blocks) && b < |blocks| && i < |blocks[b].pairs|
    ensures !InternalLess(index[b].key, blocks[b].pairs[i].key)
  {
    hide InternalLess;
    assert IndexOk(index, blocks, [], b);
    var x := PairAt(blocks, b, i);
    var last := PairAt(blocks, b, |blocks[b].pairs| - 1);
    InternalStrict();
    assert x == last || InternalLess(AllPairs(blocks)[x].key, AllPairs(blocks)[last].key);
  }

  lemma BeforeLater(index: seq<Pair>, blocks: seq<DataBlock>, b: nat, c: nat, i: nat)
    requires IndexLeads(index, blocks) && b < c < |blocks| && i < |blocks[c].pairs|
    ensures InternalLess(index[b].key, blocks[c].pairs[i].key)
  {
    hide InternalLess;
    assert IndexOk(index, blocks, [], b);
    var first := PairAt(blocks, b + 1, 0);
    var x := PairAt(blocks, c, i);
    BlocksBeforeOrSame(blocks, b + 1, c);
    InternalStrict();
    assert first == x || InternalLess(AllPairs(blocks)[first].key, AllPairs(blocks)[x].key);
  }

  lemma SelfNotLess(k: Bytes)
    ensures !InternalLess(k, k)
  {
    if |k| >= TAG_SIZE { NotLess(UserKey(k)); }
  }

  /** The block's iterator stands at entry i: the answer, or none in this block. */
  lemma FoundInBlock(index: seq<Pair>, blocks: seq<DataBlock>, target: Bytes, j: nat, i: nat)
    requires IndexLeads(index, blocks) && Chosen(index, target, j) && j < |blocks| && |target| >= TAG_SIZE
    requires i <= |blocks[j].pairs| && (forall x :: 0 <= x < i ==> InternalLess(blocks[j].pairs[x].key, target))
    requires i < |blocks[j].pairs| ==> !InternalLess(blocks[j].pairs[i].key, target)
    ensures Answers(AllPairs(blocks), target, if i < |blocks[j].pairs| then Some(blocks[j].pairs[i]) else None)
  {
    hide InternalLess, KeysOk, IndexOk, Chosen, AllPairs, UserKey;
    var all := AllPairs(blocks);
    forall x: nat | x < |all| && (x < |AllPairs(blocks[..j])| + i) ensures InternalLess(all[x].key, target) {
      BeforeFound(index, blocks, target, j, i, x);
    }
    if i < |blocks[j].pairs| {
      var at := PairAt(blocks, j, i);
      assert IsNext(all, target, at);
    } else {
      UpToBlock(blocks, j);
      forall x: nat | IsNext(all, target, x)
        ensures |all[x].key| >= TAG_SIZE ==> UserKey(all[x].key) != UserKey(target)
      {
        LaterBlocks(index, blocks, target, j, x);
      }
    }
  }

  lemma UpToBlock(blocks: seq<DataBlock>, j: nat)
    requires j < |blocks|
    ensures |AllPairs(blocks[..j + 1])| == |AllPairs(blocks[..j])| + |blocks[j].pairs|
  {
    assert blocks[..j + 1][..j] == blocks[..j];
  }

  lemma BeforeFound(index: seq<Pair>, blocks: seq<DataBlock>, target: Bytes, j: nat, i: nat, x: nat)
    requires IndexLeads(index, blocks) && Chosen(index, target, j) && j < |blocks| && i <= |blocks[j].pairs|
    requires forall y :: 0 <= y < i ==> InternalLess(blocks[j].pairs[y].key, target)
    requires x < |AllPairs(blocks)| && x < |AllPairs(blocks[..j])| + i
    ensures InternalLess(AllPairs(blocks)[x].key, target)
  {
    hide InternalLess, KeysOk, IndexOk, Chosen;
    if x < |AllPairs(blocks[..j])| {
      EarlierBlocks(index, blocks, target, j, x);
    } else {
      var y := PairAt(blocks, j, x - |AllPairs(blocks[..j])|);
    }
  }

  /** Past the last separator there is nothing at or after the target. */
  lemma FoundNowhere(index: seq<Pair>, blocks: seq<DataBlock>, target: Bytes)
    requires IndexLeads(index, blocks) && Chosen(index, target, |index|) && |target| >= TAG_SIZE
    ensures Answers(AllPairs(blocks), target, None)
  {
    hide InternalLess, KeysOk, IndexOk, Chosen;
    assert blocks[..|blocks|] == blocks;
    forall x: nat | x < |AllPairs(blocks)| ensures !IsNext(AllPairs(blocks), target, x) {
      EarlierBlocks(index, blocks, target, |index|, x);
    }
  }

  /** When the filter has no match for the target's user key, the block has no entry of it. */
  lemma FilteredOut(index: seq<Pair>, blocks: seq<DataBlock>, target: Bytes, j: nat)
    requires IndexLeads(index, blocks) && Chosen(index, target, j) && j < |blocks| && |target| >= TAG_SIZE
    requires forall p :: p in blocks[j].pairs && |p.key| >= TAG_SIZE ==> UserKey(p.key) != UserKey(target)
    ensures Answers(AllPairs(blocks), target, None)
  {
    hide InternalLess, KeysOk, IndexOk, Chosen;
    var all := AllPairs(blocks);
    forall x: nat | IsNext(all, target, x) && |all[x].key| >= TAG_SIZE ensures UserKey(all[x].key) != UserKey(target) {
      NotInLaterBlock(index, blocks, target, j, x);
    }
  }

  lemma NotInLaterBlock(index: seq<Pair>, blocks: seq<DataBlock>, target: Bytes, j: nat, x: nat)
    requires IndexLeads(index, blocks) && Chosen(index, target, j) && j < |blocks| && |target| >= TAG_SIZE
    requires forall p :: p in blocks[j].pairs && |p.key| >= TAG_SIZE ==> UserKey(p.key) != UserKey(target)
    requires IsNext(AllPairs(blocks), target, x) && |AllPairs(blocks)[x].key| >= TAG_SIZE
    ensures UserKey(AllPairs(blocks)[x].key) != UserKey(target)
  {
    hide InternalLess, KeysOk, IndexOk, Chosen;
    var all := AllPairs(blocks);
    var b, i := PairOf(blocks, x);
    if b < j {
      BlocksBefore(blocks, b, j);
      EarlierBlocks(index, blocks, target, j, x);
    } else if b == j {
      assert blocks[j].pairs[i] in blocks[j].pairs;
    } else {
      BlocksBefore(blocks, j, b);
      assert blocks[..j + 1][..j] == blocks[..j];
      var last := PairAt(blocks, j, |blocks[j].pairs| - 1);
      LaterBlocks(index, blocks, target, j, x);
    }
  }

  class Table {
    const crc: Crc
    const hash: Hash
    const file: Bytes
    const indexHandle: Handle
    const filterHandle: Handle
    ghost const index: DataBlock
    ghost const blocks: seq<DataBlock>
    ghost const result: Bytes
    ghost const offsets: seq<nat>

    ghost predicate Valid() {
      && BlockStored(crc, file, index) && index.handle == indexHandle
      && (forall j :: 0 <= j < |blocks| ==> BlockStored(crc, file, blocks[j]))
      && IndexLeads(index.pairs, blocks)
      && Written(crc, file, filterHandle, FilterBlock(result, offsets)) && FilterOk(hash, result, offsets, blocks)
    }

    constructor (crc: Crc, hash: Hash, file: Bytes, indexHandle: Handle, filterHandle: Handle,
                 ghost index: DataBlock, ghost blocks: seq<DataBlock>, ghost result: Bytes, ghost offsets: seq<nat>)
      ensures this.crc == crc && this.hash == hash && this.file == file && this.indexHandle == indexHandle
      ensures this.filterHandle == filterHandle
      ensures this.index == index && this.blocks == blocks && this.result == result && this.offsets == offsets
    {
      this.crc, this.hash, this.file, this.indexHandle, this.filterHandle := crc, hash, file, indexHandle, filterHandle;
      this.index, this.blocks, this.result, this.offsets := index, blocks, result, offsets;
    }

    /** An iterator over the stored block, at the first entry at or after the target. */
    method SeekBlock(handle: Handle, target: Bytes, ghost b: DataBlock) returns (it: Iter)
      requires BlockStored(crc, file, b) && b.handle == handle && Increasing(b.pairs, InternalLess)
      ensures fresh(it) && it.Valid() && it.pairs == b.pairs
      ensures forall i :: 0 <= i < it.at ==> InternalLess(b.pairs[i].key, target)
      ensures it.at < |b.pairs| ==> !InternalLess(b.pairs[it.at].key, target)
    {
      hide BlockOk, InternalLess, Increasing;
      ghost var c :| Written(crc, file, handle, c) && BlockOk(c, b.r, b.n, b.pairs, b.marks, b.heads);
      var read := ReadContents(crc, file, handle);
      BuiltBlockOpens(c, b.r, b.n, b.pairs, b.marks, b.heads);
      var layout := OpenBlock(read.value);
      it := new Iter(read.value, InternalLess, b.pairs, b.marks, b.heads, layout.value.0, layout.value.1);
      InternalStrict();
      it.Seek(target);
    }

    method FilterMatches(offset: nat, key: Bytes) returns (b: bool)
      requires Valid()
      ensures InFilter(hash, result, offsets, Placed(offset, key)) ==> b
    {
      hide IndexLeads, BlockStored, MayMatch, DecodeFixed32, EncodeFixed32;
      var read := ReadContents(crc, file, filterHandle);
      var reader := new FilterBlockReader(hash, read.value);
      if InFilter(hash, result, offsets, Placed(offset, key)) {
        NoFalseNegatives(hash, result, offsets, Placed(offset, key));
      }
      b := reader.KeyMayMatch(offset, key);
    }

    /** InternalGet: through index, filter and block. Whenever it hands over an entry of the
        target's user key that is the first at or after the target of all pairs added, and if
        there is such an entry it hands it over. */
    method InternalGet(target: Bytes) returns (r: Option<Pair>)
      requires Valid() && |target| >= TAG_SIZE
      ensures Answers(AllPairs(blocks), target, r)
    {
      hide InternalLess, BlockOk, IndexOk, KeysOk, FilterOk, Answers, BlockStored;
      IndexInOrder();
      var it := SeekBlock(indexHandle, target, index);
      it.ValidIsInside();
      ghost var j := it.at;
      assert Chosen(index.pairs, target, j);
      if !it.IsValid() {
        FoundNowhere(index.pairs, blocks, target);
        return None;
      }
      LeadsTo(j);
      var decoded := DecodeHandle(it.data[it.valueStart..it.valueEnd]);
      var handle := decoded.value;
      var mayMatch := FilterMatches(handle.offset, UserKey(target));
      if !mayMatch {
        NotInBlock(j, target);
        FilteredOut(index.pairs, blocks, target, j);
        return None;
      }
      var data := SeekBlock(handle, target, blocks[j]);
      data.ValidIsInside();
      FoundInBlock(index.pairs, blocks, target, j, data.at);
      if !data.IsValid() { return None; }
      r := Some(Pair(data.key, data.data[data.valueStart..data.valueEnd]));
    }

    lemma IndexInOrder()
      requires Valid()
      ensures Increasing(index.pairs, InternalLess) && |index.pairs| == |blocks|
    {
      forall i, j | 0 <= i < j < |index.pairs| ensures InternalLess(index.pairs[i].key, index.pairs[j].key) {
        IndexIncreases(index.pairs, blocks, i, j);
      }
    }

    lemma LeadsTo(j: nat)
      requires Valid() && j < |index.pairs|
      ensures j < |blocks| && index.pairs[j].value == HandleBytes(blocks[j].handle) && HandleFits(blocks[j].handle)
      ensures BlockStored(crc, file, blocks[j]) && Increasing(blocks[j].pairs, InternalLess)
    {
      hide InternalLess, BlockOk;
      assert IndexOk(index.pairs, blocks, [], j) && BlockStored(crc, file, blocks[j]);
      var pairs := blocks[j].pairs;
      forall x, y | 0 <= x < y < |pairs| ensures InternalLess(pairs[x].key, pairs[y].key) {
        var a := PairAt(blocks, j, x);
        var b := PairAt(blocks, j, y);
      }
    }

    /** A key the filter rules out is not in the block. */
    lemma NotInBlock(j: nat, target: Bytes)
      requires Valid() && j < |blocks| && |target| >= TAG_SIZE
      requires !InFilter(hash, result, offsets, Placed(blocks[j].handle.offset, UserKey(target)))
      ensures forall p :: p in blocks[j].pairs && |p.key| >= TAG_SIZE ==> UserKey(p.key) != UserKey(target)
    {
    }
  }
}
