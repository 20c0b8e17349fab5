/** Blocks of a table (table/block_builder.cc, table/block.cc): keys share prefixes with the one
    before, but for restart points, whose offsets follow the entries. */
module Block {
  import opened Format
  import opened Coding

  datatype Pair = Pair(key: Bytes, value: Bytes)

  /** Where an entry is and what it needs: its offset, the bytes of the key it shares with the
      entry before. */
  datatype Mark = Mark(offset: nat, shared: nat)

  const MAX_SIZE: nat := 0x1_0000_0000

  function EntryBytes(shared: nat, p: Pair): Bytes
    requires shared <= |p.key|
  {
    Varint(shared) + Varint(|p.key| - shared) + Varint(|p.value|) + p.key[shared..] + p.value
  }

  /** The offset after entry i - 1: where entry i begins, or where the entries end. */
  function OffsetOf(marks: seq<Mark>, end: nat, i: nat): nat
    requires i <= |marks|
  {
    if i < |marks| then marks[i].offset else end
  }

  /** Entry i is stored at its offset. */
  ghost predicate EntryOk(data: Bytes, end: nat, pairs: seq<Pair>, marks: seq<Mark>, i: nat)
  {
    && i < |pairs| == |marks| && end <= |data|
    && var m, p := marks[i], pairs[i];
       && m.shared <= |p.key| && |p.key| < MAX_SIZE && |p.value| < MAX_SIZE
       && (m.shared > 0 ==>
         i > 0 && m.shared <= |pairs[i - 1].key| && pairs[i - 1].key[..m.shared] == p.key[..m.shared])
       && StoredAt(data, m.offset, end, EntryBytes(m.shared, p))
       && OffsetOf(marks, end, i + 1) == m.offset + |EntryBytes(m.shared, p)|
  }

  /** The entries fill data[..end] one after another; `heads` are the entries at restart points,
      which share nothing. */
  ghost predicate EntriesOk(data: Bytes, end: nat, pairs: seq<Pair>, marks: seq<Mark>, heads: seq<nat>) {
    && |marks| == |pairs| && end <= |data| && OffsetOf(marks, end, 0) == 0
    && (forall i :: 0 <= i < |pairs| ==> EntryOk(data, end, pairs, marks, i))
    && heads != [] && heads[0] == 0 && (forall j :: 0 <= j < |heads| ==> HeadOk(marks, heads, j))
  }

  ghost predicate HeadOk(marks: seq<Mark>, heads: seq<nat>, j: nat) {
    && j < |heads| && (heads[j] < |marks| || (j == 0 && heads[j] == 0))
    && (heads[j] < |marks| ==> marks[heads[j]].shared == 0)
    && (j > 0 ==> heads[j - 1] < heads[j])
  }

  lemma EntryLength(data: Bytes, end: nat, pairs: seq<Pair>, marks: seq<Mark>, i: nat)
    requires EntryOk(data, end, pairs, marks, i)
    ensures marks[i].offset + 3 <= OffsetOf(marks, end, i + 1) <= end
  {
  }

  /** Later entries have higher offsets. */
  lemma {:induction false} OffsetsIncrease(data: Bytes, end: nat, pairs: seq<Pair>, marks: seq<Mark>, heads: seq<nat>,
      i: nat, j: nat)
    requires EntriesOk(data, end, pairs, marks, heads) && i < j <= |marks|
    ensures OffsetOf(marks, end, i) < OffsetOf(marks, end, j) <= end
    decreases j
  {
    assert EntryOk(data, end, pairs, marks, j - 1);
    EntryLength(data, end, pairs, marks, j - 1);
    if i < j - 1 {
      OffsetsIncrease(data, end, pairs, marks, heads, i, j - 1);
    }
  }

  lemma {:induction false} HeadsIncrease(marks: seq<Mark>, heads: seq<nat>, i: nat, j: nat)
    requires i < j < |heads| && forall k :: 0 <= k < |heads| ==> HeadOk(marks, heads, k)
    ensures heads[i] < heads[j]
    decreases j
  {
    assert HeadOk(marks, heads, j);
    if i < j - 1 {
      HeadsIncrease(marks, heads, i, j - 1);
    }
  }

  // Building

  /** The restart array and its length. */
  function RestartBytes(restarts: seq<nat>): Bytes {
    if restarts == [] then []
        else RestartBytes(restarts[..|restarts| - 1]) + EncodeFixed32(restarts[|restarts| - 1] % MAX_SIZE)
  }

  lemma {:induction false} RestartBytesAt(restarts: seq<nat>, j: nat)
    requires j < |restarts|
    ensures |RestartBytes(restarts)| == 4 * |restarts|
    ensures RestartBytes(restarts)[4 * j..4 * j + 4] == EncodeFixed32(restarts[j] % MAX_SIZE)
    decreases |restarts|
  {
    var init := restarts[..|restarts| - 1];
    if init == [] {
    } else if j < |init| {
      RestartBytesAt(init, j);
      assert RestartBytes(restarts)[4 * j..4 * j + 4] == RestartBytes(init)[4 * j..4 * j + 4];
    } else {
      RestartBytesAt(init, 0);
    }
  }

  ghost predicate Offsets(restarts: seq<nat>, marks: seq<Mark>, end: nat, heads: seq<nat>) {
    && |restarts| == |heads|
    && forall j :: 0 <= j < |heads| ==> heads[j] <= |marks| && restarts[j] == OffsetOf(marks, end, heads[j])
  }

  /** The block whose entries end at r, with n restart points. */
  ghost predicate BlockOk(data: Bytes, r: nat, n: nat, pairs: seq<Pair>, marks: seq<Mark>, heads: seq<nat>) {
    && EntriesOk(data, r, pairs, marks, heads) && |heads| == n
    && |data| == r + 4 * n + 4 && |data| < MAX_SIZE && DecodeFixed32(data[r + 4 * n..]) == n
    && forall j :: 0 <= j < n ==> RestartOk(data, r, marks, heads, j)
  }

  ghost predicate RestartOk(data: Bytes, r: nat, marks: seq<Mark>, heads: seq<nat>, j: nat) {
    && j < |heads| && r + 4 * j + 4 <= |data| && heads[j] <= |marks|
    && DecodeFixed32(data[r + 4 * j..]) == OffsetOf(marks, r, heads[j])
  }

  lemma RestartFits(buffer: Bytes, pairs: seq<Pair>, marks: seq<Mark>, heads: seq<nat>, restarts: seq<nat>, j: nat)
    requires EntriesOk(buffer, |buffer|, pairs, marks, heads) && Offsets(restarts, marks, |buffer|, heads)
    requires j < |restarts|
    ensures restarts[j] <= |buffer|
  {
    if heads[j] < |marks| {
      OffsetsIncrease(buffer, |buffer|, pairs, marks, heads, heads[j], |marks|);
    }
  }

  lemma EntriesPrefix(buffer: Bytes, more: Bytes, pairs: seq<Pair>, marks: seq<Mark>, heads: seq<nat>)
    requires EntriesOk(buffer, |buffer|, pairs, marks, heads)
    ensures EntriesOk(buffer + more, |buffer|, pairs, marks, heads)
  {
    hide EntryBytes;
    forall i | 0 <= i < |pairs| ensures EntryOk(buffer + more, |buffer|, pairs, marks, i) {
      assert EntryOk(buffer, |buffer|, pairs, marks, i);
      var at, n := marks[i].offset, |EntryBytes(marks[i].shared, pairs[i])|;
      assert (buffer + more)[at..at + n] == buffer[at..at + n];
    }
  }

  lemma FinishedOk(buffer: Bytes, pairs: seq<Pair>, marks: seq<Mark>, heads: seq<nat>, restarts: seq<nat>)
    requires EntriesOk(buffer, |buffer|, pairs, marks, heads) && Offsets(restarts, marks, |buffer|, heads)
    requires |buffer| + 4 * |restarts| + 4 < MAX_SIZE
    ensures BlockOk(buffer + RestartBytes(restarts) + EncodeFixed32(|restarts|), |buffer|, |restarts|, pairs,
        marks, heads)
  {
    hide EntriesOk, Offsets, EncodeFixed32, DecodeFixed32, RestartBytes;
    var rb, r, tail := RestartBytes(restarts), |buffer|, EncodeFixed32(|restarts|);
    var data := buffer + rb + tail;
    assert data == buffer + (rb + tail);
    EntriesPrefix(buffer, rb + tail, pairs, marks, heads);
    HeadsNotEmpty(buffer, r, pairs, marks, heads);
    OffsetsAt(restarts, marks, r, heads);
    RestartBytesAt(restarts, 0);
    assert data[r + 4 * |restarts|..] == tail;
    assert tail == EncodeFixed32(|restarts|) + [];
    DecodeEncode32(|restarts|, []);
    WordBytes(|restarts|);
    forall j | 0 <= j < |restarts| ensures RestartOk(data, r, marks, heads, j) {
      RestartFits(buffer, pairs, marks, heads, restarts, j);
      RestartStored(buffer, restarts, tail, j);
    }
  }

  lemma OffsetsAt(restarts: seq<nat>, marks: seq<Mark>, end: nat, heads: seq<nat>)
    requires Offsets(restarts, marks, end, heads)
    ensures |restarts| == |heads| && forall j :: 0 <= j < |heads| ==>
        heads[j] <= |marks| && restarts[j] == OffsetOf(marks, end, heads[j])
  {
  }

  lemma RestartStored(buffer: Bytes, restarts: seq<nat>, tail: Bytes, j: nat)
    requires j < |restarts| && restarts[j] < MAX_SIZE && |tail| == 4
    ensures var data := buffer + RestartBytes(restarts) + tail;
      |buffer| + 4 * j + 4 <= |data| && DecodeFixed32(data[|buffer| + 4 * j..]) == restarts[j]
  {
    hide RestartBytes, DecodeFixed32, EncodeFixed32;
    var rb, r := RestartBytes(restarts), |buffer|;
    var data := buffer + rb + tail;
    RestartBytesAt(restarts, j);
    var word, rest := EncodeFixed32(restarts[j]), data[r + 4 * j + 4..];
    MiddleOf(buffer, rb, tail, 4 * j, 4 * j + 4);
    assert data[r + 4 * j..] == word + rest;
    DecodeEncode32(restarts[j], rest);
  }

  lemma MiddleOf(a: Bytes, b: Bytes, c: Bytes, i: nat, j: nat)
    requires i <= j <= |b|
    ensures (a + b + c)[|a| + i..|a| + j] == b[i..j]
  {
  }

  lemma HeadsNotEmpty(data: Bytes, end: nat, pairs: seq<Pair>, marks: seq<Mark>, heads: seq<nat>)
    requires EntriesOk(data, end, pairs, marks, heads)
    ensures heads != [] && |marks| == |pairs|
  {
  }

  class BlockBuilder {
    var buffer: Bytes
    var restarts: seq<nat>
    var counter: nat
    var finished: bool
    var lastKey: Bytes
    const restartInterval: nat
    ghost var pairs: seq<Pair>
    ghost var marks: seq<Mark>
    ghost var heads: seq<nat>

    ghost predicate Valid()
      reads this
    {
      && restartInterval >= 1 && !finished
      && EntriesOk(buffer, |buffer|, pairs, marks, heads) && Offsets(restarts, marks, |buffer|, heads)
      && lastKey == (if pairs == [] then [] else pairs[|pairs| - 1].key)
      && (pairs == [] ==> counter == 0)
    }

    constructor (restartInterval: nat)
      requires restartInterval >= 1
      ensures Valid() && pairs == [] && this.restartInterval == restartInterval
    {
      this.restartInterval := restartInterval;
      buffer, restarts, counter, finished, lastKey := [], [0], 0, false, [];
      pairs, marks, heads := [], [], [0];
    }

    method Reset()
      requires restartInterval >= 1
      modifies this
      ensures Valid() && pairs == [] && CurrentSizeEstimate() == 8
    {
      buffer, restarts, counter, finished, lastKey := [], [0], 0, false, [];
      pairs, marks, heads := [], [], [0];
    }

    function CurrentSizeEstimate(): nat
      reads this
    {
      |buffer| + 4 * |restarts| + 4
    }

    /** Whether nothing was added. */
    predicate Empty()
      reads this
    {
      buffer == []
    }

    lemma EmptyMeansNoPairs()
      requires Valid()
      ensures Empty() <==> pairs == []
    {
      if pairs != [] { EntryLength(buffer, |buffer|, pairs, marks, 0); }
    }

    /** Finish: the restart array and its length follow the entries. */
    method Finish() returns (data: Bytes)
      requires Valid() && |buffer| + 4 * |restarts| + 4 < MAX_SIZE
      modifies this`buffer, this`finished
      ensures BlockOk(data, |old(buffer)|, |restarts|, pairs, marks, heads) && finished
    {
      hide EntriesOk, Offsets, BlockOk, EncodeFixed32;
      ghost var before := buffer;
      var all := buffer;
      for i := 0 to |restarts|
        invariant all == before + RestartBytes(restarts[..i])
        invariant EntriesOk(before, |before|, pairs, marks, heads) && Offsets(restarts, marks, |before|, heads)
      {
        assert restarts[..i + 1][..i] == restarts[..i];
        RestartFits(before, pairs, marks, heads, restarts, i);
        all := all + EncodeFixed32(restarts[i]);
      }
      assert restarts[..|restarts|] == restarts;
      data := all + EncodeFixed32(|restarts|);
      FinishedOk(before, pairs, marks, heads, restarts);
      assert data == before + RestartBytes(restarts) + EncodeFixed32(|restarts|);
      buffer, finished := data, true;
    }

    /** How much of the key the last one has too. */
    method Shared(key: Bytes) returns (shared: nat)
      ensures shared <= |lastKey| && shared <= |key| && lastKey[..shared] == key[..shared]
    {
      shared := 0;
      var minLength := if |lastKey| < |key| then |lastKey| else |key|;
      while shared < minLength && lastKey[shared] == key[shared]
        invariant shared <= minLength && lastKey[..shared] == key[..shared]
      {
        shared := shared + 1;
      }
    }

    method AppendBytes(shared: nat, key: Bytes, value: Bytes)
      requires shared <= |key|
      modifies this`buffer
      ensures buffer == old(buffer) + EntryBytes(shared, Pair(key, value))
    {
      ghost var before := buffer;
      var b := PutVarint(buffer, shared);
      b := PutVarint(b, |key| - shared);
      b := PutVarint(b, |value|);
      buffer := b + key[shared..] + value;
      var v, w, x, y, z := Varint(shared), Varint(|key| - shared), Varint(|value|), key[shared..], value;
      assert before + v + w + x + y + z == before + (v + w + x + y + z);
    }

    /** Appends a pair, sharing with the last key what it can. */
    method Add(key: Bytes, value: Bytes)
      requires Valid() && |key| < MAX_SIZE && |value| < MAX_SIZE
      modifies this
      ensures Valid() && pairs == old(pairs) + [Pair(key, value)]
      ensures CurrentSizeEstimate() <= old(CurrentSizeEstimate()) + |key| + |value| + 19
    {
      hide EntriesOk, EntryBytes, Offsets;
      EntrySize(key, value);
      var shared := 0;
      ghost var restart := counter >= restartInterval;
      if counter < restartInterval {
        shared := Shared(key);
      } else {
        restarts := restarts + [|buffer|];
        counter := 0;
      }
      AppendEntry(buffer, pairs, marks, heads, Pair(key, value), shared, restart);
      AppendOffsets(old(restarts), marks, |buffer|, heads, Mark(|buffer|, shared), restart);
      AppendBytes(shared, key, value);
      heads := if restart then heads + [|pairs|] else heads;
      marks := marks + [Mark(|old(buffer)|, shared)];
      pairs := pairs + [Pair(key, value)];
      OffsetsLonger(restarts, marks, heads, |old(buffer)|, |buffer|);
      lastKey := lastKey[..shared] + key[shared..];
      assert lastKey == key;
      counter := counter + 1;
    }
  }

  lemma EntrySize(key: Bytes, value: Bytes)
    requires |key| < MAX_SIZE && |value| < MAX_SIZE
    ensures forall shared: nat :: shared <= |key| ==> |EntryBytes(shared, Pair(key, value))| <= |key| + |value| + 15
  {
    forall shared: nat | shared <= |key| ensures |EntryBytes(shared, Pair(key, value))| <= |key| + |value| + 15 {
      WordLength(shared);
      WordLength(|key| - shared);
      WordLength(|value|);
    }
  }

  lemma EntryKept(buffer: Bytes, pairs: seq<Pair>, marks: seq<Mark>, p: Pair, shared: nat, more: Bytes, i: nat)
    requires EntryOk(buffer, |buffer|, pairs, marks, i)
    ensures EntryOk(buffer + more, |buffer + more|, pairs + [p], marks + [Mark(|buffer|, shared)], i)
  {
    hide EntryBytes;
    var bytes := EntryBytes(marks[i].shared, pairs[i]);
    var at := marks[i].offset;
    assert (buffer + more)[at..at + |bytes|] == buffer[at..at + |bytes|];
  }

  /** One entry more at the end, at a restart point or not. */
  lemma AppendEntry(buffer: Bytes, pairs: seq<Pair>, marks: seq<Mark>, heads: seq<nat>, p: Pair, shared: nat,
      restart: bool)
    requires EntriesOk(buffer, |buffer|, pairs, marks, heads)
    requires shared <= |p.key| && |p.key| < MAX_SIZE && |p.value| < MAX_SIZE && (restart ==> shared == 0 && pairs != [])
    requires shared > 0 ==>
        pairs != [] && shared <= |pairs[|pairs| - 1].key| && pairs[|pairs| - 1].key[..shared] == p.key[..shared]
    ensures var now := buffer + EntryBytes(shared, p);
      EntriesOk(now, |now|, pairs + [p], marks + [Mark(|buffer|, shared)], if restart then heads + [|pairs|] else heads)
    ensures |marks| == |pairs| && forall j :: 0 <= j < |heads| ==> heads[j] <= |marks|
  {
    hide EntryBytes;
    var bytes := EntryBytes(shared, p);
    var now, ps, ms := buffer + bytes, pairs + [p], marks + [Mark(|buffer|, shared)];
    var hs := if restart then heads + [|pairs|] else heads;
    forall i | 0 <= i < |ps| ensures EntryOk(now, |now|, ps, ms, i) {
      if i < |pairs| {
        assert EntryOk(buffer, |buffer|, pairs, marks, i);
        EntryKept(buffer, pairs, marks, p, shared, bytes, i);
      } else {
        assert now[|buffer|..|buffer| + |bytes|] == bytes;
      }
    }
    forall j | 0 <= j < |heads| ensures heads[j] <= |marks| {
      assert HeadOk(marks, heads, j);
    }
    forall j | 0 <= j < |hs| ensures HeadOk(ms, hs, j) {
      assert j < |heads| ==> HeadOk(marks, heads, j);
      assert j == |heads| ==> HeadOk(marks, heads, j - 1);
    }
  }

  lemma AppendOffsets(restarts: seq<nat>, marks: seq<Mark>, end: nat, heads: seq<nat>, m: Mark, restart: bool)
    requires Offsets(restarts, marks, end, heads) && m.offset == end
    ensures Offsets(if restart then restarts + [end] else restarts, marks + [m], end, if restart then heads + [|marks|]
        else heads)
  {
  }

  lemma OffsetsLonger(restarts: seq<nat>, marks: seq<Mark>, heads: seq<nat>, end: nat, longer: nat)
    requires Offsets(restarts, marks, end, heads) && forall j :: 0 <= j < |heads| ==> heads[j] < |marks|
    ensures Offsets(restarts, marks, longer, heads)
  {
  }

  // Reading entries

  datatype Decoded = Decoded(shared: nat, nonShared: nat, valueLength: nat, next: nat)

  /** The three numbers an entry begins with, when the rest of it is before the limit. */
  function DecodedAt(data: Bytes, p: nat, limit: nat): Option<Decoded>
    requires limit <= |data|
  {
    if limit < p + 3 then None
    else
      var a := VarintAt(data, p, limit, 5);
      if a.None? then None else
      var b := VarintAt(data, a.value.1, limit, 5);
      if b.None? then None else
      var c := VarintAt(data, b.value.1, limit, 5);
      if c.None? then None else
      var d := Decoded(a.value.0 % MAX_SIZE, b.value.0 % MAX_SIZE, c.value.0 % MAX_SIZE, c.value.1);
      if limit - d.next < (d.nonShared + d.valueLength) % MAX_SIZE then None else Some(d)
  }

  lemma OneByte(data: Bytes, p: nat, limit: nat)
    requires p < limit <= |data|
    ensures data[p] < 128 ==> VarintAt(data, p, limit, 5) == Some((data[p] as nat, p + 1))
  {
  }

  /** DecodeEntry, with its fast path for three numbers of one byte each. */
  method DecodeEntry(data: Bytes, p: nat, limit: nat) returns (r: Option<Decoded>)
    requires limit <= |data|
    ensures r == DecodedAt(data, p, limit)
  {
    hide VarintAt;
    if limit < p + 3 { return None; }
    var d := Decoded(data[p] as nat, data[p + 1] as nat, data[p + 2] as nat, p + 3);
    OneByte(data, p, limit);
    OneByte(data, p + 1, limit);
    OneByte(data, p + 2, limit);
    if d.shared < 128 && d.nonShared < 128 && d.valueLength < 128 { ThreeNumbers(data, p, limit, d, p + 1, p + 2); }
    if d.shared >= 128 || d.nonShared >= 128 || d.valueLength >= 128 {
      var a := GetVarint32(data, p, limit);
      if a.None? { return None; }
      var b := GetVarint32(data, a.value.1, limit);
      if b.None? { return None; }
      var c := GetVarint32(data, b.value.1, limit);
      if c.None? { return None; }
      d := Decoded(a.value.0, b.value.0, c.value.0, c.value.1);
    }
    if limit - d.next < (d.nonShared + d.valueLength) % MAX_SIZE { return None; }
    return Some(d);
  }

  lemma StoredSplit(s: Bytes, p: nat, limit: nat, a: Bytes, b: Bytes)
    requires StoredAt(s, p, limit, a + b)
    ensures StoredAt(s, p, limit, a) && StoredAt(s, p + |a|, limit, b)
  {
    var n := |a| + |b|;
    assert s[p..p + |a|] == s[p..p + n][..|a|];
    assert s[p + |a|..p + n] == s[p..p + n][|a|..];
  }

  function HeaderLength(shared: nat, p: Pair): nat
    requires shared <= |p.key|
  {
    |Varint(shared)| + |Varint(|p.key| - shared)| + |Varint(|p.value|)|
  }

  /** A stored entry is decoded to what was encoded. */
  lemma DecodeStored(data: Bytes, p: nat, limit: nat, shared: nat, pair: Pair)
    requires shared <= |pair.key| && |pair.key| < MAX_SIZE && |pair.value| < MAX_SIZE
    requires StoredAt(data, p, limit, EntryBytes(shared, pair)) && |data| < MAX_SIZE
    ensures var q := p + HeaderLength(shared, pair); var n := |pair.key| - shared;
      && DecodedAt(data, p, limit) == Some(Decoded(shared, n, |pair.value|, q))
      && q + n + |pair.value| == p + |EntryBytes(shared, pair)| <= |data|
      && data[q..q + n] == pair.key[shared..] && data[q + n..q + n + |pair.value|] == pair.value
  {
    hide VarintAt, StoredAt, Varint, EntryBytes, DecodedAt;
    SplitEntry(data, p, limit, shared, pair);
    WordLength(shared);
    WordLength(|pair.key| - shared);
    WordLength(|pair.value|);
    var x, y := p + |Varint(shared)|, p + |Varint(shared)| + |Varint(|pair.key| - shared)|;
    VarintRead(data, p, limit, 5, shared);
    VarintRead(data, x, limit, 5, |pair.key| - shared);
    VarintRead(data, y, limit, 5, |pair.value|);
    ThreeNumbers(data, p, limit,
      Decoded(shared, |pair.key| - shared, |pair.value|, p + HeaderLength(shared, pair)), x, y);
  }

  lemma ThreeNumbers(data: Bytes, p: nat, limit: nat, d: Decoded, x: nat, y: nat)
    requires p + 3 <= limit <= |data| && d.shared < MAX_SIZE && d.nonShared < MAX_SIZE && d.valueLength < MAX_SIZE
    requires VarintAt(data, p, limit, 5) == Some((d.shared, x)) && VarintAt(data, x, limit, 5) == Some((d.nonShared, y))
    requires VarintAt(data, y, limit, 5) == Some((d.valueLength, d.next))
    ensures DecodedAt(data, p, limit) == if limit - d.next < (d.nonShared + d.valueLength) % MAX_SIZE then None
        else Some(d)
  {
    hide VarintAt;
  }

  /** The five pieces of a stored entry. */
  lemma SplitEntry(data: Bytes, p: nat, limit: nat, shared: nat, pair: Pair)
    requires shared <= |pair.key| && StoredAt(data, p, limit, EntryBytes(shared, pair))
    ensures var a, b, c := Varint(shared), Varint(|pair.key| - shared), Varint(|pair.value|);
      var q := p + HeaderLength(shared, pair); var n := |pair.key| - shared;
      && StoredAt(data, p, limit, a) && StoredAt(data, p + |a|, limit, b) && StoredAt(data, p + |a| + |b|, limit, c)
      && |a| > 0 && |b| > 0 && |c| > 0
      && q + n + |pair.value| == p + |EntryBytes(shared, pair)| <= limit <= |data|
      && data[q..q + n] == pair.key[shared..] && data[q + n..q + n + |pair.value|] == pair.value
  {
    hide Varint;
    var a, b, c := Varint(shared), Varint(|pair.key| - shared), Varint(|pair.value|);
    var x, y := pair.key[shared..], pair.value;
    assert EntryBytes(shared, pair) == a + (b + (c + (x + y)));
    StoredSplit(data, p, limit, a, b + (c + (x + y)));
    StoredSplit(data, p + |a|, limit, b, c + (x + y));
    StoredSplit(data, p + |a| + |b|, limit, c, x + y);
    StoredSplit(data, p + |a| + |b| + |c|, limit, x, y);
  }

  /** A strict order of keys. */
  type Order = (Bytes, Bytes) -> bool

  ghost predicate Strict(less: Order) {
    && (forall a, b :: less(a, b) ==> !less(b, a))
    && (forall a, b, c :: less(a, b) && less(b, c) ==> less(a, c))
    && (forall a, b, c :: less(a, b) && !less(c, b) ==> less(a, c))
  }

  ghost predicate Increasing(pairs: seq<Pair>, less: Order) {
    forall i, j :: 0 <= i < j < |pairs| ==> less(pairs[i].key, pairs[j].key)
  }

  // The iterator

  class Iter {
    const data: Bytes
    const restarts: nat
    const numRestarts: nat
    const less: Order
    var current: nat
    var restartIndex: nat
    var key: Bytes
    var valueStart: nat
    var valueEnd: nat
    var corrupt: bool
    ghost const pairs: seq<Pair>
    ghost const marks: seq<Mark>
    ghost const heads: seq<nat>
    /** The index of the current entry, the number of entries when invalid. */
    ghost var at: nat

    ghost predicate Fixed() {
      BlockOk(data, restarts, numRestarts, pairs, marks, heads)
    }

    ghost predicate Valid()
      reads this
    {
      && Fixed() && !corrupt && at <= |pairs| && current == OffsetOf(marks, restarts, at)
      && (at < |pairs| ==> AtEntry())
      && (at == |pairs| ==> restartIndex == numRestarts)
    }

    /** The iterator holds the entry, and stands in the stretch of its restart point. */
    ghost predicate AtEntry()
      reads this
      requires Fixed()
    {
      && at < |pairs| && key == pairs[at].key
      && valueStart <= valueEnd <= |data| && data[valueStart..valueEnd] == pairs[at].value
        && valueEnd == OffsetOf(marks, restarts, at + 1)
      && InStretch(at)
    }

    ghost predicate InStretch(i: nat)
      reads this
      requires Fixed()
    {
      restartIndex < numRestarts && heads[restartIndex] <= i
        && (restartIndex + 1 < numRestarts ==> heads[restartIndex + 1] >= i)
    }

    constructor (data: Bytes, less: Order, ghost pairs: seq<Pair>, ghost marks: seq<Mark>, ghost heads: seq<nat>,
        restarts: nat, numRestarts: nat)
      requires BlockOk(data, restarts, numRestarts, pairs, marks, heads)
      ensures Valid() && at == |pairs| && this.pairs == pairs && this.less == less
    {
      this.data, this.less, this.restarts, this.numRestarts := data, less, restarts, numRestarts;
      this.pairs, this.marks, this.heads := pairs, marks, heads;
      current, restartIndex, key, valueStart, valueEnd, corrupt, at := restarts, numRestarts, [], 0, 0, false, |pairs|;
    }

    predicate IsValid()
      reads this
    {
      current < restarts
    }

    lemma ValidIsInside()
      requires Valid()
      ensures IsValid() <==> at < |pairs|
    {
      if at < |pairs| { OffsetsIncrease(data, restarts, pairs, marks, heads, at, |marks|); }
    }

    function GetRestartPoint(index: nat): (r: nat)
      requires Fixed() && index < numRestarts
      ensures heads[index] <= |marks| && r == OffsetOf(marks, restarts, heads[index])
    {
      assert RestartOk(data, restarts, marks, heads, index);
      DecodeFixed32(data[restarts + 4 * index..])
    }

    /** Before parsing entry i: the last value ends where it begins and its shared bytes are known. */
    ghost predicate Ready(i: nat)
      reads this
      requires Fixed()
    {
      && i <= |pairs| && !corrupt && valueEnd == OffsetOf(marks, restarts, i)
      && (i < |pairs| && marks[i].shared > 0 ==> i > 0 && key == pairs[i - 1].key)
      && restartIndex < numRestarts && heads[restartIndex] <= i
      && (restartIndex + 1 < numRestarts ==> heads[restartIndex + 1] + 1 >= i)
    }

    method SeekToRestartPoint(index: nat)
      requires Fixed() && !corrupt && index < numRestarts
      modifies this`key, this`restartIndex, this`valueStart, this`valueEnd
      ensures Ready(heads[index]) && restartIndex == index
    {
      key := [];
      restartIndex := index;
      valueStart := GetRestartPoint(index);
      valueEnd := valueStart;
      assert HeadOk(marks, heads, index);
      if index + 1 < numRestarts { HeadsIncrease(marks, heads, index, index + 1); }
    }

    /** ParseNextKey: to the entry after the last value. */
    method ParseNextKey(ghost i: nat) returns (ok: bool)
      requires Fixed() && Ready(i)
      modifies this
      ensures Valid() && at == i && (ok <==> i < |pairs|)
    {
      hide BlockOk, EntriesOk;
      current := valueEnd;
      at := i;
      Sizes();
      EndAt(i);
      if current >= restarts {
        current := restarts;
        restartIndex := numRestarts;
        return false;
      }
      // In a block that was built every entry decodes and shares no more than the key before has.
      ParseEntry(i);
      restartIndex := AdvanceRestart(i);
      return true;
    }

    method ParseEntry(ghost i: nat)
      requires Fixed() && Ready(i) && i < |pairs| == |marks| && current == valueEnd
      modifies this`key, this`valueStart, this`valueEnd
      ensures key == pairs[i].key && valueStart <= valueEnd <= |data| && data[valueStart..valueEnd] == pairs[i].value
      ensures valueEnd == OffsetOf(marks, restarts, i + 1)
    {
      hide BlockOk, DecodedAt, HeaderLength;
      EntryDecodes(i);
      var d := DecodeEntry(data, current, restarts);
      var e := d.value;
      assert key[..e.shared] == pairs[i].key[..e.shared];
      key := key[..e.shared] + data[e.next..e.next + e.nonShared];
      assert key == pairs[i].key[..e.shared] + pairs[i].key[e.shared..];
      valueStart, valueEnd := e.next + e.nonShared, e.next + e.nonShared + e.valueLength;
    }

    /** The last restart point before the current offset, from the one known. */
    method AdvanceRestart(ghost i: nat) returns (r: nat)
      requires Fixed() && i < |pairs| == |marks| && current == OffsetOf(marks, restarts, i)
      requires restartIndex < numRestarts && heads[restartIndex] <= i
      requires restartIndex + 1 < numRestarts ==> heads[restartIndex + 1] + 1 >= i
      ensures r < numRestarts && heads[r] <= i && (r + 1 < numRestarts ==> heads[r + 1] >= i)
    {
      hide BlockOk, EntriesOk;
      Sizes();
      r := restartIndex;
      while r + 1 < numRestarts && GetRestartPoint(r + 1) < current
        invariant r < numRestarts && heads[r] <= i
        invariant r + 1 < numRestarts ==> heads[r + 1] + 1 >= i
        decreases numRestarts - r
      {
        OffsetOrder(heads[r + 1], i);
        NextHead(r + 1);
        r := r + 1;
      }
      if r + 1 < numRestarts { OffsetOrder(heads[r + 1], i); }
    }

    lemma Sizes()
      requires Fixed()
      ensures |marks| == |pairs| && |heads| == numRestarts > 0 && restarts <= |data| < MAX_SIZE && heads[0] == 0
      ensures OffsetOf(marks, restarts, 0) == 0
    {
    }

    lemma EndAt(i: nat)
      requires Fixed() && i <= |pairs| == |marks|
      ensures OffsetOf(marks, restarts, i) < restarts <==> i < |pairs|
    {
      if i < |pairs| { OffsetsIncrease(data, restarts, pairs, marks, heads, i, |marks|); }
    }

    lemma OffsetOrder(i: nat, j: nat)
      requires Fixed() && i <= |marks| && j <= |marks|
      ensures OffsetOf(marks, restarts, i) < OffsetOf(marks, restarts, j) <==> i < j
    {
      if i < j { OffsetsIncrease(data, restarts, pairs, marks, heads, i, j); }
      if j < i { OffsetsIncrease(data, restarts, pairs, marks, heads, j, i); }
    }

    lemma NextHead(j: nat)
      requires Fixed() && j < numRestarts
      ensures j + 1 < numRestarts ==> heads[j] < heads[j + 1]
    {
      if j + 1 < numRestarts { HeadsIncrease(marks, heads, j, j + 1); }
    }

    lemma EntryDecodes(i: nat)
      requires Fixed() && i < |pairs| == |marks|
      ensures var m, p := marks[i], pairs[i];
        m.shared <= |p.key| && restarts <= |data|
        && var q := m.offset + HeaderLength(m.shared, p); var n := |p.key| - m.shared;
           DecodedAt(data, m.offset, restarts) == Some(Decoded(m.shared, n, |p.value|, q))
           && q + n + |p.value| == OffsetOf(marks, restarts, i + 1) <= |data|
           && data[q..q + n] == p.key[m.shared..] && data[q + n..q + n + |p.value|] == p.value
           && (m.shared > 0 ==>
             i > 0 && m.shared <= |pairs[i - 1].key| && pairs[i - 1].key[..m.shared] == p.key[..m.shared])
    {
      hide EntryBytes, DecodedAt, HeaderLength, StoredAt, HeadOk, RestartOk;
      assert EntryOk(data, restarts, pairs, marks, i);
      DecodeStored(data, marks[i].offset, restarts, marks[i].shared, pairs[i]);
    }

    method SeekToFirst()
      requires Valid()
      modifies this
      ensures Valid() && at == 0
    {
      hide BlockOk;
      Sizes();
      SeekToRestartPoint(0);
      var ok := ParseNextKey(0);
    }

    method Next()
      requires Valid() && at < |pairs|
      modifies this
      ensures Valid() && at == old(at) + 1
    {
      hide BlockOk;
      Sizes();
      var ok := ParseNextKey(at + 1);
    }

    /** Parses on from restart point `index` until an entry ends at or after the offset `stop`, where
        entry `last` + 1 begins. */
    method ParseUpTo(index: nat, stop: nat, ghost last: nat)
      requires Fixed() && !corrupt && index < numRestarts && heads[index] <= last < |pairs| == |marks|
      requires stop == OffsetOf(marks, restarts, last + 1)
      modifies this
      ensures Valid() && at == last
    {
      hide BlockOk;
      Sizes();
      SeekToRestartPoint(index);
      ghost var i := heads[index];
      var ok := ParseNextKey(i);
      OffsetOrder(i + 1, last + 1);
      while ok && valueEnd < stop
        invariant i <= last && Valid() && at == i && ok
        invariant valueEnd < stop <==> i < last
        decreases last - i
      {
        i := i + 1;
        ok := ParseNextKey(i);
        OffsetOrder(i + 1, last + 1);
      }
    }

    method SeekToLast()
      requires Valid()
      modifies this
      ensures Valid() && at == if pairs == [] then 0 else |pairs| - 1
    {
      hide BlockOk;
      Sizes();
      LastHead();
      if restarts == 0 {
        EndAt(0);
        SeekToRestartPoint(numRestarts - 1);
        var ok := ParseNextKey(0);
        return;
      }
      EndAt(0);
      ParseUpTo(numRestarts - 1, restarts, |pairs| - 1);
    }

    lemma LastHead()
      requires Fixed()
      ensures numRestarts > 0 && heads[numRestarts - 1] <= |pairs| && (pairs != [] ==> heads[numRestarts - 1] < |pairs|)
      ensures pairs == [] ==> heads[numRestarts - 1] == 0
    {
      assert HeadOk(marks, heads, numRestarts - 1);
    }

    /** Back to the restart point before the current entry, then forward to the entry before it. */
    method Prev()
      requires Valid() && at < |pairs|
      modifies this
      ensures Valid() && at == if old(at) == 0 then |pairs| else old(at) - 1
    {
      hide BlockOk;
      Sizes();
      var original := current;
      ghost var i := at;
      var r: nat := restartIndex;
      while GetRestartPoint(r) >= original
        invariant Valid() && at == i && current == original
        invariant r < numRestarts && heads[r] <= i
        decreases r
      {
        OffsetOrder(heads[r], i);
        if r == 0 {
          current, restartIndex, at := restarts, numRestarts, |pairs|;
          return;
        }
        NextHead(r - 1);
        r := r - 1;
      }
      OffsetOrder(heads[r], i);
      ParseUpTo(r, original, i - 1);
    }

    lemma HeadKey(j: nat)
      requires Fixed() && j < numRestarts && heads[j] < |pairs| == |marks|
      ensures var p := pairs[heads[j]]; var q := GetRestartPoint(j) + HeaderLength(0, p);
        DecodedAt(data, GetRestartPoint(j), restarts) == Some(Decoded(0, |p.key|, |p.value|, q))
        && q + |p.key| <= |data| && data[q..q + |p.key|] == p.key
    {
      hide DecodedAt, HeaderLength, EntryOk, StoredAt;
      assert HeadOk(marks, heads, j);
      EntryDecodes(heads[j]);
      assert pairs[heads[j]].key[0..] == pairs[heads[j]].key;
    }

    /** The last restart point whose key is before the target, the first if there is none. */
    method FindRestart(target: Bytes) returns (left: nat)
      requires Valid() && Strict(less) && Increasing(pairs, less)
      ensures left < numRestarts && heads[left] <= |pairs| && (pairs != [] ==> heads[left] < |pairs|)
      ensures forall i :: 0 <= i < heads[left] ==> less(pairs[i].key, target)
    {
      hide BlockOk, Strict, Increasing, DecodedAt, HeaderLength;
      Sizes();
      left := 0;
      var right: nat := numRestarts - 1;
      while left < right
        invariant left <= right < numRestarts
        invariant left > 0 ==> heads[left] < |pairs| && less(pairs[heads[left]].key, target)
        decreases right - left
      {
        var mid := (left + right + 1) / 2;
        HeadInside(mid);
        HeadKey(mid);
        var d := DecodeEntry(data, GetRestartPoint(mid), restarts);
        var e := d.value;
        var midKey := data[e.next..e.next + e.nonShared];
        if less(midKey, target) {
          left := mid;
        } else {
          right := mid - 1;
        }
      }
      HeadInside(left);
      if left > 0 { BeforeHead(heads[left], target); }
    }

    lemma HeadInside(j: nat)
      requires Fixed() && j < numRestarts
      ensures heads[j] <= |pairs| == |marks| && (pairs != [] || j > 0 ==> heads[j] < |pairs|)
    {
      assert HeadOk(marks, heads, j);
    }

    lemma BeforeHead(h: nat, target: Bytes)
      requires Strict(less) && Increasing(pairs, less) && h < |pairs| && less(pairs[h].key, target)
      ensures forall i :: 0 <= i < h ==> less(pairs[i].key, target)
    {
      forall i | 0 <= i < h ensures less(pairs[i].key, target) {
        assert less(pairs[i].key, pairs[h].key);
      }
    }

    /** To the first entry at or after the target. */
    method Seek(target: Bytes)
      requires Valid() && Strict(less) && Increasing(pairs, less)
      modifies this
      ensures Valid() && (forall i :: 0 <= i < at ==> less(pairs[i].key, target))
      ensures at < |pairs| ==> !less(pairs[at].key, target)
    {
      hide BlockOk, Strict, Increasing;
      Sizes();
      var left := FindRestart(target);
      SeekToRestartPoint(left);
      ghost var i := heads[left];
      while true
        invariant Ready(i) && (forall j :: 0 <= j < i ==> less(pairs[j].key, target))
        decreases |pairs| - i
      {
        var ok := ParseNextKey(i);
        if !ok || !less(key, target) { return; }
        i := i + 1;
      }
    }
  }

  /** Opening a block: where its restart array is, None when the size leaves no room for it. */
  method OpenBlock(data: Bytes) returns (r: Option<(nat, nat)>)
    ensures r.Some? <==> |data| >= 4 && DecodeFixed32(data[|data| - 4..]) <= (|data| - 4) / 4
    ensures r.Some? ==> r.value.1 == DecodeFixed32(data[|data| - 4..]) && r.value.0 == |data| - (1 + r.value.1) * 4
  {
    if |data| < 4 { return None; }
    var n := DecodeFixed32(data[|data| - 4..]);
    if n > (|data| - 4) / 4 { return None; }
    r := Some((|data| - (1 + n) * 4, n));
  }

  /** A finished block opens to what was built. */
  lemma BuiltBlockOpens(data: Bytes, r: nat, n: nat, pairs: seq<Pair>, marks: seq<Mark>, heads: seq<nat>)
    requires BlockOk(data, r, n, pairs, marks, heads)
    ensures |data| >= 4 && DecodeFixed32(data[|data| - 4..]) == n && n <= (|data| - 4) / 4 && r == |data| - (1 + n) * 4
  {
  }

  /** Iterating over a finished block from the first entry yields exactly the pairs added. */
  method ReadBlock(data: Bytes, less: Order, ghost pairs: seq<Pair>, ghost marks: seq<Mark>, ghost heads: seq<nat>,
      ghost r: nat, ghost n: nat)
    returns (out: seq<Pair>)
    requires BlockOk(data, r, n, pairs, marks, heads)
    ensures out == pairs
  {
    BuiltBlockOpens(data, r, n, pairs, marks, heads);
    var o := OpenBlock(data);
    var it := new Iter(data, less, pairs, marks, heads, o.value.0, o.value.1);
    it.SeekToFirst();
    out := [];
    it.ValidIsInside();
    while it.IsValid()
      invariant it.Valid() && fresh(it) && it.pairs == pairs && out == pairs[..it.at]
      invariant it.IsValid() <==> it.at < |pairs|
      decreases |pairs| - it.at
    {
      out := out + [Pair(it.key, it.data[it.valueStart..it.valueEnd])];
      it.Next();
      it.ValidIsInside();
    }
  }
}
