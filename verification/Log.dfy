/** The fragmented log (db/log_writer.cc, db/log_reader.cc): a writer cuts records to blocks, a
    reader puts them together again. Whatever prefix of the file a crash leaves, the reader
    returns the records wholly in it and takes nothing for a corruption. */
module Log {
  import opened Format
  import opened Coding

  const BLOCK_SIZE: nat := 32768
  const HEADER_SIZE: nat := 7

  const FULL: Byte := 1
  const FIRST: Byte := 2
  const MIDDLE: Byte := 3
  const LAST: Byte := 4
  /** The reader's own codes share the numbers after the last type. */
  const EOF: nat := 5
  const BAD_RECORD: nat := 6

  /** The checksum of a record type and payload. */
  type Crc = (Byte, seq<Byte>) -> Word

  // What the writer writes

  function Min(a: nat, b: nat): nat {
    if a < b then a else b
  }

  function Header(crc: Crc, t: Byte, d: seq<Byte>): (h: seq<Byte>)
    requires |d| <= 0xffff
    ensures |h| == HEADER_SIZE
  {
    EncodeFixed32(Mask(crc(t, d))) + [|d| % 0x100, |d| / 0x100, t]
  }

  function Zeros(n: nat): seq<Byte> {
    seq(n, i => 0)
  }

  /** Where the next physical record goes: a block end too short for a header is skipped. */
  function Start(at: nat): nat {
    var leftover := BLOCK_SIZE - at % BLOCK_SIZE;
    if leftover < HEADER_SIZE then at + leftover else at
  }

  /** The room for payload in a physical record that starts at p. */
  function Room(p: nat): nat
    requires Start(p) == p
  {
    BLOCK_SIZE - p % BLOCK_SIZE - HEADER_SIZE
  }

  function TypeOf(begin: bool, end: bool): Byte {
    if begin && end then FULL else if begin then FIRST else if end then LAST else MIDDLE
  }

  lemma StartIsStart(at: nat)
    ensures Start(Start(at)) == Start(at) && at <= Start(at)
  {
  }

  /** No room for payload is left in the block. */
  function Full(at: nat): nat {
    StartIsStart(at);
    if Room(Start(at)) == 0 then 1 else 0
  }

  /** A fragment without payload is followed by a new block. */
  lemma EmptyFragment(at: nat)
    ensures Start(Start(at)) == Start(at)
    ensures Room(Start(at)) == 0 ==> Full(Start(at) + HEADER_SIZE) < Full(at)
  {
    StartIsStart(at);
    StartIsStart(Start(at) + HEADER_SIZE);
  }

  /** How much of the payload goes into the first fragment. */
  function Taken(at: nat, left: nat): (n: nat)
    ensures n <= left
  {
    StartIsStart(at);
    Min(left, Room(Start(at)))
  }

  function FirstBytes(crc: Crc, at: nat, begin: bool, left: seq<Byte>): (s: seq<Byte>)
    ensures |s| == Start(at) - at + HEADER_SIZE + Taken(at, |left|)
  {
    StartIsStart(at);
    var n := Taken(at, |left|);
    Zeros(Start(at) - at) + (Header(crc, TypeOf(begin, n == |left|), left[..n]) + left[..n])
  }

  /** The bytes of a record, or of what is left of it, appended to a file of length `at`. */
  function Fragments(crc: Crc, at: nat, begin: bool, left: seq<Byte>): seq<Byte>
    decreases |left|, Full(at)
  {
    var n := Taken(at, |left|);
    var here := FirstBytes(crc, at, begin, left);
    EmptyFragment(at);
    if n == |left| then here else here + Fragments(crc, at + |here|, false, left[n..])
  }

  /** The file after all records have been added. */
  function LogFile(crc: Crc, records: seq<seq<Byte>>): seq<Byte> {
    if records == [] then []
    else
      var before := LogFile(crc, records[..|records| - 1]);
      before + Fragments(crc, |before|, true, records[|records| - 1])
  }

  lemma SameOffset(a: nat, b: nat, n: nat)
    requires a % BLOCK_SIZE == b % BLOCK_SIZE
    ensures (a + n) % BLOCK_SIZE == (b + n) % BLOCK_SIZE
  {
  }

  /** The writer's offset in the block, which may stand at the end of one, finds the same place. */
  lemma OffsetOfStart(at: nat, offset: nat)
    requires offset <= BLOCK_SIZE && offset % BLOCK_SIZE == at % BLOCK_SIZE
    ensures if BLOCK_SIZE - offset < HEADER_SIZE then Start(at) == at + BLOCK_SIZE - offset
        && Start(at) % BLOCK_SIZE == 0
      else Start(at) == at && offset == at % BLOCK_SIZE
  {
  }

  /** The first fragment, and what is left for the others. */
  lemma FirstFragment(crc: Crc, before: seq<Byte>, begin: bool, left: seq<Byte>)
    ensures var n := Taken(|before|, |left|);
      var now := before + FirstBytes(crc, |before|, begin, left);
      before + Fragments(crc, |before|, begin, left) == now + if n == |left| then []
        else Fragments(crc, |now|, false, left[n..])
  {
    hide Header, TypeOf, Start, Room, Full, Taken, FirstBytes;
    var n := Taken(|before|, |left|);
    var first := FirstBytes(crc, |before|, begin, left);
    var rest := if n == |left| then [] else Fragments(crc, |before| + |first|, false, left[n..]);
    assert Fragments(crc, |before|, begin, left) == first + rest;
    assert before + (first + rest) == (before + first) + rest;
  }

  class Writer {
    var dest: seq<Byte>
    var blockOffset: nat
    const crc: Crc

    ghost predicate Valid()
      reads this
    {
      blockOffset <= BLOCK_SIZE && blockOffset % BLOCK_SIZE == |dest| % BLOCK_SIZE
    }

    /** A writer that continues a file of a given length; an empty one for a new log. */
    constructor (crc: Crc, dest: seq<Byte>)
      ensures Valid() && this.crc == crc && this.dest == dest
    {
      this.crc, this.dest, blockOffset := crc, dest, |dest| % BLOCK_SIZE;
    }

    method AddRecord(slice: seq<Byte>)
      requires Valid()
      modifies this
      ensures Valid() && dest == old(dest) + Fragments(crc, |old(dest)|, true, slice)
    {
      hide Fragments, Header, Full, TypeOf, Start, Taken;
      var left := slice;
      var begin := true;
      var more := true;
      while more
        invariant Valid()
        invariant dest + (if more then Fragments(crc, |dest|, begin, left) else []) ==
            old(dest) + Fragments(crc, |old(dest)|, true, slice)
        decreases more, |left|, Full(|dest|)
      {
        ghost var before := dest;
        StartRecord();
        var avail := BLOCK_SIZE - blockOffset - HEADER_SIZE;
        var n := if |left| < avail then |left| else avail;
        var end := |left| == n;
        assert n == Taken(|before|, |left|);
        FirstFragment(crc, before, begin, left);
        EmptyFragment(|before|);
        EmitPhysicalRecord(TypeOf(begin, end), left[..n]);
        assert dest == before + FirstBytes(crc, |before|, begin, left);
        left := left[n..];
        begin := false;
        more := |left| > 0;
      }
    }

    /** Fills the end of a block too short for a header. */
    method StartRecord()
      requires Valid()
      modifies this
      ensures Valid() && blockOffset + HEADER_SIZE <= BLOCK_SIZE && Start(|old(dest)|) >= |old(dest)|
      ensures dest == old(dest) + Zeros(Start(|old(dest)|) - |old(dest)|)
      ensures forall left :: Taken(|old(dest)|, left) == Min(left, BLOCK_SIZE - blockOffset - HEADER_SIZE)
    {
      StartIsStart(|dest|);
      OffsetOfStart(|dest|, blockOffset);
      var leftover := BLOCK_SIZE - blockOffset;
      if leftover < HEADER_SIZE {
        dest := dest + Zeros(leftover);
        blockOffset := 0;
      }
    }

    method EmitPhysicalRecord(t: Byte, d: seq<Byte>)
      requires Valid() && blockOffset + HEADER_SIZE + |d| <= BLOCK_SIZE
      modifies this
      ensures Valid() && dest == old(dest) + Header(crc, t, d) + d
      ensures blockOffset == old(blockOffset) + HEADER_SIZE + |d|
    {
      hide Header;
      SameOffset(|dest|, blockOffset, HEADER_SIZE + |d|);
      dest := dest + Header(crc, t, d);
      dest := dest + d;
      blockOffset := blockOffset + HEADER_SIZE + |d|;
    }
  }

  // What the reader makes of a file

  datatype Physical = Physical(kind: nat, fragment: seq<Byte>, next: nat, drops: nat)

  function BlockEnd(p: nat): nat {
    (p / BLOCK_SIZE + 1) * BLOCK_SIZE
  }

  /** The record a buffer of at least a header begins with; `next` counts from its start. When
      the record is cut or wrong the rest of the buffer is dropped, which at the end of the file
      is no corruption for a cut record. */
  function Parse(crc: Crc, buffer: seq<Byte>, eof: bool): (r: Physical)
    requires |buffer| >= HEADER_SIZE
    ensures 0 < r.next <= |buffer|
  {
    var length, t := buffer[4] as int + buffer[5] as int * 0x100, buffer[6];
    if HEADER_SIZE + length > |buffer| then
      if eof then Physical(EOF, [], |buffer|, 0) else Physical(BAD_RECORD, [], |buffer|, 1)
    else if t == 0 && length == 0 then Physical(BAD_RECORD, [], |buffer|, 0)
    else
      var d := buffer[HEADER_SIZE..HEADER_SIZE + length];
      if Unmask(DecodeFixed32(buffer)) != crc(t, d) then Physical(BAD_RECORD, [], |buffer|, 1)
      else Physical(t, d, HEADER_SIZE + length, 0)
  }

  /** The physical record at position p: a short rest of a block is skipped, at the end of the
      file it ends it. */
  function PhysicalAt(crc: Crc, file: seq<Byte>, p: nat): (r: Physical)
    requires p <= |file|
    ensures p <= r.next <= |file| && (r.kind != EOF ==> r.next > p)
    decreases |file| - p
  {
    var end := BlockEnd(p);
    var stop := Min(end, |file|);
    if stop - p < HEADER_SIZE then
      if end <= |file| then PhysicalAt(crc, file, end) else Physical(EOF, [], |file|, 0)
    else
      var r := Parse(crc, file[p..stop], end > |file|);
      r.(next := p + r.next)
  }

  datatype Found = Found(record: Option<seq<Byte>>, next: nat, drops: nat)

  function Dropping(drops: nat, f: Found): Found {
    f.(drops := f.drops + drops)
  }

  /** The next record from position p on, given the fragments of one already read. */
  function RecordAt(crc: Crc, file: seq<Byte>, p: nat, inFragment: bool, scratch: seq<Byte>): (f: Found)
    requires p <= |file|
    ensures p <= f.next <= |file| && (f.record.Some? ==> f.next > p)
    decreases |file| - p
  {
    var r := PhysicalAt(crc, file, p);
    var partial := if inFragment && scratch != [] then 1 else 0;
    if r.kind == FULL then Found(Some(r.fragment), r.next, r.drops + partial)
    else if r.kind == FIRST then Dropping(r.drops + partial, RecordAt(crc, file, r.next, true, r.fragment))
    else if r.kind == MIDDLE then
      if !inFragment then Dropping(r.drops + 1, RecordAt(crc, file, r.next, false, scratch))
      else Dropping(r.drops, RecordAt(crc, file, r.next, true, scratch + r.fragment))
    else if r.kind == LAST then
      if !inFragment then Dropping(r.drops + 1, RecordAt(crc, file, r.next, false, scratch))
      else Found(Some(scratch + r.fragment), r.next, r.drops)
    else if r.kind == EOF then Found(None, r.next, r.drops)
    else if r.kind == BAD_RECORD then
      if inFragment then Dropping(r.drops + 1, RecordAt(crc, file, r.next, false, []))
      else Dropping(r.drops, RecordAt(crc, file, r.next, false, scratch))
    else Dropping(r.drops + 1, RecordAt(crc, file, r.next, false, []))
  }

  datatype Contents = Contents(records: seq<seq<Byte>>, drops: nat)

  /** Reading until there is no record any more. */
  function AllRecords(crc: Crc, file: seq<Byte>, p: nat): Contents
    requires p <= |file|
    decreases |file| - p
  {
    var f := RecordAt(crc, file, p, false, []);
    if f.record.None? then Contents([], f.drops)
    else
      var rest := AllRecords(crc, file, f.next);
      Contents([f.record.value] + rest.records, f.drops + rest.drops)
  }

  lemma TrailerSkipped(crc: Crc, file: seq<Byte>, p: nat)
    requires p <= |file| && BlockEnd(p) <= |file| && BlockEnd(p) - p < HEADER_SIZE
    ensures PhysicalAt(crc, file, p) == PhysicalAt(crc, file, BlockEnd(p))
  {
  }

  class Reader {
    const file: seq<Byte>
    const crc: Crc
    var pos: nat
    var buffer: seq<Byte>
    var eof: bool
    var corruptions: nat

    ghost predicate Valid()
      reads this
    {
      && |buffer| <= pos <= |file| && buffer == file[pos - |buffer|..pos]
      && (if eof then pos == |file| && |buffer| <= |file| % BLOCK_SIZE
        else pos % BLOCK_SIZE == 0 && |buffer| <= BLOCK_SIZE)
    }

    ghost function At(): nat
      requires Valid()
      reads this
    {
      pos - |buffer|
    }

    constructor (crc: Crc, file: seq<Byte>)
      ensures Valid() && this.file == file && this.crc == crc && At() == 0 && corruptions == 0
    {
      this.crc, this.file := crc, file;
      pos, buffer, eof, corruptions := 0, [], false, 0;
    }

    /** The block the buffer is from. */
    lemma BufferBlock()
      requires Valid()
      ensures eof ==> BlockEnd(At()) > |file|
      ensures !eof && buffer != [] ==> BlockEnd(At()) == pos
      ensures !eof && buffer == [] ==> BlockEnd(At()) == pos + BLOCK_SIZE
    {
    }

    /** The physical record at the position is in the buffer, or the file ends in it. */
    lemma AtBuffer()
      requires Valid() && (eof || |buffer| >= HEADER_SIZE)
      ensures PhysicalAt(crc, file, At()) ==
        if |buffer| < HEADER_SIZE then Physical(EOF, [], |file|, 0)
        else var r := Parse(crc, buffer, eof); r.(next := At() + r.next)
    {
      BufferBlock();
    }

    method ReadBlock()
      requires Valid() && !eof && |buffer| < HEADER_SIZE
      modifies this`pos, this`buffer, this`eof
      ensures Valid() && PhysicalAt(crc, file, At()) == PhysicalAt(crc, file, old(At()))
      ensures eof || |buffer| == BLOCK_SIZE
    {
      hide PhysicalAt;
      BufferBlock();
      if buffer != [] { TrailerSkipped(crc, file, At()); }
      var n := Min(BLOCK_SIZE, |file| - pos);
      buffer := file[pos..pos + n];
      pos := pos + n;
      if n < BLOCK_SIZE { eof := true; }
    }

    method ReadPhysicalRecord() returns (kind: nat, fragment: seq<Byte>)
      requires Valid()
      modifies this
      ensures Valid() && corruptions >= old(corruptions)
      ensures PhysicalAt(crc, file, old(At())) == Physical(kind, fragment, At(), corruptions - old(corruptions))
    {
      if |buffer| < HEADER_SIZE && !eof {
        ReadBlock();
      }
      BufferBlock();
      hide PhysicalAt;
      AtBuffer();
      if |buffer| < HEADER_SIZE {
        RemovePrefix(|buffer|);
        return EOF, [];
      }
      var r := Parse(crc, buffer, eof);
      RemovePrefix(r.next);
      corruptions := corruptions + r.drops;
      return r.kind, r.fragment;
    }

    method RemovePrefix(n: nat)
      requires Valid() && n <= |buffer|
      modifies this`buffer
      ensures Valid() && buffer == old(buffer)[n..] && At() == old(At()) + n
    {
      buffer := buffer[n..];
    }

    /** The next record, or None at the end of the file. */
    method ReadRecord() returns (record: Option<seq<Byte>>)
      requires Valid()
      modifies this
      ensures Valid() && corruptions >= old(corruptions)
      ensures RecordAt(crc, file, old(At()), false, []) == Found(record, At(), corruptions - old(corruptions))
    {
      hide PhysicalAt;
      var scratch: seq<Byte> := [];
      var inFragment := false;
      while true
        invariant Valid() && corruptions >= old(corruptions)
        invariant RecordAt(crc, file, old(At()), false, []) ==
            Dropping(corruptions - old(corruptions), RecordAt(crc, file, At(), inFragment, scratch))
        decreases |file| - At()
      {
        var kind, fragment := ReadPhysicalRecord();
        if kind == FULL {
          if inFragment && scratch != [] { corruptions := corruptions + 1; }
          return Some(fragment);
        } else if kind == FIRST {
          if inFragment && scratch != [] { corruptions := corruptions + 1; }
          scratch, inFragment := fragment, true;
        } else if kind == MIDDLE {
          if !inFragment { corruptions := corruptions + 1; } else { scratch := scratch + fragment; }
        } else if kind == LAST {
          if !inFragment { corruptions := corruptions + 1; } else { return Some(scratch + fragment); }
        } else if kind == EOF {
          return None;
        } else if kind == BAD_RECORD {
          if inFragment {
            corruptions := corruptions + 1;
            scratch, inFragment := [], false;
          }
        } else {
          corruptions := corruptions + 1;
          scratch, inFragment := [], false;
        }
      }
    }
  }

  // What is written is read, as far as it is there

  lemma ParseWritten(crc: Crc, t: Byte, d: seq<Byte>, buffer: seq<Byte>, eof: bool)
    requires 1 <= t <= 4 && |d| <= 0xffff && Header(crc, t, d) + d <= buffer
    ensures Parse(crc, buffer, eof) == Physical(t, d, HEADER_SIZE + |d|, 0)
  {
    var h := Header(crc, t, d);
    assert forall i :: 0 <= i < HEADER_SIZE ==> buffer[i] == (h + d)[i] == h[i];
    var sum := EncodeFixed32(Mask(crc(t, d)));
    assert buffer == sum + buffer[4..];
    DecodeEncode32(Mask(crc(t, d)), buffer[4..]);
    UnmaskMask(crc(t, d));
    assert buffer[HEADER_SIZE..HEADER_SIZE + |d|] == d;
  }

  lemma ParseCut(crc: Crc, t: Byte, d: seq<Byte>, buffer: seq<Byte>)
    requires |d| <= 0xffff && HEADER_SIZE <= |buffer| < HEADER_SIZE + |d| && buffer <= Header(crc, t, d) + d
    ensures Parse(crc, buffer, true) == Physical(EOF, [], |buffer|, 0)
  {
    var h := Header(crc, t, d);
    assert forall i :: 0 <= i < HEADER_SIZE ==> buffer[i] == (h + d)[i] == h[i];
  }

  /** The fragment of type t with payload d, wholly or partly at the end of the file. */
  ghost predicate Stored(crc: Crc, file: seq<Byte>, at: nat, t: Byte, d: seq<Byte>) {
    && 1 <= t <= 4 && |d| <= 0xffff && at <= |file|
    && Start(Start(at)) == Start(at) && |d| <= Room(Start(at))
    && var p := Start(at);
       p <= |file| ==> PrefixFrom(file, p, Header(crc, t, d) + d)
  }

  /** The file is a prefix of one in which `written` stands at position `at`. */
  ghost predicate PrefixFrom(file: seq<Byte>, at: nat, written: seq<Byte>) {
    at <= |file| && file[at..Min(|file|, at + |written|)] <= written
  }

  lemma PrefixSplit(file: seq<Byte>, at: nat, a: seq<Byte>, b: seq<Byte>)
    requires PrefixFrom(file, at, a + b)
    ensures PrefixFrom(file, at, a)
    ensures at + |a| <= |file| ==> PrefixFrom(file, at + |a|, b)
  {
    var m := Min(|file|, at + |a| + |b|);
    assert file[at..Min(|file|, at + |a|)] == file[at..m][..Min(|file|, at + |a|) - at];
    if at + |a| <= |file| {
      assert file[at + |a|..m] == file[at..m][|a|..];
    }
  }

  lemma PhysicalAtStart(crc: Crc, file: seq<Byte>, at: nat, t: Byte, d: seq<Byte>)
    requires Stored(crc, file, at, t, d) && Start(at) == at
    ensures var end := at + HEADER_SIZE + |d|; var r := PhysicalAt(crc, file, at);
      if end <= |file| then r == Physical(t, d, end, 0) else r == Physical(EOF, [], r.next, 0)
  {
    var end := at + HEADER_SIZE + |d|;
    var stop := Min(BlockEnd(at), |file|);
    assert end <= BlockEnd(at);
    if stop - at >= HEADER_SIZE {
      var buffer := file[at..stop];
      if end <= |file| {
        assert file[at..end] == Header(crc, t, d) + d && buffer[..end - at] == file[at..end];
        ParseWritten(crc, t, d, buffer, BlockEnd(at) > |file|);
      } else {
        ParseCut(crc, t, d, buffer);
      }
    }
  }

  /** A fragment wholly in the file is read; one that is cut anywhere, even in the trailer before
      it, ends the file without a drop. */
  lemma PhysicalStored(crc: Crc, file: seq<Byte>, at: nat, t: Byte, d: seq<Byte>)
    requires Stored(crc, file, at, t, d)
    ensures var end := Start(at) + HEADER_SIZE + |d|; var r := PhysicalAt(crc, file, at);
      if end <= |file| then r == Physical(t, d, end, 0) else r == Physical(EOF, [], r.next, 0)
  {
    hide PhysicalAt;
    if Start(at) == at {
      PhysicalAtStart(crc, file, at, t, d);
    } else {
      TrailerAt(at);
      if Start(at) <= |file| {
        TrailerSkipped(crc, file, at);
        PhysicalAtStart(crc, file, Start(at), t, d);
      } else {
        TrailerCut(crc, file, at);
      }
    }
  }

  lemma TrailerAt(at: nat)
    requires Start(at) != at
    ensures Start(at) == BlockEnd(at) && BlockEnd(at) - at < HEADER_SIZE
  {
  }

  lemma TrailerCut(crc: Crc, file: seq<Byte>, at: nat)
    requires at <= |file| < BlockEnd(at) && BlockEnd(at) - at < HEADER_SIZE
    ensures PhysicalAt(crc, file, at) == Physical(EOF, [], |file|, 0)
  {
  }

  lemma FragmentStep(crc: Crc, at: nat, begin: bool, left: seq<Byte>)
    ensures var n := Taken(at, |left|);
      var first := FirstBytes(crc, at, begin, left);
      && |first| == Start(at) - at + HEADER_SIZE + n
      && Fragments(crc, at, begin, left) ==
        first + (if n == |left| then [] else Fragments(crc, at + |first|, false, left[n..]))
      && (n == 0 && left != [] ==> Full(at + |first|) < Full(at))
  {
    EmptyFragment(at);
  }

  lemma FirstStored(crc: Crc, file: seq<Byte>, at: nat, begin: bool, left: seq<Byte>)
    requires PrefixFrom(file, at, FirstBytes(crc, at, begin, left))
    ensures var n := Taken(at, |left|); Stored(crc, file, at, TypeOf(begin, n == |left|), left[..n])
  {
    hide Header, PrefixFrom;
    var n := Taken(at, |left|);
    StartIsStart(at);
    PrefixStarts(file, at, FirstBytes(crc, at, begin, left));
    PrefixSplit(file, at, Zeros(Start(at) - at), Header(crc, TypeOf(begin, n == |left|), left[..n]) + left[..n]);
  }

  lemma {:induction false} FragmentsRead(crc: Crc, file: seq<Byte>, at: nat, begin: bool, left: seq<Byte>,
      scratch: seq<Byte>)
    requires PrefixFrom(file, at, Fragments(crc, at, begin, left)) && (begin ==> scratch == [])
    ensures at <= |file|
    ensures var end := at + |Fragments(crc, at, begin, left)|; var f := RecordAt(crc, file, at, !begin, scratch);
      if end <= |file| then f == Found(Some(scratch + left), end, 0) else f == Found(None, f.next, 0)
    decreases |left|, Full(at)
  {
    hide PhysicalAt, Header, Stored, PrefixFrom, Start, Room, Full, Taken, FirstBytes, Fragments;
    var n := Taken(at, |left|);
    var first := FirstBytes(crc, at, begin, left);
    var rest := if n == |left| then [] else Fragments(crc, at + |first|, false, left[n..]);
    PrefixStarts(file, at, Fragments(crc, at, begin, left));
    FragmentStep(crc, at, begin, left);
    PrefixSplit(file, at, first, rest);
    FirstStored(crc, file, at, begin, left);
    PhysicalStored(crc, file, at, TypeOf(begin, n == |left|), left[..n]);
    if n < |left| {
      assert begin ==> scratch + left[..n] == left[..n];
      if at + |first| <= |file| {
        FragmentsRead(crc, file, at + |first|, false, left[n..], scratch + left[..n]);
        assert scratch + left[..n] + left[n..] == scratch + left;
      }
    } else {
      assert left[..n] == left && (begin ==> scratch + left == left);
    }
  }

  lemma PrefixStarts(file: seq<Byte>, at: nat, written: seq<Byte>)
    requires PrefixFrom(file, at, written)
    ensures at <= |file|
  {
  }

  lemma {:induction false} LogFileGrows(crc: Crc, records: seq<seq<Byte>>, i: nat)
    requires i <= |records|
    ensures LogFile(crc, records[..i]) <= LogFile(crc, records)
    decreases |records|
  {
    if i < |records| {
      var init := records[..|records| - 1];
      LogFileGrows(crc, init, i);
      assert init[..i] == records[..i];
    } else {
      assert records[..i] == records;
    }
  }

  lemma NextRecord(crc: Crc, records: seq<seq<Byte>>, i: nat)
    requires i < |records|
    ensures var before := LogFile(crc, records[..i]);
      LogFile(crc, records[..i + 1]) == before + Fragments(crc, |before|, true, records[i])
  {
    assert records[..i + 1][..i] == records[..i];
  }

  /** Exactly the first k records are wholly among the first n bytes. */
  ghost predicate Whole(crc: Crc, records: seq<seq<Byte>>, n: nat, k: nat) {
    && k <= |records| && |LogFile(crc, records[..k])| <= n
    && (k < |records| ==> n < |LogFile(crc, records[..k + 1])|)
  }

  lemma RecordInPrefix(crc: Crc, records: seq<seq<Byte>>, n: nat, i: nat)
    requires i < |records| && n <= |LogFile(crc, records)| && |LogFile(crc, records[..i])| <= n
    ensures var at := |LogFile(crc, records[..i])|; var end := |LogFile(crc, records[..i + 1])|;
      var f := RecordAt(crc, LogFile(crc, records)[..n], at, false, []);
      if end <= n then f == Found(Some(records[i]), end, 0) else f == Found(None, f.next, 0)
  {
    hide RecordAt, PhysicalAt, Fragments;
    var file := LogFile(crc, records);
    var before := LogFile(crc, records[..i]);
    var written := Fragments(crc, |before|, true, records[i]);
    NextRecord(crc, records, i);
    LogFileGrows(crc, records, i + 1);
    var cut := file[..n];
    var m := Min(n, |before| + |written|);
    assert file[..|before| + |written|] == before + written;
    assert cut[|before|..m] == file[..|before| + |written|][|before|..m] == written[..m - |before|];
    FragmentsRead(crc, cut, |before|, true, records[i], []);
    assert [] + records[i] == records[i];
  }

  lemma EndOfFile(crc: Crc, file: seq<Byte>)
    ensures RecordAt(crc, file, |file|, false, []) == Found(None, |file|, 0)
  {
    assert BlockEnd(|file|) > |file|;
  }

  lemma {:induction false} ReadFrom(crc: Crc, records: seq<seq<Byte>>, n: nat, k: nat, i: nat)
    requires n <= |LogFile(crc, records)| && Whole(crc, records, n, k) && i <= k
    ensures |LogFile(crc, records[..i])| <= n
    ensures AllRecords(crc, LogFile(crc, records)[..n], |LogFile(crc, records[..i])|) == Contents(records[i..k], 0)
    decreases k - i
  {
    hide RecordAt, PhysicalAt, LogFile;
    assert records[..k][..i] == records[..i];
    LogFileGrows(crc, records[..k], i);
    if i < k {
      ReadFrom(crc, records, n, k, i + 1);
      RecordInPrefix(crc, records, n, i);
      assert records[i..k] == [records[i]] + records[i + 1..k];
    } else if k < |records| {
      RecordInPrefix(crc, records, n, k);
    } else {
      assert records[..k] == records;
      EndOfFile(crc, LogFile(crc, records)[..n]);
    }
  }

  /** The log survives truncation: from any prefix of the file the reader returns exactly the
      records wholly in it, in order, and reports no corruption. */
  lemma TruncatedLog(crc: Crc, records: seq<seq<Byte>>, n: nat, k: nat)
    requires n <= |LogFile(crc, records)| && Whole(crc, records, n, k)
    ensures AllRecords(crc, LogFile(crc, records)[..n], 0) == Contents(records[..k], 0)
  {
    assert records[..0] == [];
    ReadFrom(crc, records, n, k, 0);
    assert records[0..k] == records[..k];
  }

  /** Records whose bytes are all in the prefix, as those before a sync are, are among the ones
      read. */
  lemma SyncedRecordsStay(crc: Crc, records: seq<seq<Byte>>, synced: nat, n: nat, k: nat)
    requires synced <= |records| && |LogFile(crc, records[..synced])| <= n && Whole(crc, records, n, k)
    ensures synced <= k
  {
    if k < synced {
      assert records[..synced][..k + 1] == records[..k + 1];
      LogFileGrows(crc, records[..synced], k + 1);
    }
  }

  /** Reads all of a file, as recovery does. */
  method ReadAll(crc: Crc, file: seq<Byte>) returns (records: seq<seq<Byte>>, corruptions: nat)
    ensures AllRecords(crc, file, 0) == Contents(records, corruptions)
  {
    hide RecordAt, PhysicalAt;
    var reader := new Reader(crc, file);
    records := [];
    var more := true;
    while more
      invariant reader.Valid() && fresh(reader) && reader.file == file && reader.crc == crc
      invariant AllRecords(crc, file, 0) ==
        Contents(records + (if more then AllRecords(crc, file, reader.At()).records else []),
                 reader.corruptions + (if more then AllRecords(crc, file, reader.At()).drops else 0))
      decreases more, |file| - reader.At()
    {
      ghost var before := records;
      var record := reader.ReadRecord();
      if record.Some? {
        records := records + [record.value];
        assert forall rest :: before + ([record.value] + rest) == records + rest;
      } else {
        more := false;
      }
    }
    corruptions := reader.corruptions;
  }
}
