/** Encoding a message (nanopb: pb_encode.c): a sizing pass counts what the writing pass emits. */
module ProtoEncode {
  import opened Format
  import opened Coding
  import opened Proto

  datatype Error = StreamFull | ArrayTooLarge | BytesTooLarge | InvalidSize | SizeChanged

  datatype Status = Done | Failed(error: Error)

  /** A stream that only counts has no callback. */
  class OStream {
    const sizing: bool
    const maxSize: nat
    var out: Bytes
    var written: nat

    ghost predicate Valid()
      reads this
    {
      sizing || written <= maxSize
    }

    /** What a call did that was to write r, None standing for data that cannot be encoded: it
        succeeds when there is room and then has written r and nothing else. */
    ghost predicate Wrote(out0: Bytes, written0: nat, r: Option<Bytes>, st: Status)
      reads this
    {
      && (st.Done? <==> r.Some? && (sizing || written0 + |r.value| <= maxSize))
      && (st.Done? ==> written == written0 + |r.value| && out == if sizing then out0 else out0 + r.value)
      && st != Failed(SizeChanged)
    }

    constructor (sizing: bool, maxSize: nat, out: Bytes)
      ensures Valid() && this.sizing == sizing && this.maxSize == maxSize && this.out == out && written == 0
    {
      this.sizing, this.maxSize, this.out, written := sizing, maxSize, out, 0;
    }

    /** pb_write; a counting stream does not look at the bytes. */
    method Write(bytes: Bytes, count: nat) returns (st: Status)
      requires Valid() && (!sizing ==> count == |bytes|)
      modifies this
      ensures Valid() && (st.Done? <==> sizing || old(written) + count <= maxSize) && st != Failed(SizeChanged)
      ensures st.Done? ==> written == old(written) + count && out == if sizing then old(out) else old(out) + bytes
    {
      if count > 0 && !sizing {
        if written + count > maxSize { return Failed(StreamFull); }
        out := out + bytes;
      }
      written := written + count;
      return Done;
    }

    method WriteBytes(bytes: Bytes) returns (st: Status)
      requires Valid()
      modifies this
      ensures Valid() && Wrote(old(out), old(written), Some(bytes), st)
    {
      st := Write(bytes, |bytes|);
    }
  }

  method EncodeVarint(s: OStream, value: nat) returns (st: Status)
    requires s.Valid()
    modifies s
    ensures s.Valid() && s.Wrote(old(s.out), old(s.written), Some(Varint(value)), st)
  {
    if value <= 0x7F {
      st := s.WriteBytes([value]);
      return;
    }
    hide Building;
    var buffer: Bytes, v: nat := [], value;
    BuildFirst(value);
    while v > 0
      invariant s.Valid() && s.out == old(s.out) && s.written == old(s.written)
      invariant Building(buffer, v, value) && (v == 0 ==> buffer != [] && buffer[|buffer| - 1] >= 0x80)
    {
      BuildNext(buffer, v, value);
      buffer := buffer + [v % 0x80 + 0x80];
      v := v / 0x80;
    }
    BuildLast(buffer, value);
    buffer := buffer[..|buffer| - 1] + [buffer[|buffer| - 1] - 0x80];
    st := s.WriteBytes(buffer);
  }

  /** The groups so far all have the top bit set, also the last. */
  ghost predicate Building(buffer: Bytes, v: nat, value: nat) {
    if v > 0 then buffer + Varint(v) == Varint(value) else
      && buffer != [] && buffer[|buffer| - 1] >= 0x80
      && buffer[..|buffer| - 1] + [buffer[|buffer| - 1] - 0x80] == Varint(value)
  }

  lemma BuildFirst(value: nat)
    requires value > 0
    ensures Building([], value, value)
  {
    assert [] + Varint(value) == Varint(value);
  }

  lemma BuildNext(buffer: Bytes, v: nat, value: nat)
    requires Building(buffer, v, value) && v > 0
    ensures Building(buffer + [v % 0x80 + 0x80], v / 0x80, value)
  {
    var now := buffer + [v % 0x80 + 0x80];
    assert now[..|now| - 1] == buffer;
    if v >= 0x80 { assert now + Varint(v / 0x80) == buffer + ([v % 0x80 + 0x80] + Varint(v / 0x80)); }
  }

  lemma BuildLast(buffer: Bytes, value: nat)
    requires Building(buffer, 0, value)
    ensures buffer != [] && buffer[|buffer| - 1] >= 0x80
    ensures buffer[..|buffer| - 1] + [buffer[|buffer| - 1] - 0x80] == Varint(value)
  {
  }

  method EncodeTag(s: OStream, wireType: nat, tag: nat) returns (st: Status)
    requires s.Valid()
    modifies s
    ensures s.Valid() && s.Wrote(old(s.out), old(s.written), Some(TagBytes(tag, wireType)), st)
  {
    st := EncodeVarint(s, tag * 8 + wireType);
  }

  method EncodeString(s: OStream, bytes: Bytes) returns (st: Status)
    requires s.Valid()
    modifies s
    ensures s.Valid() && s.Wrote(old(s.out), old(s.written), Some(Prefixed(bytes)), st)
  {
    st := EncodeVarint(s, |bytes|);
    if st.Done? { st := s.WriteBytes(bytes); }
  }

  /** strnlen. */
  method Length(mem: Bytes) returns (n: nat)
    ensures n == |CString(mem)| <= |mem| && mem[..n] == CString(mem)
  {
    hide CString;
    n := 0;
    assert mem[0..] == mem && [] + CString(mem) == CString(mem);
    while n < |mem| && mem[n] != 0
      invariant n <= |mem| && CString(mem) == mem[..n] + CString(mem[n..])
    {
      StringStep(mem, n);
      assert mem[..n + 1] == mem[..n] + [mem[n]];
      n := n + 1;
    }
    StringStep(mem, n);
    assert mem[..n] + [] == mem[..n];
  }

  lemma StringStep(mem: Bytes, n: nat)
    requires n <= |mem|
    ensures CString(mem[n..]) == if n < |mem| && mem[n] != 0 then [mem[n]] + CString(mem[n + 1..]) else []
  {
    if n < |mem| { assert mem[n..][1..] == mem[n + 1..]; }
  }

  method EncodeValue(s: OStream, kind: FieldType, v: Value) returns (st: Status)
    requires s.Valid() && ShapedValue(kind, v)
    modifies s
    ensures s.Valid() && s.Wrote(old(s.out), old(s.written), EncValue(kind, v), st)
    decreases kind, 0
  {
    match kind
    case Bool => st := EncodeVarint(s, if v.n != 0 then 1 else 0);
    case Int(size) =>
      if !IntSize(size) { return Failed(InvalidSize); }
      st := EncodeVarint(s, Unsigned(v.n));
    case UInt(size) =>
      if !IntSize(size) { return Failed(InvalidSize); }
      st := EncodeVarint(s, v.n);
    case SInt(size) =>
      if !IntSize(size) { return Failed(InvalidSize); }
      st := EncodeVarint(s, ZigZag(v.n));
    case Fixed32 => st := s.WriteBytes(EncodeFixed32(v.n));
    case Fixed64 => st := s.WriteBytes(EncodeFixed64(v.n));
    case Blob(capacity) =>
      if |v.bytes| > capacity { return Failed(BytesTooLarge); }
      st := EncodeString(s, v.bytes);
    case Text(_) =>
      var n := Length(v.bytes);
      st := EncodeString(s, v.bytes[..n]);
    case FixedBlob(_) => st := EncodeString(s, v.bytes);
    case Sub(d) => st := EncodeSubmessage(s, d, v.m);
  }

  /** The size is found by encoding without writing, then the message is encoded again into what is
      left; that the size could have changed is never reported. */
  method EncodeSubmessage(s: OStream, d: Desc, m: Message) returns (st: Status)
    requires s.Valid() && Shaped(d, m)
    modifies s
    ensures s.Valid()
    ensures var body := Encoded(d, m);
      s.Wrote(old(s.out), old(s.written), if body.None? then None else Some(Prefixed(body.value)), st)
    decreases d, 5
  {
    hide Shaped, EncFrom, Prefixed, Varint;
    ghost var body := Encoded(d, m);
    var sizes := new OStream(true, 0, []);
    st := EncodeMessage(sizes, d, m);
    if !st.Done? { return; }
    var size := sizes.written;
    PrefixedIs(body.value);
    st := EncodeVarint(s, size);
    if !st.Done? { return; }
    if s.sizing {
      st := s.Write([], size);
      return;
    }
    if s.written + size > s.maxSize { return Failed(StreamFull); }
    var sub := new OStream(false, size, s.out);
    st := EncodeMessage(sub, d, m);
    s.written := s.written + sub.written;
    s.out := sub.out;
    if sub.written != size { return Failed(SizeChanged); }
  }

  lemma PrefixedIs(s: Bytes)
    ensures Prefixed(s) == Varint(|s|) + s
  {
  }

  /** pb_encode. */
  method EncodeMessage(s: OStream, d: Desc, m: Message) returns (st: Status)
    requires s.Valid() && Shaped(d, m)
    modifies s
    ensures s.Valid() && s.Wrote(old(s.out), old(s.written), Encoded(d, m), st)
    decreases d, 4
  {
    hide EncField, Shaped, ShapedSlot, EncFrom, Join, RequiredBefore;
    EncEnd(d, m);
    var iter := new FieldIter(d);
    if d.fields == [] { return Done; }
    var more := true;
    ghost var done: Bytes := [];
    JoinNothing(Encoded(d, m));
    while more
      invariant s.Valid() && iter.Valid() && iter.desc == d && fresh(iter)
      invariant Join(Some(done), EncFrom(d, m, if more then iter.pos else |d.fields|)) == Encoded(d, m)
      invariant s.written == old(s.written) + |done| && s.out == if s.sizing then old(s.out) else old(s.out) + done
      decreases more, |d.fields| - iter.pos
    {
      ghost var i := iter.pos;
      EncNext(d, m, i);
      var f, slot, which := d.fields[iter.pos], m.slots[iter.pos], WhichOf(d.fields[iter.pos], m);
      st := EncodeField(s, f, slot, which);
      JoinMore(done, EncField(f, slot, which), EncFrom(d, m, i + 1));
      if !st.Done? { return; }
      done := done + EncField(f, slot, which).value;
      more := iter.Next();
    }
    JoinEnd(done);
    return Done;
  }

  lemma EncEnd(d: Desc, m: Message)
    requires Shaped(d, m)
    ensures EncFrom(d, m, |d.fields|) == Some([])
  {
  }

  lemma EncNext(d: Desc, m: Message, i: nat)
    requires Shaped(d, m) && i < |d.fields|
    ensures |m.slots| == |d.fields| && ShapedSlot(d.fields[i], m.slots[i])
    ensures EncFrom(d, m, i) == Join(EncField(d.fields[i], m.slots[i], WhichOf(d.fields[i], m)), EncFrom(d, m, i + 1))
  {
  }

  lemma JoinNothing(a: Option<Bytes>)
    ensures Join(Some([]), a) == a
  {
    if a.Some? { assert [] + a.value == a.value; }
  }

  lemma JoinEnd(done: Bytes)
    ensures Join(Some(done), Some([])) == Some(done)
  {
    assert done + [] == done;
  }

  lemma JoinMore(done: Bytes, a: Option<Bytes>, b: Option<Bytes>)
    ensures Join(Some(done), Join(a, b)) == Join(Join(Some(done), a), b)
    ensures a.Some? ==> Join(Some(done), a) == Some(done + a.value)
    ensures Join(Some(done), Join(a, b)).Some? ==> a.Some? && |Join(Some(done), Join(a, b)).value| >= |done| + |a.value|
  {
    if a.Some? && b.Some? { assert done + (a.value + b.value) == done + a.value + b.value; }
  }

  /** A tag and a value. */
  method EncodeOne(s: OStream, f: Field, v: Value) returns (st: Status)
    requires s.Valid() && ShapedValue(f.kind, v)
    modifies s
    ensures s.Valid() && s.Wrote(old(s.out), old(s.written), EncOne(f, v), st)
    decreases f, 0
  {
    hide EncValue, Varint, ShapedValue;
    st := EncodeTag(s, WireType(f.kind), f.tag);
    if st.Done? { st := EncodeValue(s, f.kind, v); }
  }

  /** encode_basic_field. */
  method EncodeField(s: OStream, f: Field, slot: Slot, which: nat) returns (st: Status)
    requires s.Valid() && ShapedSlot(f, slot)
    modifies s
    ensures s.Valid() && s.Wrote(old(s.out), old(s.written), EncField(f, slot, which), st)
    decreases f, 3
  {
    hide EncOne, EncArray, ZeroValue;
    match f.rule
    case Required => st := EncodeOne(s, f, slot.items[0]);
    case Optional => if slot.has { st := EncodeOne(s, f, slot.items[0]); } else { st := Done; }
    case Singular => if ZeroValue(f.kind, slot.items[0]) { st := Done; } else { st := EncodeOne(s, f, slot.items[0]); }
    case Repeated(_) => st := EncodeArray(s, f, slot.items, slot.count);
    case FixedCount(n) => st := EncodeArray(s, f, slot.items, n);
    case Oneof(_) => if which == f.tag { st := EncodeOne(s, f, slot.items[0]); } else { st := Done; }
  }

  /** encode_array: packed when the kind allows it. */
  method EncodeArray(s: OStream, f: Field, items: seq<Value>, count: nat) returns (st: Status)
    requires s.Valid() && forall j :: 0 <= j < |items| ==> ShapedValue(f.kind, items[j])
    modifies s
    ensures s.Valid() && s.Wrote(old(s.out), old(s.written), EncArray(f, items, count), st)
    decreases f, 2
  {
    hide EncPacked, EncUnpacked, EncValue, Varint, ShapedValue;
    if count == 0 { return Done; }
    if count > |items| { return Failed(ArrayTooLarge); }
    if Packable(f.kind) {
      st := EncodeTag(s, WT_STRING, f.tag);
      var size: nat;
      var sized := Done;
      size, sized := PackedSize(f.kind, items, count);
      ghost var body := EncPacked(f.kind, items, 0, count);
      if st.Done? {
        if !sized.Done? { return sized; }
        PrefixedIs(body.value);
        st := EncodeVarint(s, size);
        if st.Done? {
          if s.sizing {
            st := s.Write([], size);
          } else {
            st := EncodePacked(s, f.kind, items, count);
          }
        }
      }
    } else {
      st := EncodeUnpacked(s, f, items, count);
    }
  }

  /** The total size of a packed array. */
  method PackedSize(kind: FieldType, items: seq<Value>, count: nat) returns (size: nat, st: Status)
    requires count <= |items| && Packable(kind) && forall j :: 0 <= j < |items| ==> ShapedValue(kind, items[j])
    ensures st.Done? <==> EncPacked(kind, items, 0, count).Some?
    ensures st.Done? ==> size == |EncPacked(kind, items, 0, count).value|
    ensures st != Failed(SizeChanged)
    decreases kind, 2
  {
    if kind.Fixed32? {
      FixedSize(kind, items, 0, count, 4);
      return 4 * count, Done;
    }
    if kind.Fixed64? {
      FixedSize(kind, items, 0, count, 8);
      return 8 * count, Done;
    }
    var sizes := new OStream(true, 0, []);
    st := EncodePacked(sizes, kind, items, count);
    size := sizes.written;
  }

  lemma {:induction false} FixedSize(kind: FieldType, items: seq<Value>, k: nat, count: nat, size: nat)
    requires k <= count <= |items| && forall j :: 0 <= j < |items| ==> ShapedValue(kind, items[j])
    requires (kind.Fixed32? && size == 4) || (kind.Fixed64? && size == 8)
    ensures EncPacked(kind, items, k, count).Some? && |EncPacked(kind, items, k, count).value| == size * (count - k)
    decreases count - k
  {
    if k < count {
      FixedSize(kind, items, k + 1, count, size);
      assert |EncValue(kind, items[k]).value| == size;
      assert size * (count - k) == size + size * (count - (k + 1));
    }
  }

  /** The values of an array, one after another. */
  method EncodePacked(s: OStream, kind: FieldType, items: seq<Value>, count: nat) returns (st: Status)
    requires s.Valid() && count <= |items| && forall j :: 0 <= j < |items| ==> ShapedValue(kind, items[j])
    modifies s
    ensures s.Valid() && s.Wrote(old(s.out), old(s.written), EncPacked(kind, items, 0, count), st)
    decreases kind, 1
  {
    hide EncValue, ShapedValue, EncPacked, Join;
    ghost var done: Bytes, whole := [], EncPacked(kind, items, 0, count);
    JoinNothing(whole);
    for i := 0 to count
      invariant s.Valid() && Join(Some(done), EncPacked(kind, items, i, count)) == whole
      invariant s.written == old(s.written) + |done| && s.out == if s.sizing then old(s.out) else old(s.out) + done
    {
      ghost var e := EncValue(kind, items[i]);
      PackedNext(kind, items, i, count);
      JoinMore(done, e, EncPacked(kind, items, i + 1, count));
      st := EncodeValue(s, kind, items[i]);
      if !st.Done? { return; }
      done := done + e.value;
    }
    PackedEnd(kind, items, count);
    JoinEnd(done);
    return Done;
  }

  lemma PackedNext(kind: FieldType, items: seq<Value>, k: nat, count: nat)
    requires k < count <= |items| && forall j :: 0 <= j < |items| ==> ShapedValue(kind, items[j])
    ensures EncPacked(kind, items, k, count) == Join(EncValue(kind, items[k]), EncPacked(kind, items, k + 1, count))
  {
  }

  lemma PackedEnd(kind: FieldType, items: seq<Value>, count: nat)
    requires count <= |items| && forall j :: 0 <= j < |items| ==> ShapedValue(kind, items[j])
    ensures EncPacked(kind, items, count, count) == Some([])
  {
  }

  method EncodeUnpacked(s: OStream, f: Field, items: seq<Value>, count: nat) returns (st: Status)
    requires s.Valid() && count <= |items| && forall j :: 0 <= j < |items| ==> ShapedValue(f.kind, items[j])
    modifies s
    ensures s.Valid() && s.Wrote(old(s.out), old(s.written), EncUnpacked(f, items, 0, count), st)
    decreases f, 1
  {
    hide EncValue, ShapedValue, EncOne, EncUnpacked, Join;
    ghost var done: Bytes, whole := [], EncUnpacked(f, items, 0, count);
    JoinNothing(whole);
    for i := 0 to count
      invariant s.Valid() && Join(Some(done), EncUnpacked(f, items, i, count)) == whole
      invariant s.written == old(s.written) + |done| && s.out == if s.sizing then old(s.out) else old(s.out) + done
    {
      UnpackedNext(f, items, i, count);
      st := EncodeOne(s, f, items[i]);
      JoinMore(done, EncOne(f, items[i]), EncUnpacked(f, items, i + 1, count));
      if !st.Done? { return; }
      done := done + EncOne(f, items[i]).value;
    }
    UnpackedEnd(f, items, count);
    JoinEnd(done);
    return Done;
  }

  lemma UnpackedNext(f: Field, items: seq<Value>, k: nat, count: nat)
    requires k < count <= |items| && forall j :: 0 <= j < |items| ==> ShapedValue(f.kind, items[j])
    ensures EncUnpacked(f, items, k, count) == Join(EncOne(f, items[k]), EncUnpacked(f, items, k + 1, count))
  {
    OneItem(f, items[k]);
  }

  lemma UnpackedEnd(f: Field, items: seq<Value>, count: nat)
    requires count <= |items| && forall j :: 0 <= j < |items| ==> ShapedValue(f.kind, items[j])
    ensures EncUnpacked(f, items, count, count) == Some([])
  {
  }

  lemma OneItem(f: Field, v: Value)
    requires ShapedValue(f.kind, v)
    ensures EncOne(f, v) == Join(Some(TagBytes(f.tag, WireType(f.kind))), EncValue(f.kind, v))
  {
  }
}
