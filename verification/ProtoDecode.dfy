/** Decoding a message (nanopb: pb_decode.c). */
module ProtoDecode {
  import opened Format
  import opened Coding
  import opened Proto

  // What is read, with what remains

  type Rest<T> = Option<(T, Bytes)>

  function ReadN(s: Bytes, n: nat): (r: Rest<Bytes>)
    ensures r.Some? ==> |r.value.0| == n && |r.value.1| == |s| - n
  {
    if |s| < n then None else Some((s[..n], s[n..]))
  }

  /** pb_decode_varint32 after k bytes with the value `low`. Longer forms are read if they repeat
      the sign. */
  function Varint32From(s: Bytes, k: nat, low: Word): (r: Rest<Word>)
    ensures r.Some? ==> |r.value.1| < |s|
    decreases |s|
  {
    if s == [] || k >= 10 then None
    else
      var b := s[0];
      if k >= 5 && b % 128 != 0 && (low < 0x8000_0000 || b != if k < 9 then 0xFF else 0x01) then None
      else
        var now: Word := if k >= 5 then low else (low + b % 128 * Base128(k)) % TWO_32;
        if b >= 128 then Varint32From(s[1..], k + 1, now)
        else if k == 4 && b / 16 % 8 != 0 then None
        else Some((now, s[1..]))
  }

  function ReadVarint32(s: Bytes): (r: Rest<Word>)
    ensures r.Some? ==> |r.value.1| < |s|
  {
    Varint32From(s, 0, 0)
  }

  /** pb_decode_varint after k bytes, in 64 bits. */
  function VarintFrom(s: Bytes, k: nat, low: nat): (r: Rest<nat>)
    ensures r.Some? ==> |r.value.1| < |s| && r.value.0 < TWO_64
    decreases |s|
  {
    if s == [] || k >= 10 then None
    else
      var now := (low + s[0] % 128 * Base128(k)) % TWO_64;
      if s[0] >= 128 then VarintFrom(s[1..], k + 1, now) else Some((now, s[1..]))
  }

  function ReadVarint(s: Bytes): (r: Rest<nat>)
    ensures r.Some? ==> |r.value.1| < |s| && r.value.0 < TWO_64
  {
    VarintFrom(s, 0, 0)
  }

  /** A length and as many bytes. */
  function ReadPrefixed(s: Bytes): (r: Rest<Bytes>)
    ensures r.Some? ==> |r.value.1| < |s|
  {
    var n := ReadVarint32(s);
    if n.None? then None else ReadN(n.value.1, n.value.0)
  }

  function SkipVarint(s: Bytes): (r: Option<Bytes>)
    ensures r.Some? ==> |r.value| < |s|
  {
    if s == [] then None else if s[0] >= 128 then SkipVarint(s[1..]) else Some(s[1..])
  }

  /** pb_skip_field. */
  function SkipField(wireType: nat, s: Bytes): (r: Option<Bytes>)
    ensures r.Some? ==> |r.value| <= |s|
  {
    if wireType == WT_VARINT then SkipVarint(s)
    else if wireType == WT_64BIT then AfterRead(ReadN(s, 8))
    else if wireType == WT_STRING then AfterRead(ReadPrefixed(s))
    else if wireType == WT_32BIT then AfterRead(ReadN(s, 4))
    else None
  }

  function AfterRead(r: Rest<Bytes>): Option<Bytes> {
    if r.None? then None else Some(r.value.1)
  }

  /** A 64-bit pattern, or its lower half, as a signed number. */
  function Signed64(v: nat): int {
    if v % TWO_64 < TWO_64 / 2 then v % TWO_64 else v % TWO_64 - TWO_64
  }

  function Signed32(v: nat): int {
    if v % TWO_32 < TWO_32 / 2 then v % TWO_32 else v % TWO_32 - TWO_32
  }

  function UnZigZag(v: nat): int {
    if v % 2 == 1 then -(v / 2) - 1 else v / 2
  }

  /** The number when a variable of the kind can hold it: "integer too large" otherwise. */
  function Checked(kind: FieldType, n: int): (r: Option<Value>)
    ensures r.Some? ==> r.value == Num(n) && InRange(kind, n)
  {
    if InRange(kind, n) then Some(Num(n)) else None
  }

  function NumFrom(kind: FieldType, v: nat): (r: Option<Value>)
    requires kind.Int? || kind.UInt? || kind.SInt?
    ensures r.Some? ==> r.value.Num? && InRange(kind, r.value.n)
  {
    if !IntSize(kind.size) then None
    else if kind.Int? then Checked(kind, if kind.size == 8 then Signed64(v) else Signed32(v))
    else if kind.UInt? then Checked(kind, v)
    else Checked(kind, UnZigZag(v))
  }

  // Defaults

  predicate HasGroup(d: Desc, g: nat) {
    exists i :: 0 <= i < |d.fields| && d.fields[i].rule == Oneof(g)
  }

  /** pb_message_set_to_defaults. Arrays and unions only become empty. */
  function Defaults(d: Desc, m: Message): (r: Message)
    requires Shaped(d, m)
    ensures Shaped(d, r)
    decreases d
  {
    Message(
      seq(|d.fields|, i requires 0 <= i < |d.fields| => DefaultSlot(d.fields[i], m.slots[i])),
      seq(|m.which|, g requires 0 <= g < |m.which| => if HasGroup(d, g) then 0 else m.which[g]))
  }

  function DefaultSlot(f: Field, s: Slot): (r: Slot)
    requires ShapedSlot(f, s)
    ensures ShapedSlot(f, r)
    decreases f
  {
    match f.rule
    case Repeated(_) => s.(count := 0)
    case FixedCount(_) => s
    case Oneof(_) => s
    case _ => Slot(false, s.count, [DefaultValue(f.kind, f.init, s.items[0])])
  }

  function DefaultValue(kind: FieldType, init: Value, v: Value): (r: Value)
    requires ShapedValue(kind, v) && (kind.Sub? || ShapedValue(kind, init))
    ensures ShapedValue(kind, r)
    decreases kind
  {
    if kind.Sub? then Msg(Defaults(kind.desc, v.m)) else init
  }

  // Values

  /** The field decoders. An array item that is a message is set to its defaults first. */
  function DecValue(kind: FieldType, item: bool, was: Value, s: Bytes): (r: Rest<Value>)
    requires ShapedValue(kind, was)
    ensures r.Some? ==> ShapedValue(kind, r.value.0) && |r.value.1| < |s|
    decreases kind, 0
  {
    match kind
    case Bool =>
      var v := ReadVarint32(s);
      if v.None? then None else Some((Num(if v.value.0 != 0 then 1 else 0), v.value.1))
    case Fixed32 =>
      var b := ReadN(s, 4);
      if b.None? then None else Some((Num(DecodeFixed32(b.value.0)), b.value.1))
    case Fixed64 =>
      var b := ReadN(s, 8);
      if b.None? then None else Some((Num(DecodeFixed64(b.value.0)), b.value.1))
    case Blob(capacity) =>
      var b := ReadPrefixed(s);
      if b.None? || |b.value.0| > capacity then None else Some((Data(b.value.0), b.value.1))
    case Text(size) =>
      var b := ReadPrefixed(s);
      if b.None? || |b.value.0| + 1 > size then None
      else Some((Data(b.value.0 + [0] + was.bytes[|b.value.0| + 1..]), b.value.1))
    case FixedBlob(length) =>
      var b := ReadPrefixed(s);
      if b.None? then None
      else if b.value.0 == [] then Some((Data(seq(length, i => 0)), b.value.1))
      else if |b.value.0| != length then None
      else Some((Data(b.value.0), b.value.1))
    case Sub(d) =>
      var b := ReadPrefixed(s);
      if b.None? then None
      else
        var m := DecMessage(d, if item then Defaults(d, was.m) else was.m, b.value.0);
        if m.None? then None else Some((Msg(m.value.0), b.value.1))
    case _ =>
      var v := ReadVarint(s);
      if v.None? then None
      else
        var n := NumFrom(kind, v.value.0);
        if n.None? then None else Some((n.value, v.value.1))
  }

  /** The items of an array and how many of them there are. */
  datatype Items = Items(items: seq<Value>, count: nat)

  ghost predicate ShapedItems(kind: FieldType, items: seq<Value>)
  {
    forall k :: 0 <= k < |items| ==> ShapedValue(kind, items[k])
  }

  function DecPacked(kind: FieldType, a: Items, s: Bytes): (r: Option<Items>)
    requires ShapedItems(kind, a.items)
    ensures r.Some? ==> |r.value.items| == |a.items| && ShapedItems(kind, r.value.items)
    decreases kind, 1, |s|
  {
    if s == [] then Some(a)
    else if a.count >= |a.items| then None
    else
      var v := DecValue(kind, true, a.items[a.count], s);
      if v.None? then None else DecPacked(kind, Items(a.items[a.count := v.value.0], a.count + 1), v.value.1)
  }

  function DecArray(kind: FieldType, wireType: nat, a: Items, s: Bytes): (r: Rest<Items>)
    requires ShapedItems(kind, a.items)
    ensures r.Some? ==> |r.value.0.items| == |a.items| && ShapedItems(kind, r.value.0.items) && |r.value.1| < |s|
    decreases kind, 2
  {
    if wireType == WT_STRING && Packable(kind) then
      var b := ReadPrefixed(s);
      if b.None? then None
      else
        var p := DecPacked(kind, a, b.value.0);
        if p.None? then None else Some((p.value, b.value.1))
    else if a.count >= |a.items| then None
    else
      var v := DecValue(kind, true, a.items[a.count], s);
      if v.None? then None else Some((Items(a.items[a.count := v.value.0], a.count + 1), v.value.1))
  }

  // Messages

  const MAX_REQUIRED: nat := 64

  /** The state of the loop: the message, the required fields seen by their number, and the array of
      fixed size being filled. */
  datatype Dec = Dec(m: Message, seen: set<nat>, fixedField: Option<nat>, fixedSize: nat)

  function FindField(d: Desc, tag: nat, i: nat): (r: Option<nat>)
    requires i <= |d.fields|
    ensures r.Some? ==> r.value < |d.fields| && d.fields[r.value].tag == tag
    ensures r.None? ==> forall j :: i <= j < |d.fields| ==> d.fields[j].tag != tag
    decreases |d.fields| - i
  {
    if i == |d.fields| then None else if d.fields[i].tag == tag then Some(i) else FindField(d, tag, i + 1)
  }

  /** Whether the array of fixed size that was being filled is full. */
  predicate FixedFull(d: Desc, st: Dec) {
    st.fixedField.Some? && st.fixedField.value < |d.fields| ==>
      st.fixedSize == Capacity(d.fields[st.fixedField.value].rule)
  }

  /** What is noted before a field is decoded. */
  function Enter(d: Desc, i: nat, st: Dec): (r: Option<Dec>)
    requires i < |d.fields|
    ensures r.Some? ==> r.value.m == st.m
  {
    var f := d.fields[i];
    if f.rule.FixedCount? && st.fixedField != Some(i) then
      if FixedFull(d, st) then Some(st.(fixedField := Some(i), fixedSize := 0)) else None
    else if f.rule.Required?
      && RequiredBefore(d, i) < MAX_REQUIRED then Some(st.(seen := st.seen + {RequiredBefore(d, i)}))
    else Some(st)
  }

  function Store(m: Message, i: nat, s: Slot): Message
    requires i < |m.slots|
  {
    m.(slots := m.slots[i := s])
  }

  /** decode_static_field. */
  function DecField(d: Desc, i: nat, wireType: nat, st: Dec, s: Bytes): (r: Rest<Dec>)
    requires Shaped(d, st.m) && i < |d.fields|
    ensures r.Some? ==> Shaped(d, r.value.0.m) && |r.value.1| < |s|
    decreases d, 0
  {
    var f, slot := d.fields[i], st.m.slots[i];
    assert ShapedSlot(f, slot);
    match f.rule
    case Repeated(_) =>
      var a := DecArray(f.kind, wireType, Items(slot.items, slot.count), s);
      if a.None? then None
      else Some((st.(m := Store(st.m, i, slot.(items := a.value.0.items, count := a.value.0.count))), a.value.1))
    case FixedCount(_) =>
      var a := DecArray(f.kind, wireType, Items(slot.items, st.fixedSize), s);
      if a.None? then None
      else Some((st.(m := Store(st.m, i, slot.(items := a.value.0.items)), fixedSize := a.value.0.count), a.value.1))
    case Oneof(g) =>
      var was := if f.kind.Sub? && st.m.which[g] != f.tag then Msg(Defaults(f.kind.desc, slot.items[0].m))
        else slot.items[0];
      var v := DecValue(f.kind, false, was, s);
      if v.None? then None
      else Some((st.(m := Store(st.m, i, slot.(items := [v.value.0])).(which := st.m.which[g := f.tag])), v.value.1))
    case _ =>
      var v := DecValue(f.kind, false, slot.items[0], s);
      if v.None? then None
      else Some((st.(m := Store(st.m, i, slot.(items := [v.value.0], has := slot.has || f.rule.Optional?))), v.value.1))
  }

  /** The loop over the fields in the input; a zero tag ends it. */
  function DecFields(d: Desc, st: Dec, s: Bytes): (r: Rest<Dec>)
    requires Shaped(d, st.m)
    ensures r.Some? ==> Shaped(d, r.value.0.m)
    decreases d, 1, |s|
  {
    if s == [] then Some((st, []))
    else
      var t := ReadVarint32(s);
      if t.None? then None
      else if t.value.0 == 0 then Some((st, t.value.1))
      else
        var found, rest := FindField(d, t.value.0 / 8, 0), t.value.1;
        if found.None? then
          var skipped := SkipField(t.value.0 % 8, rest);
          if skipped.None? then None else DecFields(d, st, skipped.value)
        else
          var entered := Enter(d, found.value, st);
          if entered.None? then None
          else
            var next := DecField(d, found.value, t.value.0 % 8, entered.value, rest);
            if next.None? then None else DecFields(d, next.value.0, next.value.1)
  }

  /** Whether all required fields the decoder keeps track of were seen. */
  predicate AllSeen(d: Desc, seen: set<nat>) {
    forall r :: 0 <= r < RequiredBefore(d, |d.fields|) && r < MAX_REQUIRED ==> r in seen
  }

  /** pb_decode_noinit. */
  function DecMessage(d: Desc, m: Message, s: Bytes): (r: Rest<Message>)
    requires Shaped(d, m)
    ensures r.Some? ==> Shaped(d, r.value.0)
    decreases d, 2
  {
    var st := DecFields(d, Dec(m, {}, None, 0), s);
    if st.None? || !FixedFull(d, st.value.0) || !AllSeen(d, st.value.0.seen) then None
    else Some((st.value.0.m, st.value.1))
  }

  /** pb_decode. */
  function Decoded(d: Desc, m: Message, s: Bytes): (r: Rest<Message>)
    requires Shaped(d, m)
    ensures r.Some? ==> Shaped(d, r.value.0)
  {
    DecMessage(d, Defaults(d, m), s)
  }

  // The decoder

  class IStream {
    const data: Bytes
    var pos: nat
    var left: nat

    ghost predicate Valid()
      reads this
    {
      pos + left <= |data|
    }

    function Rest(): (s: Bytes)
      requires Valid()
      reads this
      ensures |s| == left
    {
      data[pos..pos + left]
    }

    constructor (data: Bytes, pos: nat, left: nat)
      requires pos + left <= |data|
      ensures Valid() && Rest() == data[pos..pos + left] && this.data == data && this.pos == pos && this.left == left
    {
      this.data, this.pos, this.left := data, pos, left;
    }

    /** pb_read. */
    method Read(n: nat) returns (r: Option<Bytes>)
      requires Valid()
      modifies this
      ensures Valid() && (r.Some? <==> ReadN(old(Rest()), n).Some?)
      ensures pos + left == old(pos + left) && (r.Some? ==> (r.value, Rest()) == ReadN(old(Rest()), n).value)
    {
      if left < n { return None; }
      r := Some(data[pos..pos + n]);
      pos, left := pos + n, left - n;
      assert r.value == old(Rest())[..n] && Rest() == old(Rest())[n..];
    }

    method ReadByte() returns (r: Option<Byte>)
      requires Valid()
      modifies this
      ensures Valid() && pos + left == old(pos + left) && (r.Some? <==> old(Rest()) != [])
      ensures r.Some? ==> r.value == old(Rest())[0] && Rest() == old(Rest())[1..]
    {
      if left == 0 { return None; }
      r := Some(data[pos]);
      pos, left := pos + 1, left - 1;
    }
  }

  /** One byte more. */
  lemma {:induction false} Varint32Step(s: Bytes, k: nat, low: Word)
    requires s != [] && k < 10
    ensures var now: Word := if k >= 5 then low else (low + s[0] % 128 * Base128(k)) % TWO_32;
      Varint32From(s, k, low) ==
        if k >= 5 && s[0] % 128 != 0 && (low < 0x8000_0000 || s[0] != if k < 9 then 0xFF else 0x01) then None
        else if s[0] >= 128 then Varint32From(s[1..], k + 1, now)
        else if k == 4 && s[0] / 16 % 8 != 0 then None
        else Some((now, s[1..]))
  {
  }

  lemma {:induction false} Varint32Short(s: Bytes, k: nat, low: Word)
    requires s == [] || k >= 10
    ensures Varint32From(s, k, low) == None
  {
  }

  method DecodeVarint32(s: IStream) returns (r: Option<Word>)
    requires s.Valid()
    modifies s
    ensures s.Valid() && s.pos + s.left == old(s.pos + s.left) && (r.Some? <==> ReadVarint32(old(s.Rest())).Some?)
    ensures r.Some? ==> (r.value, s.Rest()) == ReadVarint32(old(s.Rest())).value
  {
    hide Varint32From;
    ghost var all := s.Rest();
    var byte := s.ReadByte();
    if byte.None? {
      Varint32Short(all, 0, 0);
      return None;
    }
    Varint32Step(all, 0, 0);
    if byte.value < 128 { return Some(byte.value); }
    var result: Word, bitpos: nat, scale: nat := byte.value % 128, 7, 128;
    ghost var k: nat := 1;
    while true
      invariant s.Valid() && s.pos + s.left == old(s.pos + s.left) && byte.Some? && byte.value >= 128 && bitpos == 7 * k
      invariant scale == Base128(k) && 1 <= k <= 10
      invariant Varint32From(s.Rest(), k, result) == Varint32From(all, 0, 0)
      decreases s.left
    {
      ghost var more := s.Rest();
      if bitpos >= 70 || more == [] { Varint32Short(more, k, result); } else { Varint32Step(more, k, result); }
      // Forms of more than ten bytes count as errors here.
      if bitpos >= 70 { return None; }
      byte := s.ReadByte();
      if byte.None? { return None; }
      if bitpos >= 32 {
        var signExtension := if bitpos < 63 then 0xFF else 0x01;
        if byte.value % 128 != 0 && (result < 0x8000_0000 || byte.value != signExtension) { return None; }
      } else {
        result := (result + byte.value % 128 * scale) % TWO_32;
      }
      bitpos, scale, k := bitpos + 7, scale * 128, k + 1;
      if byte.value < 128 {
        if bitpos == 35 && byte.value / 16 % 8 != 0 { return None; }
        return Some(result);
      }
    }
  }

  method DecodeVarint(s: IStream) returns (r: Option<nat>)
    requires s.Valid()
    modifies s
    ensures s.Valid() && s.pos + s.left == old(s.pos + s.left) && (r.Some? <==> ReadVarint(old(s.Rest())).Some?)
    ensures r.Some? ==> (r.value, s.Rest()) == ReadVarint(old(s.Rest())).value
  {
    var result: nat, bitpos: nat, scale: nat := 0, 0, 1;
    ghost var k: nat := 0;
    while true
      invariant s.Valid() && s.pos + s.left == old(s.pos + s.left) && bitpos == 7 * k && scale == Base128(k) && k <= 10
      invariant VarintFrom(s.Rest(), k, result) == ReadVarint(old(s.Rest()))
      decreases s.left
    {
      if bitpos >= 64 { return None; }
      var byte := s.ReadByte();
      if byte.None? { return None; }
      result := (result + byte.value % 128 * scale) % TWO_64;
      bitpos, scale, k := bitpos + 7, scale * 128, k + 1;
      if byte.value < 128 { return Some(result); }
    }
  }

  method SkipOne(s: IStream, wireType: nat) returns (ok: bool)
    requires s.Valid()
    modifies s
    ensures s.Valid() && s.pos + s.left == old(s.pos + s.left) && (ok <==> SkipField(wireType, old(s.Rest())).Some?)
    ensures ok ==> s.Rest() == SkipField(wireType, old(s.Rest())).value
  {
    if wireType == WT_VARINT {
      while true
        invariant s.Valid() && s.pos + s.left == old(s.pos + s.left)
        invariant SkipVarint(s.Rest()) == SkipVarint(old(s.Rest()))
        decreases s.left
      {
        var byte := s.ReadByte();
        if byte.None? { return false; }
        if byte.value < 128 { return true; }
      }
    }
    var n := 0;
    if wireType == WT_STRING {
      var length := DecodeVarint32(s);
      if length.None? { return false; }
      n := length.value;
    } else if wireType == WT_64BIT {
      n := 8;
    } else if wireType == WT_32BIT {
      n := 4;
    } else {
      return false;
    }
    var bytes := s.Read(n);
    return bytes.Some?;
  }

  /** pb_make_string_substream: the parent keeps its position until the substream is closed. */
  method MakeSubstream(s: IStream) returns (sub: Option<IStream>)
    requires s.Valid()
    modifies s
    ensures s.Valid() && (sub.Some? <==> ReadPrefixed(old(s.Rest())).Some?) && s.pos + s.left <= old(s.pos + s.left)
    ensures sub.Some? ==>
      && fresh(sub.value) && sub.value.Valid() && sub.value.data == s.data
      && sub.value.pos + sub.value.left + s.left == old(s.pos + s.left) <= |s.data|
      && sub.value.Rest() == ReadPrefixed(old(s.Rest())).value.0
      && s.data[sub.value.pos + sub.value.left..sub.value.pos + sub.value.left + s.left] ==
        ReadPrefixed(old(s.Rest())).value.1
  {
    var size := DecodeVarint32(s);
    if size.None? || s.left < size.value { return None; }
    var o := new IStream(s.data, s.pos, size.value);
    s.left := s.left - size.value;
    sub := Some(o);
  }

  method CloseSubstream(s: IStream, sub: IStream)
    requires s.Valid() && sub.Valid() && s != sub && sub.data == s.data && sub.pos + sub.left + s.left <= |s.data|
    modifies s, sub
    ensures s.Valid() && s.left == old(s.left) && s.pos == old(sub.pos + sub.left)
  {
    if sub.left > 0 { var skipped := sub.Read(sub.left); }
    s.pos := sub.pos;
  }

  method DecodeValue(s: IStream, kind: FieldType, item: bool, was: Value) returns (r: Option<Value>)
    requires s.Valid() && ShapedValue(kind, was)
    modifies s
    ensures s.Valid() && s.pos + s.left <= old(s.pos + s.left)
    ensures (r.Some? <==> DecValue(kind, item, was, old(s.Rest())).Some?)
    ensures r.Some? ==> s.pos + s.left == old(s.pos + s.left)
    ensures r.Some? ==> (r.value, s.Rest()) == DecValue(kind, item, was, old(s.Rest())).value
    decreases kind, 0
  {
    hide ReadVarint32, ReadVarint;
    match kind
    case Bool =>
      var v := DecodeVarint32(s);
      r := if v.None? then None else Some(Num(if v.value != 0 then 1 else 0));
    case Fixed32 =>
      var b := s.Read(4);
      r := if b.None? then None else Some(Num(DecodeFixed32(b.value)));
    case Fixed64 =>
      var b := s.Read(8);
      r := if b.None? then None else Some(Num(DecodeFixed64(b.value)));
    case Blob(_) => r := DecodeBytes(s, kind, item, was);
    case Text(_) => r := DecodeBytes(s, kind, item, was);
    case FixedBlob(_) => r := DecodeBytes(s, kind, item, was);
    case Sub(d) => r := DecodeSub(s, d, item, was);
    case _ =>
      var v := DecodeVarint(s);
      r := if v.None? then None else NumFrom(kind, v.value);
  }

  /** pb_dec_bytes, pb_dec_string and pb_dec_fixed_length_bytes. */
  method DecodeBytes(s: IStream, kind: FieldType, item: bool, was: Value) returns (r: Option<Value>)
    requires s.Valid() && ShapedValue(kind, was) && (kind.Blob? || kind.Text? || kind.FixedBlob?)
    modifies s
    ensures s.Valid() && s.pos + s.left <= old(s.pos + s.left)
    ensures (r.Some? <==> DecValue(kind, item, was, old(s.Rest())).Some?)
    ensures r.Some? ==> s.pos + s.left == old(s.pos + s.left)
    ensures r.Some? ==> (r.value, s.Rest()) == DecValue(kind, item, was, old(s.Rest())).value
  {
    hide ReadVarint32;
    var size := DecodeVarint32(s);
    if size.None? { return None; }
    match kind
    case Blob(capacity) =>
      if size.value > capacity { return None; }
      var b := s.Read(size.value);
      r := if b.None? then None else Some(Data(b.value));
    case Text(memory) =>
      if size.value + 1 > memory { return None; }
      var b := s.Read(size.value);
      r := if b.None? then None else Some(Data(b.value + [0] + was.bytes[size.value + 1..]));
    case FixedBlob(length) =>
      if size.value == 0 { return Some(Data(seq(length, i => 0))); }
      if size.value != length { return None; }
      var b := s.Read(size.value);
      r := if b.None? then None else Some(Data(b.value));
  }

  /** pb_dec_submessage. */
  method DecodeSub(s: IStream, d: Desc, item: bool, was: Value) returns (r: Option<Value>)
    requires s.Valid() && ShapedValue(Sub(d), was)
    modifies s
    ensures s.Valid() && s.pos + s.left <= old(s.pos + s.left)
    ensures (r.Some? <==> DecValue(Sub(d), item, was, old(s.Rest())).Some?)
    ensures r.Some? ==> s.pos + s.left == old(s.pos + s.left)
    ensures r.Some? ==> (r.value, s.Rest()) == DecValue(Sub(d), item, was, old(s.Rest())).value
    decreases d, 9
  {
    assert Shaped(d, was.m);
    var sub := MakeSubstream(s);
    if sub.None? { return None; }
    var m := DecodeMessage(sub.value, d, if item then Defaults(d, was.m) else was.m);
    CloseSubstream(s, sub.value);
    r := if m.None? then None else Some(Msg(m.value));
  }

  /** The items of a packed array, from a stream of its own. */
  method DecodePacked(s: IStream, kind: FieldType, start: Items) returns (r: Option<Items>)
    requires s.Valid() && ShapedItems(kind, start.items)
    modifies s
    ensures s.Valid() && s.pos + s.left <= old(s.pos + s.left) && r == DecPacked(kind, start, old(s.Rest()))
    ensures r.Some? ==> s.left == 0 && s.pos + s.left == old(s.pos + s.left)
    decreases kind, 1
  {
    hide DecValue, ShapedValue;
    var a := start;
    while s.left > 0 && a.count < |a.items|
      invariant s.Valid() && ShapedItems(kind, a.items) && s.pos + s.left == old(s.pos + s.left)
      invariant DecPacked(kind, a, s.Rest()) == DecPacked(kind, start, old(s.Rest()))
      decreases s.left
    {
      var v := DecodeValue(s, kind, true, a.items[a.count]);
      if v.None? { return None; }
      a := Items(a.items[a.count := v.value], a.count + 1);
    }
    if s.left != 0 { return None; }
    r := Some(a);
  }

  /** The repeated fields of decode_static_field. */
  method DecodeArray(s: IStream, kind: FieldType, wireType: nat, a: Items) returns (r: Option<Items>)
    requires s.Valid() && ShapedItems(kind, a.items)
    modifies s
    ensures s.Valid() && s.pos + s.left <= old(s.pos + s.left)
    ensures (r.Some? <==> DecArray(kind, wireType, a, old(s.Rest())).Some?)
    ensures r.Some? ==>
        (r.value, s.Rest()) == DecArray(kind, wireType, a, old(s.Rest())).value && s.pos + s.left == old(s.pos + s.left)
    decreases kind, 2
  {
    hide DecValue, ShapedValue, DecPacked;
    if wireType == WT_STRING && Packable(kind) {
      var sub := MakeSubstream(s);
      if sub.None? { return None; }
      r := DecodePacked(sub.value, kind, a);
      if r.Some? { CloseSubstream(s, sub.value); }
    } else {
      if a.count >= |a.items| { return None; }
      var v := DecodeValue(s, kind, true, a.items[a.count]);
      if v.None? { return None; }
      r := Some(Items(a.items[a.count := v.value], a.count + 1));
    }
  }

  /** decode_static_field. */
  method DecodeField(s: IStream, d: Desc, i: nat, wireType: nat, st: Dec) returns (r: Option<Dec>)
    requires s.Valid() && Shaped(d, st.m) && i < |d.fields|
    modifies s
    ensures s.Valid() && s.pos + s.left <= old(s.pos + s.left)
    ensures (r.Some? <==> DecField(d, i, wireType, st, old(s.Rest())).Some?)
    ensures r.Some? ==>
        (r.value, s.Rest()) == DecField(d, i, wireType, st, old(s.Rest())).value
        && s.pos + s.left == old(s.pos + s.left)
    decreases d, 0
  {
    hide DecValue, DecArray, Defaults;
    var f, slot := d.fields[i], st.m.slots[i];
    assert ShapedSlot(f, slot);
    match f.rule
    case Repeated(_) =>
      var a := DecodeArray(s, f.kind, wireType, Items(slot.items, slot.count));
      r := if a.None? then None
        else Some(st.(m := Store(st.m, i, slot.(items := a.value.items, count := a.value.count))));
    case FixedCount(_) =>
      var a := DecodeArray(s, f.kind, wireType, Items(slot.items, st.fixedSize));
      r := if a.None? then None
        else Some(st.(m := Store(st.m, i, slot.(items := a.value.items)), fixedSize := a.value.count));
    case Oneof(g) =>
      var was := slot.items[0];
      if f.kind.Sub? && st.m.which[g] != f.tag {
        // Zeroing the memory first, as the code does, matters to callbacks only.
        was := Msg(Defaults(f.kind.desc, was.m));
      }
      var v := DecodeValue(s, f.kind, false, was);
      r := if v.None? then None
        else Some(st.(m := Store(st.m, i, slot.(items := [v.value])).(which := st.m.which[g := f.tag])));
    case _ =>
      var v := DecodeValue(s, f.kind, false, slot.items[0]);
      r := if v.None? then None
        else Some(st.(m := Store(st.m, i, slot.(items := [v.value], has := slot.has || f.rule.Optional?))));
  }

  /** pb_decode_noinit. */
  method DecodeMessage(s: IStream, d: Desc, m: Message) returns (r: Option<Message>)
    requires s.Valid() && Shaped(d, m)
    modifies s
    ensures s.Valid() && s.pos + s.left <= old(s.pos + s.left) && (r.Some? <==> DecMessage(d, m, old(s.Rest())).Some?)
    ensures r.Some? ==>
        (r.value, s.Rest()) == DecMessage(d, m, old(s.Rest())).value && s.pos + s.left == old(s.pos + s.left)
    decreases d, 8
  {
    hide Shaped, DecFields, FixedFull, AllSeen, RequiredBefore;
    var iter := new FieldIter(d);
    var st, ended := Dec(m, {}, None, 0), false;
    while s.left > 0 && !ended
      invariant s.Valid() && s.pos + s.left == old(s.pos + s.left) && Shaped(d, st.m) && iter.Valid() && iter.desc == d
      invariant fresh(iter)
      invariant DecFields(d, Dec(m, {}, None, 0), old(s.Rest())) == if ended then Some((st, s.Rest()))
          else DecFields(d, st, s.Rest())
      decreases !ended, s.left
    {
      ghost var before := s.Rest();
      var t := DecodeVarint32(s);
      if t.None? {
        RoundFails(d, st, before);
        return None;
      }
      if t.value == 0 {
        RoundEnds(d, st, before);
        ended := true;
      } else {
        var found := iter.Find(t.value / 8);
        if !found {
          ghost var rest := s.Rest();
          NotFound(d, t.value / 8, 0);
          RoundSkips(d, st, before);
          var ok := SkipOne(s, t.value % 8);
          if !ok { return None; }
        } else {
          Found(d, iter.pos, 0) by { ShapedTags(d, st.m); }
          RoundDecodes(d, st, before, iter.pos);
          var entered := Enter(d, iter.pos, st);
          if entered.None? { return None; }
          var next := DecodeField(s, d, iter.pos, t.value % 8, entered.value);
          if next.None? { return None; }
          st := next.value;
        }
      }
    }
    if !ended { DecNothing(d, st, s.Rest()); }
    if !FixedFull(d, st) { return None; }
    var all := CheckRequired(iter, st.seen);
    r := if all then Some(st.m) else None;
  }

  /** The required fields are counted by running to the end of the table. */
  method CheckRequired(iter: FieldIter, seen: set<nat>) returns (all: bool)
    requires iter.Valid()
    modifies iter
    ensures all <==> AllSeen(iter.desc, seen)
  {
    var count, lastRequired := 0, false;
    if iter.desc.fields != [] {
      var more := true;
      while more
        invariant iter.Valid() && (more ==> iter.pos < |iter.desc.fields|)
        invariant !more ==> count + (if lastRequired then 1 else 0) == RequiredBefore(iter.desc, |iter.desc.fields|)
        decreases more, |iter.desc.fields| - iter.pos
      {
        count, lastRequired := iter.requiredIndex, iter.desc.fields[iter.pos].rule.Required?;
        more := iter.Next();
      }
    }
    if lastRequired { count := count + 1; }
    if count > MAX_REQUIRED { count := MAX_REQUIRED; }
    for i := 0 to count
      invariant forall r :: 0 <= r < i ==> r in seen
    {
      if i !in seen { return false; }
    }
    return true;
  }

  /** pb_message_set_to_defaults, over the fields in turn. */
  method SetDefaults(d: Desc, m: Message) returns (r: Message)
    requires Shaped(d, m)
    ensures r == Defaults(d, m)
  {
    r := m;
    var iter := new FieldIter(d);
    if d.fields == [] {
      assert r.slots == Defaults(d, m).slots && r.which == Defaults(d, m).which;
      return;
    }
    var more := true;
    while more
      invariant iter.Valid() && iter.desc == d && fresh(iter) && |r.slots| == |d.fields| && |r.which| == |m.which|
      invariant forall j :: 0 <= j < |d.fields| ==> r.slots[j] == if more && j >= iter.pos then m.slots[j]
          else DefaultSlot(d.fields[j], m.slots[j])
      invariant forall g :: 0 <= g < |m.which| ==>
          r.which[g] == if GroupBefore(d, g, if more then iter.pos else |d.fields|) then 0 else m.which[g]
      decreases more, |d.fields| - iter.pos
    {
      var i := iter.pos;
      var f := d.fields[i];
      assert ShapedSlot(f, m.slots[i]);
      r := r.(slots := r.slots[i := DefaultSlot(f, r.slots[i])]);
      if f.rule.Oneof? { r := r.(which := r.which[f.rule.group := 0]); }
      more := iter.Next();
    }
    assert forall g :: 0 <= g < |m.which| ==> (GroupBefore(d, g, |d.fields|) <==> HasGroup(d, g));
    assert r.slots == Defaults(d, m).slots && r.which == Defaults(d, m).which;
  }

  ghost predicate GroupBefore(d: Desc, g: nat, n: nat) {
    exists i :: 0 <= i < n && i < |d.fields| && d.fields[i].rule == Oneof(g)
  }

  /** pb_decode. */
  method Decode(s: IStream, d: Desc, memory: Message) returns (r: Option<Message>)
    requires s.Valid() && Shaped(d, memory)
    modifies s
    ensures s.Valid() && (r.Some? <==> Decoded(d, memory, old(s.Rest())).Some?)
    ensures r.Some? ==> (r.value, s.Rest()) == Decoded(d, memory, old(s.Rest())).value
  {
    hide Shaped, DecMessage;
    var m := SetDefaults(d, memory);
    r := DecodeMessage(s, d, m);
  }

  // Rounds of the loop

  lemma RoundFails(d: Desc, st: Dec, s: Bytes)
    requires Shaped(d, st.m) && s != [] && ReadVarint32(s).None?
    ensures DecFields(d, st, s) == None
  {
  }

  lemma RoundEnds(d: Desc, st: Dec, s: Bytes)
    requires Shaped(d, st.m) && s != [] && ReadVarint32(s).Some? && ReadVarint32(s).value.0 == 0
    ensures DecFields(d, st, s) == Some((st, ReadVarint32(s).value.1))
  {
  }

  lemma DecNothing(d: Desc, st: Dec, s: Bytes)
    requires Shaped(d, st.m) && s == []
    ensures DecFields(d, st, s) == Some((st, s))
  {
  }

  lemma RoundSkips(d: Desc, st: Dec, s: Bytes)
    requires Shaped(d, st.m) && s != [] && ReadVarint32(s).Some? && ReadVarint32(s).value.0 != 0
    requires FindField(d, ReadVarint32(s).value.0 / 8, 0).None?
    ensures var skipped := SkipField(ReadVarint32(s).value.0 % 8, ReadVarint32(s).value.1);
      DecFields(d, st, s) == if skipped.None? then None else DecFields(d, st, skipped.value)
  {
  }

  lemma RoundDecodes(d: Desc, st: Dec, s: Bytes, i: nat)
    requires Shaped(d, st.m) && s != [] && ReadVarint32(s).Some? && ReadVarint32(s).value.0 != 0
    requires i < |d.fields| && FindField(d, ReadVarint32(s).value.0 / 8, 0) == Some(i)
    ensures var entered := Enter(d, i, st);
      DecFields(d, st, s) ==
        if entered.None? then None
        else
          var next := DecField(d, i, ReadVarint32(s).value.0 % 8, entered.value, ReadVarint32(s).value.1);
          if next.None? then None else DecFields(d, next.value.0, next.value.1)
  {
  }

  lemma ShapedTags(d: Desc, m: Message)
    requires Shaped(d, m)
    ensures TagsOk(d)
  {
  }

  lemma NotFound(d: Desc, tag: nat, from: nat)
    requires from <= |d.fields| && forall i :: 0 <= i < |d.fields| ==> d.fields[i].tag != tag
    ensures FindField(d, tag, from).None?
  {
  }

  lemma Found(d: Desc, i: nat, from: nat)
    requires TagsOk(d) && from <= i < |d.fields|
    ensures FindField(d, d.fields[i].tag, from) == Some(i)
  {
  }
}
