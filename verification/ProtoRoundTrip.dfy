/** Decoding undoes encoding (nanopb: pb_encode.c, pb_decode.c), whatever memory is decoded into. */
module ProtoRoundTrip {
  import opened Format
  import opened Coding
  import opened Proto
  import opened ProtoEncode
  import opened ProtoDecode

  // Numbers

  lemma Bases()
    ensures Base128(0) == 1 && Base128(1) == 0x80 && Base128(2) == 0x4000 && Base128(3) == 0x20_0000
    ensures Base128(4) == 0x1000_0000
    ensures Base128(5) == 0x8_0000_0000
  {
  }

  /** One group moves from the number to come to the number so far. */
  lemma GroupMoves(low: nat, w: nat, base: nat)
    ensures low + w * base == (low + w % 128 * base) + w / 128 * (128 * base)
    ensures w / 128 * (128 * base) >= 0 && w % 128 * base >= 0
  {
    assert w == w % 128 + w / 128 * 128;
    assert w * base == w % 128 * base + w / 128 * 128 * base;
  }

  lemma MoreBytes(w: nat, base: nat)
    requires w >= 128
    ensures w * base >= 128 * base
  {
  }

  lemma {:induction false} Step64(s: Bytes, k: nat, low: nat, group: nat)
    requires s != [] && k <= 9 && group == s[0] % 128 && low + group * Base128(k) < TWO_64
    ensures var now := low + group * Base128(k);
      VarintFrom(s, k, low) == if s[0] >= 128 then VarintFrom(s[1..], k + 1, now) else Some((now, s[1..]))
  {
    hide Base128;
    var now := low + group * Base128(k);
    assert now % TWO_64 == now;
  }

  lemma {:induction false} Step32(s: Bytes, k: nat, low: Word, group: nat)
    requires s != [] && k <= 4 && group == s[0] % 128 && low + group * Base128(k) < TWO_32
    ensures var now := low + group * Base128(k);
      Varint32From(s, k, low) ==
        if s[0] >= 128 then Varint32From(s[1..], k + 1, now) else if k == 4 && s[0] / 16 % 8 != 0 then None
            else Some((now, s[1..]))
  {
    hide Base128;
    var now := low + group * Base128(k);
    assert now % TWO_32 == now;
  }

  lemma FirstGroup(w: nat, rest: Bytes)
    ensures var s := Varint(w) + rest;
      s[0] == (if w < 128 then w else w % 128 + 128) && s[1..] == if w < 128 then rest else Varint(w / 128) + rest
  {
  }

  lemma {:induction false} Varint32Read(w: nat, rest: Bytes, k: nat, low: nat)
    requires k <= 4 && low + w * Base128(k) < TWO_32
    ensures Varint32From(Varint(w) + rest, k, low) == Some((low + w * Base128(k), rest))
    decreases w
  {
    hide Varint32From, Varint, Base128;
    Groups32(k, w, low);
    Group32(w, rest, k, low);
    if w >= 128 { Varint32Read(w / 128, rest, k + 1, low + w % 128 * Base128(k)); }
  }

  lemma {:induction false} Group32(w: nat, rest: Bytes, k: nat, low: nat)
    requires k <= 4 && low + w * Base128(k) < TWO_32 && low + w % 128 * Base128(k) < TWO_32 && low < TWO_32
    requires (w < 128 && k == 4 ==> w < 16)
    ensures Varint32From(Varint(w) + rest, k, low) ==
      if w >= 128 then Varint32From(Varint(w / 128) + rest, k + 1, low + w % 128 * Base128(k))
          else Some((low + w * Base128(k), rest))
  {
    hide Varint32From, Varint, Base128;
    FirstGroup(w, rest);
    ByteGroup(w);
    Step32(Varint(w) + rest, k, low, w % 128);
  }

  /** The seven bits of the first byte. */
  lemma ByteGroup(w: nat)
    ensures (if w < 128 then w else w % 128 + 128) % 128 == w % 128 && (w < 16 ==> w / 16 % 8 == 0)
  {
  }

  /** What is read of a number below 2^32 stays below it, and its last group is small enough. */
  lemma Groups32(k: nat, w: nat, low: nat)
    requires k <= 4 && low + w * Base128(k) < TWO_32
    ensures low < TWO_32 && low + w % 128 * Base128(k) < TWO_32
    ensures w >= 128 ==> k < 4 && low + w % 128 * Base128(k) + w / 128 * Base128(k + 1) == low + w * Base128(k)
    ensures w < 128 ==> w % 128 == w && (k == 4 ==> w < 16)
  {
    hide Base128;
    BaseFits(k);
    GroupMoves(low, w, Base128(k));
    if w >= 128 { MoreBytes(w, Base128(k)); }
  }

  lemma BaseFits(k: nat)
    requires k <= 4
    ensures Base128(k + 1) == 128 * Base128(k) && Base128(k) > 0 && (k == 4 ==> Base128(k) == 0x1000_0000)
  {
    Bases();
  }

  lemma {:induction false} VarintRead64(w: nat, rest: Bytes, k: nat, low: nat)
    requires k <= 9 && low + w * Base128(k) < TWO_64
    ensures VarintFrom(Varint(w) + rest, k, low) == Some((low + w * Base128(k), rest))
    decreases w
  {
    hide VarintFrom, Varint, Base128;
    Groups64(k, w, low);
    Group64(w, rest, k, low);
    if w >= 128 { VarintRead64(w / 128, rest, k + 1, low + w % 128 * Base128(k)); }
  }

  lemma {:induction false} Group64(w: nat, rest: Bytes, k: nat, low: nat)
    requires k <= 9 && low + w % 128 * Base128(k) < TWO_64
    ensures VarintFrom(Varint(w) + rest, k, low) ==
      if w >= 128 then VarintFrom(Varint(w / 128) + rest, k + 1, low + w % 128 * Base128(k))
          else Some((low + w * Base128(k), rest))
  {
    hide VarintFrom, Varint, Base128;
    FirstGroup(w, rest);
    ByteGroup(w);
    Step64(Varint(w) + rest, k, low, w % 128);
  }

  lemma Groups64(k: nat, w: nat, low: nat)
    requires k <= 9 && low + w * Base128(k) < TWO_64
    ensures low + w % 128 * Base128(k) < TWO_64
    ensures w >= 128 ==> k < 9 && low + w % 128 * Base128(k) + w / 128 * Base128(k + 1) == low + w * Base128(k)
  {
    BasesUp();
    GroupMoves(low, w, Base128(k));
    if w >= 128 { MoreBytes(w, Base128(k)); }
  }

  lemma BasesUp()
    ensures Base128(9) == 0x8000_0000_0000_0000
  {
    Bases();
    assert Base128(6) == 0x400_0000_0000 && Base128(7) == 0x2_0000_0000_0000 && Base128(8) == 0x100_0000_0000_0000;
  }

  lemma UnsignedIs(n: int)
    requires -(TWO_64 / 2) <= n < TWO_64 / 2
    ensures Unsigned(n) == if n < 0 then n + TWO_64 else n
  {
    if n < 0 { assert n + TWO_64 == (n + TWO_64) % TWO_64; }
  }

  lemma SignedBack(n: int)
    requires -(TWO_64 / 2) <= n < TWO_64 / 2
    ensures Signed64(Unsigned(n)) == n && (-(TWO_32 / 2) <= n < TWO_32 / 2 ==> Signed32(Unsigned(n)) == n)
  {
    UnsignedIs(n);
  }

  lemma ZigZagBack(n: int)
    requires -(TWO_64 / 2) <= n < TWO_64 / 2
    ensures ZigZag(n) == (if n < 0 then -2 * n - 1 else 2 * n) && UnZigZag(ZigZag(n)) == n
  {
    UnsignedIs(n);
    if n < 0 {
      assert (n + TWO_64) * 2 == TWO_64 + (2 * n + TWO_64);
      assert (n + TWO_64) * 2 % TWO_64 == 2 * n + TWO_64;
    }
  }

  /** The number written for an integer. */
  function Wire(kind: FieldType, n: int): nat
    requires InRange(kind, n) && (kind.Int? || kind.UInt? || kind.SInt?)
  {
    if kind.Int? then Unsigned(n) else if kind.UInt? then n else ZigZag(n)
  }

  lemma WireBack(kind: FieldType, n: int)
    requires (kind.Int? || kind.UInt? || kind.SInt?) && IntSize(kind.size) && InRange(kind, n)
    ensures Wire(kind, n) < TWO_64 && NumFrom(kind, Wire(kind, n)) == Some(Num(n))
  {
    assert Half(kind.size) <= TWO_64 / 2 && (kind.size < 8 ==> Half(kind.size) <= TWO_32 / 2);
    if kind.Int? {
      SignedBack(n);
    } else if kind.SInt? {
      ZigZagBack(n);
    }
  }

  // What comes back

  ghost predicate SameValue(kind: FieldType, a: Value, b: Value)
    requires ShapedValue(kind, a) && ShapedValue(kind, b)
    decreases kind, 0
  {
    match kind
    case Bool => a.n != 0 <==> b.n != 0
    case Text(_) => CString(a.bytes) == CString(b.bytes)
    case Sub(d) => Same(d, a.m, b.m)
    case _ => a == b
  }

  ghost predicate SameItems(kind: FieldType, a: seq<Value>, b: seq<Value>, k: nat, n: nat)
    requires |a| == |b| && forall j :: 0 <= j < |a| ==> ShapedValue(kind, a[j]) && ShapedValue(kind, b[j])
    decreases kind, 1
  {
    forall j :: k <= j < n && j < |a| ==> SameValue(kind, a[j], b[j])
  }

  /** Absent fields need not agree. */
  ghost predicate SameSlot(f: Field, a: Slot, b: Slot, which: nat)
    requires ShapedSlot(f, a) && ShapedSlot(f, b)
    decreases f
  {
    match f.rule
    case Optional => a.has == b.has && (a.has ==> SameValue(f.kind, a.items[0], b.items[0]))
    case Repeated(_) => a.count == b.count && SameItems(f.kind, a.items, b.items, 0, a.count)
    case FixedCount(n) => SameItems(f.kind, a.items, b.items, 0, n)
    case Oneof(_) => which == f.tag ==> SameValue(f.kind, a.items[0], b.items[0])
    case _ => SameValue(f.kind, a.items[0], b.items[0])
  }

  ghost predicate Same(d: Desc, a: Message, b: Message)
    requires Shaped(d, a) && Shaped(d, b)
    decreases d
  {
    && (forall i :: 0 <= i < |d.fields| ==> SameSlot(d.fields[i], a.slots[i], b.slots[i], WhichOf(d.fields[i], a)))
    && forall i :: 0 <= i < |d.fields| ==> WhichOf(d.fields[i], a) == WhichOf(d.fields[i], b)
  }

  // Which messages

  ghost predicate Chosen(d: Desc, m: Message, g: nat, n: nat) {
    exists j :: 0 <= j < n && j < |d.fields| && d.fields[j].rule == Oneof(g)
      && d.fields[j].tag == WhichOf(d.fields[j], m)
  }

  /** Strings end within their memory. */
  ghost predicate GoodValue(kind: FieldType, v: Value)
    requires ShapedValue(kind, v)
    decreases kind
  {
    match kind
    case Text(size) => |CString(v.bytes)| < size
    case Sub(d) => Good(d, v.m)
    case _ => true
  }

  /** Tags are ones the wire format allows. */
  ghost predicate GoodSlot(f: Field, s: Slot)
    requires ShapedSlot(f, s)
    decreases f
  {
    && f.tag < 0x2000_0000
    && forall j :: 0 <= j < |s.items| ==> GoodValue(f.kind, s.items[j])
  }

  /** A union holds one of its members or none. */
  ghost predicate Good(d: Desc, m: Message)
    requires Shaped(d, m)
    decreases d
  {
    && (forall i :: 0 <= i < |d.fields| ==> GoodSlot(d.fields[i], m.slots[i]))
    && forall i :: 0 <= i < |d.fields| && d.fields[i].rule.Oneof? ==>
         WhichOf(d.fields[i], m) == 0 || Chosen(d, m, d.fields[i].rule.group, |d.fields|)
  }

  // Memory set to its defaults

  ghost predicate FreshValue(f: Field, v: Value)
    requires ShapedValue(f.kind, v)
    decreases f, 0
  {
    if f.kind.Sub? then Fresh(f.kind.desc, v.m) else f.rule.Singular? ==> ZeroValue(f.kind, v)
  }

  ghost predicate FreshSlot(f: Field, s: Slot)
    requires ShapedSlot(f, s)
    decreases f, 1
  {
    match f.rule
    case Repeated(_) => s.count == 0
    case FixedCount(_) => true
    case Oneof(_) => true
    case _ => !s.has && FreshValue(f, s.items[0])
  }

  ghost predicate Fresh(d: Desc, m: Message)
    requires Shaped(d, m)
    decreases d
  {
    && (forall i :: 0 <= i < |d.fields| ==> FreshSlot(d.fields[i], m.slots[i]))
    && forall i :: 0 <= i < |d.fields| ==> WhichOf(d.fields[i], m) == 0
  }

  /** A table whose fields have no defaults that would be taken for values. */
  ghost predicate PlainTable(d: Desc)
    decreases d
  {
    forall i :: 0 <= i < |d.fields| ==> PlainField(d.fields[i])
  }

  ghost predicate PlainField(f: Field)
    decreases f
  {
    && (f.rule.Singular? && !f.kind.Sub? && ShapedValue(f.kind, f.init) ==> ZeroValue(f.kind, f.init))
    && (f.kind.Sub? ==> PlainTable(f.kind.desc))
  }

  lemma {:induction false} DefaultsFresh(d: Desc, m: Message)
    requires Shaped(d, m) && PlainTable(d)
    ensures Fresh(d, Defaults(d, m))
    decreases d
  {
    var r := Defaults(d, m);
    forall i | 0 <= i < |d.fields| ensures FreshSlot(d.fields[i], r.slots[i]) {
      assert PlainField(d.fields[i]) && r.slots[i] == DefaultSlot(d.fields[i], m.slots[i]);
      FieldFresh(d.fields[i], m.slots[i]);
    }
    forall i | 0 <= i < |d.fields| ensures WhichOf(d.fields[i], r) == 0 {
      if d.fields[i].rule.Oneof? { assert HasGroup(d, d.fields[i].rule.group); }
    }
  }

  lemma {:induction false} FieldFresh(f: Field, s: Slot)
    requires ShapedSlot(f, s) && PlainField(f)
    ensures FreshSlot(f, DefaultSlot(f, s))
    decreases f
  {
    if f.rule.Required? || f.rule.Optional? || f.rule.Singular? {
      var v := s.items[0];
      assert DefaultSlot(f, s).items[0] == DefaultValue(f.kind, f.init, v);
      if f.kind.Sub? {
        assert Shaped(f.kind.desc, v.m);
        DefaultsFresh(f.kind.desc, v.m);
      }
    }
  }

  // What is not encoded

  lemma {:induction false} ZeroSame(kind: FieldType, a: Value, b: Value)
    requires ShapedValue(kind, a) && ShapedValue(kind, b) && ZeroValue(kind, a)
    requires if kind.Sub? then Fresh(kind.desc, b.m) else ZeroValue(kind, b)
    ensures SameValue(kind, a, b)
    decreases kind
  {
    if kind.Sub? {
      var d := kind.desc;
      assert Shaped(d, a.m) && Shaped(d, b.m);
      forall i | 0 <= i < |d.fields|
        ensures SameSlot(d.fields[i], a.m.slots[i], b.m.slots[i], WhichOf(d.fields[i], a.m))
        ensures WhichOf(d.fields[i], a.m) == WhichOf(d.fields[i], b.m)
      {
        assert ZeroField(d.fields[i], a.m.slots[i], WhichOf(d.fields[i], a.m));
        assert FreshSlot(d.fields[i], b.m.slots[i]) && WhichOf(d.fields[i], b.m) == 0;
        ZeroFieldSame(d.fields[i], a.m.slots[i], b.m.slots[i], WhichOf(d.fields[i], a.m));
      }
    }
  }

  lemma {:induction false} ZeroFieldSame(f: Field, a: Slot, b: Slot, which: nat)
    requires ShapedSlot(f, a) && ShapedSlot(f, b) && ZeroField(f, a, which) && FreshSlot(f, b) && f.tag > 0
    ensures SameSlot(f, a, b, which)
    decreases f
  {
    if f.rule.Singular? {
      assert FreshValue(f, b.items[0]);
      ZeroSame(f.kind, a.items[0], b.items[0]);
    }
  }

  // Lengths and tags

  lemma PrefixedRead(s: Bytes, rest: Bytes)
    requires |s| < TWO_32
    ensures ReadPrefixed(Prefixed(s) + rest) == Some((s, rest))
  {
    hide Varint32From, Varint;
    Bases();
    assert Prefixed(s) + rest == Varint(|s|) + (s + rest);
    Varint32Read(|s|, s + rest, 0, 0);
    assert (s + rest)[..|s|] == s && (s + rest)[|s|..] == rest;
  }

  lemma PrefixedLonger(s: Bytes)
    ensures |Prefixed(s)| > |s|
  {
  }

  lemma TagRead(tag: nat, wireType: nat, rest: Bytes)
    requires 0 < tag < 0x2000_0000 && wireType < 8
    ensures ReadVarint32(TagBytes(tag, wireType) + rest) == Some((tag * 8 + wireType, rest))
    ensures (tag * 8 + wireType) / 8 == tag && (tag * 8 + wireType) % 8 == wireType && TagBytes(tag, wireType) != []
  {
    hide Varint32From;
    Bases();
    Varint32Read(tag * 8 + wireType, rest, 0, 0);
  }

  // Values

  /** A value that was encoded comes back, and what follows it is left. */
  lemma {:induction false} ValueBack(kind: FieldType, v: Value, item: bool, was: Value, rest: Bytes)
    requires ShapedValue(kind, v) && ShapedValue(kind, was) && GoodValue(kind, v)
    requires EncValue(kind, v).Some? && |EncValue(kind, v).value| < TWO_32
    requires (kind.Sub? ==> PlainTable(kind.desc)) && (!item ==> FreshSub(kind, was))
    ensures var r := DecValue(kind, item, was, EncValue(kind, v).value + rest);
      r.Some? && r.value.1 == rest && SameValue(kind, v, r.value.0)
    decreases kind, 0
  {
    hide ReadVarint32, ReadPrefixed, Prefixed, Varint, DecMessage;
    match kind
    case Bool => VarintBack(if v.n != 0 then 1 else 0, rest);
    case Int(_) => IntBack(kind, v, item, was, rest);
    case UInt(_) => IntBack(kind, v, item, was, rest);
    case SInt(_) => IntBack(kind, v, item, was, rest);
    case Fixed32 => Fixed32Back(kind, v, item, was, rest);
    case Fixed64 => Fixed64Back(kind, v, item, was, rest);
    case Blob(_) =>
      PrefixedLonger(v.bytes);
      PrefixedRead(v.bytes, rest);
    case Text(_) =>
      PrefixedLonger(CString(v.bytes));
      TextBack(kind, v, item, was, rest);
    case FixedBlob(_) =>
      PrefixedLonger(v.bytes);
      BlobBack(kind, v, item, was, rest);
    case Sub(d) =>
      assert Shaped(d, v.m) && Shaped(d, was.m);
      var into := if item then Defaults(d, was.m) else was.m;
      if item { DefaultsFresh(d, was.m); }
      var body := Encoded(d, v.m).value;
      PrefixedLonger(body);
      MessageBack(d, v.m, into);
      PrefixedRead(body, rest);
  }

  lemma {:induction false} IntBack(kind: FieldType, v: Value, item: bool, was: Value, rest: Bytes)
    requires kind.Int? || kind.UInt? || kind.SInt?
    requires ShapedValue(kind, v) && ShapedValue(kind, was) && IntSize(kind.size)
    ensures EncValue(kind, v).Some? && DecValue(kind, item, was, EncValue(kind, v).value + rest) == Some((v, rest))
  {
    hide VarintFrom, Varint, Unsigned, ZigZag, NumFrom;
    WireBack(kind, v.n);
    VarintRead64(Wire(kind, v.n), rest, 0, 0);
    Bases();
  }

  lemma {:induction false} Fixed32Back(kind: FieldType, v: Value, item: bool, was: Value, rest: Bytes)
    requires kind.Fixed32? && ShapedValue(kind, v) && ShapedValue(kind, was)
    ensures DecValue(kind, item, was, EncValue(kind, v).value + rest) == Some((v, rest))
  {
    hide DecodeFixed32;
    var e := EncodeFixed32(v.n);
    DecodeEncode32(v.n, []);
    assert e + [] == e && (e + rest)[..4] == e && (e + rest)[4..] == rest;
  }

  lemma {:induction false} Fixed64Back(kind: FieldType, v: Value, item: bool, was: Value, rest: Bytes)
    requires kind.Fixed64? && ShapedValue(kind, v) && ShapedValue(kind, was)
    ensures DecValue(kind, item, was, EncValue(kind, v).value + rest) == Some((v, rest))
  {
    hide DecodeFixed64, EncodeFixed64;
    var e := EncodeFixed64(v.n);
    DecodeEncode64(v.n, []);
    assert e + [] == e && (e + rest)[..8] == e && (e + rest)[8..] == rest;
  }

  lemma {:induction false} TextBack(kind: FieldType, v: Value, item: bool, was: Value, rest: Bytes)
    requires kind.Text? && ShapedValue(kind, v) && ShapedValue(kind, was) && GoodValue(kind, v)
    requires |CString(v.bytes)| < TWO_32
    ensures var r := DecValue(kind, item, was, EncValue(kind, v).value + rest);
      r.Some? && r.value.1 == rest && SameValue(kind, v, r.value.0)
  {
    hide ReadPrefixed, Prefixed;
    var t := CString(v.bytes);
    PrefixedRead(t, rest);
    NoZeros(v.bytes);
    Terminated(t, was.bytes[|t| + 1..]);
  }

  lemma {:induction false} NoZeros(mem: Bytes)
    ensures forall i :: 0 <= i < |CString(mem)| ==> CString(mem)[i] != 0
  {
    if mem != [] && mem[0] != 0 { NoZeros(mem[1..]); }
  }

  lemma {:induction false} Terminated(t: Bytes, rest: Bytes)
    requires forall i :: 0 <= i < |t| ==> t[i] != 0
    ensures CString(t + [0] + rest) == t
  {
    var mem := t + [0] + rest;
    if t != [] {
      assert mem[1..] == t[1..] + [0] + rest;
      Terminated(t[1..], rest);
    }
  }

  lemma {:induction false} BlobBack(kind: FieldType, v: Value, item: bool, was: Value, rest: Bytes)
    requires kind.FixedBlob? && ShapedValue(kind, v) && ShapedValue(kind, was) && |v.bytes| < TWO_32
    ensures DecValue(kind, item, was, EncValue(kind, v).value + rest) == Some((v, rest))
  {
    hide ReadPrefixed, Prefixed;
    PrefixedRead(v.bytes, rest);
    assert v.bytes == [] ==> v.bytes == seq(kind.length, i => 0);
  }

  lemma VarintBack(n: nat, rest: Bytes)
    requires n < TWO_32
    ensures ReadVarint32(Varint(n) + rest) == Some((n, rest))
  {
    Bases();
    Varint32Read(n, rest, 0, 0);
  }

  // Fields

  /** With the fields before i decoded and the others still as they were set at first. */
  ghost predicate Progress(d: Desc, m: Message, st: Dec, i: nat)
    requires Shaped(d, m) && Shaped(d, st.m)
  {
    && (forall j :: 0 <= j < i && j < |d.fields| ==>
      SameSlot(d.fields[j], m.slots[j], st.m.slots[j], WhichOf(d.fields[j], m)))
    && (forall j :: i <= j < |d.fields| ==> FreshSlot(d.fields[j], st.m.slots[j]))
    && (forall j :: 0 <= j < |d.fields| ==> WhichOf(d.fields[j], st.m) == WhichSoFar(d, m, j, i))
    && (i <= |d.fields| ==> forall r :: 0 <= r < RequiredBefore(d, i) && r < MAX_REQUIRED ==> r in st.seen)
    && (st.fixedField.Some? ==> st.fixedField.value < i && FixedFull(d, st))
  }

  ghost function WhichSoFar(d: Desc, m: Message, j: nat, i: nat): nat
    requires j < |d.fields|
  {
    if d.fields[j].rule.Oneof? && Chosen(d, m, d.fields[j].rule.group, i) then WhichOf(d.fields[j], m) else 0
  }

  /** Field i is done: its slot is the same, its union is set if it is the member held, it is noted
      if required, and an array of fixed size that was begun is full. */
  ghost predicate FieldDone(d: Desc, m: Message, st: Dec, next: Dec, i: nat)
    requires Shaped(d, m) && Shaped(d, st.m) && Shaped(d, next.m) && i < |d.fields|
  {
    var f := d.fields[i];
    && (forall j :: 0 <= j < |d.fields| && j != i ==> next.m.slots[j] == st.m.slots[j])
    && SameSlot(f, m.slots[i], next.m.slots[i], WhichOf(f, m))
    && (if f.rule.Oneof? && WhichOf(f, m) == f.tag then f.rule.group < |st.m.which|
      && next.m.which == st.m.which[f.rule.group := f.tag]
        else next.m.which == st.m.which)
    && (forall r :: r in st.seen || (f.rule.Required? && r == RequiredBefore(d, i) && r < MAX_REQUIRED) ==>
      r in next.seen)
    && (next.fixedField.Some? ==> next.fixedField.value <= i && FixedFull(d, next))
  }

  lemma {:induction false} DoneProgress(d: Desc, m: Message, st: Dec, next: Dec, i: nat)
    requires Shaped(d, m) && Shaped(d, st.m) && Shaped(d, next.m) && i < |d.fields|
    requires Progress(d, m, st, i) && FieldDone(d, m, st, next, i)
    ensures Progress(d, m, next, i + 1)
  {
    hide SameSlot, FreshSlot, Shaped, Chosen;
    var f := d.fields[i];
    ShapedParts(d, m);
    ShapedParts(d, st.m);
    ShapedParts(d, next.m);
    forall j | 0 <= j < |d.fields| ensures WhichOf(d.fields[j], next.m) == WhichSoFar(d, m, j, i + 1) {
      if d.fields[j].rule.Oneof? { ChosenNext(d, m, i, j); }
      assert WhichOf(d.fields[j], st.m) == WhichSoFar(d, m, j, i);
    }
  }

  lemma ShapedParts(d: Desc, m: Message)
    requires Shaped(d, m)
    ensures |m.slots| == |d.fields| && TagsOk(d)
    ensures forall i :: 0 <= i < |d.fields| ==> ShapedSlot(d.fields[i], m.slots[i])
    ensures forall i :: 0 <= i < |d.fields| && d.fields[i].rule.Oneof? ==> d.fields[i].rule.group < |m.which|
  {
  }

  lemma ChosenNext(d: Desc, m: Message, i: nat, j: nat)
    requires i < |d.fields| && j < |d.fields| && d.fields[j].rule.Oneof?
    ensures Chosen(d, m, d.fields[j].rule.group, i + 1) <==>
      Chosen(d, m, d.fields[j].rule.group, i)
        || (d.fields[i].rule == d.fields[j].rule && d.fields[i].tag == WhichOf(d.fields[i], m))
  {
    var g := d.fields[j].rule.group;
    if Chosen(d, m, g, i + 1) {
      var k :| 0 <= k < i + 1 && k < |d.fields| && d.fields[k].rule == Oneof(g)
        && d.fields[k].tag == WhichOf(d.fields[k], m);
      if k < i { assert Chosen(d, m, g, i); }
    }
  }

  lemma {:induction false} MessageBack(d: Desc, m: Message, was: Message)
    requires Shaped(d, m) && Shaped(d, was) && Good(d, m) && PlainTable(d) && Fresh(d, was)
    requires Encoded(d, m).Some? && |Encoded(d, m).value| < TWO_32
    ensures var r := DecMessage(d, was, Encoded(d, m).value);
      r.Some? && r.value.1 == [] && Same(d, m, r.value.0)
    decreases d, 9
  {
    hide SameSlot, FreshSlot, EncFrom, DecFields, Chosen, Shaped;
    var st := Dec(was, {}, None, 0);
    ShapedParts(d, m);
    ShapedParts(d, was);
    assert Progress(d, m, st, 0) by { NoneChosen(d, m); }
    FieldsBack(d, m, st, 0);
    var r := DecFields(d, st, Encoded(d, m).value).value.0;
    forall i | 0 <= i < |d.fields| ensures WhichOf(d.fields[i], m) == WhichOf(d.fields[i], r.m) {
      assert WhichOf(d.fields[i], r.m) == WhichSoFar(d, m, i, |d.fields|);
    }
  }

  lemma NoneChosen(d: Desc, m: Message)
    ensures forall g :: !Chosen(d, m, g, 0)
  {
  }

  lemma {:induction false} FieldsBack(d: Desc, m: Message, st: Dec, i: nat)
    requires Shaped(d, m) && Shaped(d, st.m) && Good(d, m) && PlainTable(d) && i <= |d.fields| && Progress(d, m, st, i)
    requires EncFrom(d, m, i).Some? && |EncFrom(d, m, i).value| < TWO_32
    ensures var r := DecFields(d, st, EncFrom(d, m, i).value);
      r.Some? && r.value.1 == [] && Progress(d, m, r.value.0, |d.fields|)
    decreases d, 8, |d.fields| - i
  {
    hide Progress, Good, Shaped, EncField, EncFrom, DecFields, PlainTable;
    EncParts(d, m, i);
    if i == |d.fields| {
      DecNothing(d, st, []);
    } else {
      var e, rest := EncField(d.fields[i], m.slots[i], WhichOf(d.fields[i], m)).value, EncFrom(d, m, i + 1).value;
      var next := FieldBack(d, m, st, i, rest);
      DoneProgress(d, m, st, next, i);
      FieldsBack(d, m, next, i + 1);
    }
  }

  lemma EncParts(d: Desc, m: Message, i: nat)
    requires Shaped(d, m) && i <= |d.fields| && EncFrom(d, m, i).Some?
    ensures |m.slots| == |d.fields|
    ensures if i == |d.fields| then EncFrom(d, m, i).value == []
      else
        ShapedSlot(d.fields[i], m.slots[i])
        && var e := EncField(d.fields[i], m.slots[i], WhichOf(d.fields[i], m));
           e.Some? && EncFrom(d, m, i + 1).Some? && EncFrom(d, m, i).value == e.value + EncFrom(d, m, i + 1).value
  {
  }

  /** The encoding of a field is one or more rounds of the decoder's loop, or none. */
  lemma {:induction false} FieldBack(d: Desc, m: Message, st: Dec, i: nat, rest: Bytes) returns (next: Dec)
    requires Shaped(d, m) && Shaped(d, st.m) && Good(d, m) && PlainTable(d) && i < |d.fields| && Progress(d, m, st, i)
    requires var e := EncField(d.fields[i], m.slots[i], WhichOf(d.fields[i], m)); e.Some? && |e.value| < TWO_32
    ensures Shaped(d, next.m) && FieldDone(d, m, st, next, i)
    ensures DecFields(d, st, EncField(d.fields[i], m.slots[i], WhichOf(d.fields[i], m)).value + rest) ==
        DecFields(d, next, rest)
    decreases d, 7
  {
    hide Progress, Good, Shaped, DecFields, PlainTable, EncOne, EncArray;
    FieldFacts(d, m, st, i);
    var f, slot := d.fields[i], m.slots[i];
    match f.rule
    case Required => next := OneBack(d, m, st, i, rest);
    case Optional =>
      if slot.has { next := OneBack(d, m, st, i, rest); } else { next := Absent(d, m, st, i, rest); }
    case Singular =>
      if ZeroValue(f.kind, slot.items[0]) {
        next := Absent(d, m, st, i, rest); } else { next := OneBack(d, m, st, i, rest);
      }
    case Oneof(_) =>
      if WhichOf(f, m) == f.tag { next := OneBack(d, m, st, i, rest); } else { next := Absent(d, m, st, i, rest); }
    case Repeated(_) => next := ArrayBack(d, m, st, i, slot.count, rest);
    case FixedCount(n) => next := ArrayBack(d, m, st, i, n, rest);
  }

  /** What is known of field i, out of the predicates over all fields. */
  lemma FieldFacts(d: Desc, m: Message, st: Dec, i: nat)
    requires Shaped(d, m) && Shaped(d, st.m) && Good(d, m) && PlainTable(d) && i < |d.fields| && Progress(d, m, st, i)
    ensures |m.slots| == |d.fields| == |st.m.slots| && TagsOk(d)
    ensures ShapedSlot(d.fields[i], m.slots[i]) && ShapedSlot(d.fields[i], st.m.slots[i])
    ensures GoodSlot(d.fields[i], m.slots[i]) && FreshSlot(d.fields[i], st.m.slots[i]) && PlainField(d.fields[i])
    ensures d.fields[i].tag > 0 && d.fields[i].tag < 0x2000_0000
    ensures d.fields[i].rule.Oneof? ==> d.fields[i].rule.group < |st.m.which| && d.fields[i].rule.group < |m.which|
    ensures st.fixedField.Some? ==> st.fixedField.value < i && FixedFull(d, st)
  {
  }

  lemma {:induction false} Absent(d: Desc, m: Message, st: Dec, i: nat, rest: Bytes) returns (next: Dec)
    requires Shaped(d, m) && Shaped(d, st.m) && Good(d, m) && PlainTable(d) && i < |d.fields| && Progress(d, m, st, i)
    requires var f, s := d.fields[i], m.slots[i];
      (f.rule.Optional? && !s.has) || (f.rule.Singular? && ZeroValue(f.kind, s.items[0]))
        || (f.rule.Oneof? && WhichOf(f, m) != f.tag)
      || (f.rule.Repeated? && s.count == 0) || f.rule == FixedCount(0)
    ensures next == st && FieldDone(d, m, st, next, i) && [] + rest == rest
  {
    hide Progress, Good, Shaped, PlainTable, PlainField, GoodSlot, Fresh, SameValue;
    next := st;
    FieldFacts(d, m, st, i);
    var f, a, b := d.fields[i], m.slots[i], st.m.slots[i];
    if f.rule.Singular? {
      OneFacts(d, m, st, i);
      ZeroSame(f.kind, a.items[0], b.items[0]);
    }
    assert SameSlot(f, a, b, WhichOf(f, m));
  }

  /** A round of the loop. */
  lemma {:induction false} Round(d: Desc, st: Dec, i: nat, wireType: nat, body: Bytes, entered: Dec, next: Dec,
      rest: Bytes)
    requires Shaped(d, st.m) && i < |d.fields| && TagsOk(d) && d.fields[i].tag < 0x2000_0000 && wireType < 8
    requires Enter(d, i, st) == Some(entered) && DecField(d, i, wireType, entered, body) == Some((next, rest))
    ensures DecFields(d, st, TagBytes(d.fields[i].tag, wireType) + body) == DecFields(d, next, rest)
  {
    hide ReadVarint32, TagBytes, Shaped, DecField, Enter, DecFields;
    TagRead(d.fields[i].tag, wireType, body);
    Found(d, i, 0);
    RoundDecodes(d, st, TagBytes(d.fields[i].tag, wireType) + body, i);
  }

  lemma NotYetChosen(d: Desc, m: Message, i: nat)
    requires i < |d.fields| && TagsOk(d) && d.fields[i].rule.Oneof? && WhichOf(d.fields[i], m) == d.fields[i].tag
    ensures !Chosen(d, m, d.fields[i].rule.group, i)
  {
  }

  /** A field with one value. */
  lemma {:induction false} OneBack(d: Desc, m: Message, st: Dec, i: nat, rest: Bytes) returns (next: Dec)
    requires Shaped(d, m) && Shaped(d, st.m) && Good(d, m) && PlainTable(d) && i < |d.fields| && Progress(d, m, st, i)
    requires var f, s := d.fields[i], m.slots[i];
      f.rule.Required? || (f.rule.Optional? && s.has) || f.rule.Singular? || (f.rule.Oneof? && WhichOf(f, m) == f.tag)
    requires ShapedSlot(d.fields[i], m.slots[i])
    requires var e := EncOne(d.fields[i], m.slots[i].items[0]); e.Some? && |e.value| < TWO_32
    ensures Shaped(d, next.m) && FieldDone(d, m, st, next, i)
    ensures DecFields(d, st, EncOne(d.fields[i], m.slots[i].items[0]).value + rest) == DecFields(d, next, rest)
    decreases d, 6
  {
    hide Progress, Good, Shaped, DecFields, PlainTable, DecValue, EncValue, Fresh, SameValue, GoodValue, Chosen,
        ShapedValue;
    FieldFacts(d, m, st, i);
    OneFacts(d, m, st, i);
    var f, slot := d.fields[i], st.m.slots[i];
    var v, was := m.slots[i].items[0], slot.items[0];
    if f.kind.Sub? && f.rule.Oneof? {
      assert ShapedValue(f.kind, was);
      SubShaped(f.kind, was);
      was := Msg(Defaults(f.kind.desc, was.m));
    }
    var body := EncValue(f.kind, v).value + rest;
    ValueBack(f.kind, v, false, was, rest);
    var entered := Enter(d, i, st).value;
    next := DecField(d, i, WireType(f.kind), entered, body).value.0;
    Round(d, st, i, WireType(f.kind), body, entered, next, rest);
    assert EncOne(f, v).value + rest == TagBytes(f.tag, WireType(f.kind)) + body;
  }

  lemma SubShaped(kind: FieldType, v: Value)
    requires kind.Sub? && ShapedValue(kind, v)
    ensures v.Msg? && Shaped(kind.desc, v.m) && ShapedValue(kind, Msg(Defaults(kind.desc, v.m)))
    ensures PlainTable(kind.desc) ==> FreshSub(kind, Msg(Defaults(kind.desc, v.m)))
  {
    if PlainTable(kind.desc) { DefaultsFresh(kind.desc, v.m); }
  }

  lemma OneFacts(d: Desc, m: Message, st: Dec, i: nat)
    requires Shaped(d, m) && Shaped(d, st.m) && Good(d, m) && PlainTable(d) && i < |d.fields| && Progress(d, m, st, i)
    ensures var f := d.fields[i];
      && (f.rule.Oneof? && WhichOf(f, m) == f.tag ==> WhichOf(f, st.m) == 0)
      && (f.kind.Sub? ==> PlainTable(f.kind.desc))
      && ShapedSlot(f, m.slots[i]) && ShapedSlot(f, st.m.slots[i])
      && (forall j :: 0 <= j < |m.slots[i].items| ==> GoodValue(f.kind, m.slots[i].items[j]))
      && (f.rule.Required? || f.rule.Optional? || f.rule.Singular? ==> FreshSub(f.kind, st.m.slots[i].items[0]))
  {
    FieldFacts(d, m, st, i);
    var f := d.fields[i];
    if f.rule.Oneof? && WhichOf(f, m) == f.tag { NotYetChosen(d, m, i); }
    assert WhichOf(f, st.m) == WhichSoFar(d, m, i, i);
    if f.kind.Sub? && (f.rule.Required? || f.rule.Optional? || f.rule.Singular?) {
      assert FreshValue(f, st.m.slots[i].items[0]);
    }
  }

  ghost predicate FreshSub(kind: FieldType, v: Value)
    requires ShapedValue(kind, v)
  {
    kind.Sub? ==> Fresh(kind.desc, v.m)
  }

  // Arrays

  lemma {:induction false} PackedBack(kind: FieldType, items: seq<Value>, was: seq<Value>, k: nat, count: nat)
      returns (r: seq<Value>)
    requires Packable(kind) && k <= count <= |items| == |was| && ShapedItems(kind, items) && ShapedItems(kind, was)
    requires EncPacked(kind, items, k, count).Some? && |EncPacked(kind, items, k, count).value| < TWO_32
    ensures |r| == |items| && ShapedItems(kind, r) && (forall j :: 0 <= j < k ==> r[j] == was[j])
    ensures DecPacked(kind, Items(was, k), EncPacked(kind, items, k, count).value) == Some(Items(r, count))
    ensures SameItems(kind, items, r, k, count)
    decreases kind, 1, count - k
  {
    hide DecValue, EncValue, SameValue, ShapedValue, Varint;
    r := was;
    if k < count {
      var v, rest := EncValue(kind, items[k]).value, EncPacked(kind, items, k + 1, count).value;
      assert GoodValue(kind, items[k]) && !kind.Sub?;
      NotSub(kind, was[k]);
      ValueBack(kind, items[k], true, was[k], rest);
      var x := DecValue(kind, true, was[k], v + rest).value.0;
      r := PackedBack(kind, items, was[k := x], k + 1, count);
      assert r[k] == x;
    }
  }

  lemma NotSub(kind: FieldType, v: Value)
    requires Packable(kind) && ShapedValue(kind, v)
    ensures FreshSub(kind, v)
  {
  }

  /** The array in field i has its first k items. */
  ghost predicate Filled(d: Desc, m: Message, st: Dec, i: nat, k: nat)
    requires Shaped(d, m) && Shaped(d, st.m) && i < |d.fields|
  {
    var f := d.fields[i];
    assert ShapedSlot(f, m.slots[i]) && ShapedSlot(f, st.m.slots[i]);
    && (f.rule.Repeated? || f.rule.FixedCount?) && SameItems(f.kind, m.slots[i].items, st.m.slots[i].items, 0, k)
    && (f.rule.Repeated? ==>
      st.m.slots[i].count == k && (st.fixedField.Some? ==> st.fixedField.value < i && FixedFull(d, st)))
    && (f.rule.FixedCount? ==>
          if k == 0 then st.fixedField.Some? ==> st.fixedField.value < i && FixedFull(d, st)
          else st.fixedField == Some(i) && st.fixedSize == k)
  }

  /** Only field i and the count of items differ. */
  ghost predicate OnlyAt(st: Dec, next: Dec, i: nat) {
    && |next.m.slots| == |st.m.slots| && next.m.which == st.m.which && next.seen == st.seen
    && forall j :: 0 <= j < |st.m.slots| && j != i ==> next.m.slots[j] == st.m.slots[j]
  }

  /** An array that is not packed: one round for each item. */
  lemma {:induction false} UnpackedBack(d: Desc, m: Message, st: Dec, i: nat, k: nat, count: nat, rest: Bytes)
      returns (next: Dec)
    requires Shaped(d, m) && Shaped(d, st.m) && Good(d, m) && PlainTable(d) && i < |d.fields| && Filled(d, m, st, i, k)
    requires ShapedSlot(d.fields[i], m.slots[i]) && k <= count <= |m.slots[i].items| && !Packable(d.fields[i].kind)
    requires var e := EncUnpacked(d.fields[i], m.slots[i].items, k, count); e.Some? && |e.value| < TWO_32
    ensures Shaped(d, next.m) && Filled(d, m, next, i, count) && OnlyAt(st, next, i)
    ensures DecFields(d, st, EncUnpacked(d.fields[i], m.slots[i].items, k, count).value + rest) ==
        DecFields(d, next, rest)
    decreases d, 5, count - k
  {
    hide Good, Shaped, DecFields, PlainTable, EncValue, ShapedValue, SameValue;
    ArrayFacts(d, m, st, i);
    var f, items := d.fields[i], m.slots[i].items;
    if k == count {
      next := st;
      assert [] + rest == rest;
    } else {
      var e, after := EncValue(f.kind, items[k]).value, EncUnpacked(f, items, k + 1, count).value;
      assert EncUnpacked(f, items, k, count).value + rest == TagBytes(f.tag, WireType(f.kind)) + (e + (after + rest));
      var mid := ItemBack(d, m, st, i, k, after + rest);
      next := UnpackedBack(d, m, mid, i, k + 1, count, rest);
    }
  }

  lemma {:induction false} ItemBack(d: Desc, m: Message, st: Dec, i: nat, k: nat, rest: Bytes) returns (next: Dec)
    requires Shaped(d, m) && Shaped(d, st.m) && Good(d, m) && PlainTable(d) && i < |d.fields| && Filled(d, m, st, i, k)
    requires ShapedSlot(d.fields[i], m.slots[i]) && k < |m.slots[i].items| && !Packable(d.fields[i].kind)
    requires var e := EncValue(d.fields[i].kind, m.slots[i].items[k]); e.Some? && |e.value| < TWO_32
    ensures Shaped(d, next.m) && Filled(d, m, next, i, k + 1) && OnlyAt(st, next, i)
    ensures DecFields(d, st, TagBytes(d.fields[i].tag, WireType(d.fields[i].kind)) +
        (EncValue(d.fields[i].kind, m.slots[i].items[k]).value + rest)) == DecFields(d, next, rest)
    decreases d, 4
  {
    hide Good, Shaped, DecFields, PlainTable, EncValue, DecValue, ShapedValue, SameValue, GoodValue, FreshSub;
    ArrayFacts(d, m, st, i);
    var f, slot := d.fields[i], st.m.slots[i];
    ValueBack(f.kind, m.slots[i].items[k], true, slot.items[k], rest);
    var body := EncValue(f.kind, m.slots[i].items[k]).value + rest;
    var entered := Enter(d, i, st).value;
    var a := DecArray(f.kind, WireType(f.kind), Items(slot.items, k), body);
    assert a == Some((Items(slot.items[k := DecValue(f.kind, true, slot.items[k], body).value.0], k + 1), rest));
    assert f.rule.FixedCount? ==> entered.fixedSize == k;
    next := DecField(d, i, WireType(f.kind), entered, body).value.0;
    Round(d, st, i, WireType(f.kind), body, entered, next, rest);
  }

  lemma ArrayFacts(d: Desc, m: Message, st: Dec, i: nat)
    requires Shaped(d, m) && Shaped(d, st.m) && Good(d, m) && PlainTable(d) && i < |d.fields|
    ensures |m.slots| == |d.fields| == |st.m.slots| && TagsOk(d) && ShapedSlot(d.fields[i], m.slots[i])
    ensures ShapedSlot(d.fields[i], st.m.slots[i])
    ensures 0 < d.fields[i].tag < 0x2000_0000 && (d.fields[i].kind.Sub? ==> PlainTable(d.fields[i].kind.desc))
    ensures forall j :: 0 <= j < |m.slots[i].items| ==> GoodValue(d.fields[i].kind, m.slots[i].items[j])
  {
    assert GoodSlot(d.fields[i], m.slots[i]) && PlainField(d.fields[i]);
  }

  /** A packed array is one round. */
  lemma {:induction false} PackedRound(d: Desc, m: Message, st: Dec, i: nat, count: nat, rest: Bytes)
      returns (next: Dec)
    requires Shaped(d, m) && Shaped(d, st.m) && Good(d, m) && PlainTable(d) && i < |d.fields| && Filled(d, m, st, i, 0)
    requires ShapedSlot(d.fields[i], m.slots[i]) && 0 < count <= |m.slots[i].items| && Packable(d.fields[i].kind)
    requires var e := EncArray(d.fields[i], m.slots[i].items, count); e.Some? && |e.value| < TWO_32
    ensures Shaped(d, next.m) && Filled(d, m, next, i, count) && OnlyAt(st, next, i)
    ensures DecFields(d, st, EncArray(d.fields[i], m.slots[i].items, count).value + rest) == DecFields(d, next, rest)
    decreases d, 5
  {
    hide Good, Shaped, DecFields, PlainTable, EncPacked, DecPacked, ShapedValue, SameValue;
    ArrayFacts(d, m, st, i);
    var f, slot := d.fields[i], st.m.slots[i];
    var body := EncPacked(f.kind, m.slots[i].items, 0, count).value;
    PrefixedLonger(body);
    PrefixedRead(body, rest);
    var r := PackedBack(f.kind, m.slots[i].items, slot.items, 0, count);
    var entered := Enter(d, i, st).value;
    var a := DecArray(f.kind, WT_STRING, Items(slot.items, 0), Prefixed(body) + rest);
    assert a == Some((Items(r, count), rest));
    assert f.rule.FixedCount? ==> entered.fixedSize == 0;
    next := DecField(d, i, WT_STRING, entered, Prefixed(body) + rest).value.0;
    Round(d, st, i, WT_STRING, Prefixed(body) + rest, entered, next, rest);
    assert EncArray(f, m.slots[i].items, count).value + rest == TagBytes(f.tag, WT_STRING) + (Prefixed(body) + rest);
  }

  lemma {:induction false} ArrayBack(d: Desc, m: Message, st: Dec, i: nat, count: nat, rest: Bytes) returns (next: Dec)
    requires Shaped(d, m) && Shaped(d, st.m) && Good(d, m) && PlainTable(d) && i < |d.fields| && Progress(d, m, st, i)
    requires ShapedSlot(d.fields[i], m.slots[i])
    requires d.fields[i].rule == FixedCount(count) || (d.fields[i].rule.Repeated? && m.slots[i].count == count)
    requires var e := EncArray(d.fields[i], m.slots[i].items, count); e.Some? && |e.value| < TWO_32
    ensures Shaped(d, next.m) && FieldDone(d, m, st, next, i)
    ensures DecFields(d, st, EncArray(d.fields[i], m.slots[i].items, count).value + rest) == DecFields(d, next, rest)
    decreases d, 6
  {
    hide Progress, Good, Shaped, DecFields, PlainTable, EncPacked, EncUnpacked, SameValue, ShapedValue;
    FieldFacts(d, m, st, i);
    if count == 0 {
      next := Absent(d, m, st, i, rest);
    } else if Packable(d.fields[i].kind) {
      next := PackedRound(d, m, st, i, count, rest);
    } else {
      next := UnpackedBack(d, m, st, i, 0, count, rest);
    }
  }

  // The main theorem

  /** Whatever the memory, decoding what was encoded gives the message back, absent fields aside, and
      reads all of it. */
  lemma RoundTrip(d: Desc, m: Message, memory: Message)
    requires Shaped(d, m) && Shaped(d, memory) && Good(d, m) && PlainTable(d)
    requires Encoded(d, m).Some? && |Encoded(d, m).value| < TWO_32
    ensures var r := Decoded(d, memory, Encoded(d, m).value);
      r.Some? && r.value.1 == [] && Same(d, m, r.value.0)
  {
    DefaultsFresh(d, memory);
    MessageBack(d, m, Defaults(d, memory));
  }

  /** pb_encode into a buffer, then pb_decode from it: the message comes through if and only if its
      encoding fits. */
  method Transmit(d: Desc, m: Message, memory: Message, size: nat) returns (r: Option<Message>)
    requires Shaped(d, m) && Shaped(d, memory) && Good(d, m) && PlainTable(d) && size < TWO_32
    ensures r.Some? <==> Encoded(d, m).Some? && |Encoded(d, m).value| <= size
    ensures r.Some? ==> Shaped(d, r.value) && Same(d, m, r.value)
  {
    hide Shaped, Good, PlainTable, Encoded, Decoded, Same;
    var out := new OStream(false, size, []);
    var st := EncodeMessage(out, d, m);
    if !st.Done? { return None; }
    assert [] + Encoded(d, m).value == Encoded(d, m).value;
    var s := new IStream(out.out, 0, |out.out|);
    assert s.Rest() == Encoded(d, m).value;
    RoundTrip(d, m, memory);
    r := Decode(s, d, memory);
  }

  /** A string comes back if and only if it ends within its memory. */
  lemma {:induction false} TextExact(v: Value, was: Value, size: nat, rest: Bytes)
    requires ShapedValue(Text(size), v) && ShapedValue(Text(size), was) && |CString(v.bytes)| < TWO_32
    ensures DecValue(Text(size), false, was, EncValue(Text(size), v).value + rest).Some? <==> |CString(v.bytes)| < size
  {
    hide ReadPrefixed, Prefixed;
    PrefixedRead(CString(v.bytes), rest);
  }
}
