/** Messages described by field tables and what their encoding is (nanopb: pb.h, pb_encode.c). */
module Proto {
  import opened Format
  import opened Coding

  // Descriptors and the messages they describe

  /** The data type of a field, with the size of its memory. */
  datatype FieldType =
    | Bool
    | Int(size: nat)
    | UInt(size: nat)
    | SInt(size: nat)
    | Fixed32
    | Fixed64
    | Blob(capacity: nat)
    | Text(size: nat)
    | Sub(desc: Desc)
    | FixedBlob(length: nat)

  /** How often a field occurs. Singular fields have no presence flag: they are absent when zero.
      The fields of one union have the same group. */
  datatype Rule = Required | Optional | Singular | Repeated(max: nat) | FixedCount(n: nat) | Oneof(group: nat)

  /** `init` is the default that the decoder sets. */
  datatype Field = Field(tag: nat, kind: FieldType, rule: Rule, init: Value)

  datatype Desc = Desc(fields: seq<Field>)

  datatype Value = Num(n: int) | Data(bytes: Bytes) | Msg(m: Message)

  /** The memory of a field: its flag, its count and its items, more than one in arrays. */
  datatype Slot = Slot(has: bool, count: nat, items: seq<Value>)

  /** The fields in the order of the table, and for each union the tag of the member it holds. */
  datatype Message = Message(slots: seq<Slot>, which: seq<nat>)

  const TWO_32: nat := 0x1_0000_0000
  const TWO_64: nat := 0x1_0000_0000_0000_0000

  predicate IntSize(size: nat) {
    size == 1 || size == 2 || size == 4 || size == 8
  }

  /** Half of the range of an integer of so many bytes. */
  function Half(size: nat): (h: int)
    requires IntSize(size)
    ensures h > 0
  {
    if size == 1 then 0x80 else if size == 2 then 0x8000 else if size == 4 then 0x8000_0000 else 0x8000_0000_0000_0000
  }

  /** What a C variable of the kind can hold. */
  predicate InRange(kind: FieldType, n: int) {
    match kind
    case Bool => 0 <= n < 0x100
    case Int(size) => IntSize(size) ==> -Half(size) <= n < Half(size)
    case UInt(size) => n >= 0 && (IntSize(size) ==> n < 2 * Half(size))
    case SInt(size) => IntSize(size) ==> -Half(size) <= n < Half(size)
    case Fixed32 => 0 <= n < TWO_32
    case Fixed64 => 0 <= n < TWO_64
    case _ => true
  }

  predicate ShapedValue(kind: FieldType, v: Value)
    decreases kind
  {
    match kind
    case Blob(_) => v.Data?
    case Text(size) => v.Data? && |v.bytes| == size
    case FixedBlob(length) => v.Data? && |v.bytes| == length
    case Sub(d) => v.Msg? && Shaped(d, v.m)
    case _ => v.Num? && InRange(kind, v.n)
  }

  function Capacity(rule: Rule): nat {
    match rule
    case Repeated(max) => max
    case FixedCount(n) => n
    case _ => 1
  }

  predicate ShapedSlot(f: Field, s: Slot)
    decreases f
  {
    && |s.items| == Capacity(f.rule) && (f.kind.Sub? || ShapedValue(f.kind, f.init))
    && forall k :: 0 <= k < |s.items| ==> ShapedValue(f.kind, s.items[k])
  }

  /** The tags of a table differ, and zero only ends it. */
  predicate TagsOk(d: Desc) {
    && (forall i :: 0 <= i < |d.fields| ==> d.fields[i].tag > 0)
    && forall i, j :: 0 <= i < j < |d.fields| ==> d.fields[i].tag != d.fields[j].tag
  }

  /** The message is a C structure of the type described. */
  predicate Shaped(d: Desc, m: Message)
    decreases d
  {
    && |m.slots| == |d.fields| && TagsOk(d)
    && (forall i :: 0 <= i < |d.fields| ==> ShapedSlot(d.fields[i], m.slots[i]))
    && forall i :: 0 <= i < |d.fields| && d.fields[i].rule.Oneof? ==> d.fields[i].rule.group < |m.which|
  }

  // The encoding

  const WT_VARINT: nat := 0
  const WT_64BIT: nat := 1
  const WT_STRING: nat := 2
  const WT_32BIT: nat := 5

  predicate Packable(kind: FieldType) {
    !kind.Blob? && !kind.Text? && !kind.Sub? && !kind.FixedBlob?
  }

  function WireType(kind: FieldType): nat {
    match kind
    case Fixed32 => WT_32BIT
    case Fixed64 => WT_64BIT
    case _ => if Packable(kind) then WT_VARINT else WT_STRING
  }

  function TagBytes(tag: nat, wireType: nat): Bytes {
    Varint(tag * 8 + wireType)
  }

  /** Two's complement in 64 bits. */
  function Unsigned(n: int): nat {
    n % TWO_64
  }

  /** ~(n << 1) for negative numbers, n << 1 for others, in 64 bits. */
  function ZigZag(n: int): nat {
    if n < 0 then TWO_64 - 1 - Unsigned(n) * 2 % TWO_64 else n * 2 % TWO_64
  }

  /** The bytes before the first zero. */
  function CString(mem: Bytes): Bytes {
    if mem == [] || mem[0] == 0 then [] else [mem[0]] + CString(mem[1..])
  }

  function Prefixed(s: Bytes): Bytes {
    Varint(|s|) + s
  }

  /** pb_check_proto3_default_value for the data of a field. */
  predicate ZeroValue(kind: FieldType, v: Value)
    requires ShapedValue(kind, v)
    decreases kind
  {
    match kind
    case Blob(_) => v.bytes == []
    case Text(size) => size == 0 || v.bytes[0] == 0
    case FixedBlob(length) => length == 0
    case Sub(d) =>
      assert Shaped(d, v.m);
      forall i :: 0 <= i < |d.fields| ==> ZeroField(d.fields[i], v.m.slots[i], WhichOf(d.fields[i], v.m))
    case _ => v.n == 0
  }

  /** The tag of the member that the union of the field holds. */
  function WhichOf(f: Field, m: Message): nat {
    if f.rule.Oneof? && f.rule.group < |m.which| then m.which[f.rule.group] else 0
  }

  predicate ZeroField(f: Field, s: Slot, which: nat)
    requires ShapedSlot(f, s)
    decreases f
  {
    match f.rule
    case Required => false
    case Optional => !s.has
    case Singular => ZeroValue(f.kind, s.items[0])
    case Repeated(_) => s.count == 0
    case FixedCount(_) => false
    case Oneof(_) => which == 0
  }

  /** The field encoders; None where they report an error. */
  function EncValue(kind: FieldType, v: Value): Option<Bytes>
    requires ShapedValue(kind, v)
    decreases kind, 0
  {
    match kind
    case Bool => Some(Varint(if v.n != 0 then 1 else 0))
    case Int(size) => if IntSize(size) then Some(Varint(Unsigned(v.n))) else None
    case UInt(size) => if IntSize(size) then Some(Varint(v.n)) else None
    case SInt(size) => if IntSize(size) then Some(Varint(ZigZag(v.n))) else None
    case Fixed32 => Some(EncodeFixed32(v.n))
    case Fixed64 => Some(EncodeFixed64(v.n))
    case Blob(capacity) => if |v.bytes| > capacity then None else Some(Prefixed(v.bytes))
    case Text(_) => Some(Prefixed(CString(v.bytes)))
    case FixedBlob(_) => Some(Prefixed(v.bytes))
    case Sub(d) =>
      var body := EncFrom(d, v.m, 0);
      if body.None? then None else Some(Prefixed(body.value))
  }

  function Join(a: Option<Bytes>, b: Option<Bytes>): Option<Bytes> {
    if a.None? || b.None? then None else Some(a.value + b.value)
  }

  /** The items from k on up to the count, one after another. */
  function EncPacked(kind: FieldType, items: seq<Value>, k: nat, count: nat): Option<Bytes>
    requires count <= |items| && forall j :: 0 <= j < |items| ==> ShapedValue(kind, items[j])
    decreases kind, 1, count - k
  {
    if k >= count then Some([]) else Join(EncValue(kind, items[k]), EncPacked(kind, items, k + 1, count))
  }

  /** The same, each after a tag. */
  function EncUnpacked(f: Field, items: seq<Value>, k: nat, count: nat): Option<Bytes>
    requires count <= |items| && forall j :: 0 <= j < |items| ==> ShapedValue(f.kind, items[j])
    decreases f, 0, count - k
  {
    if k >= count then Some([])
    else Join(Join(Some(TagBytes(f.tag, WireType(f.kind))), EncValue(f.kind, items[k])),
      EncUnpacked(f, items, k + 1, count))
  }

  function EncArray(f: Field, items: seq<Value>, count: nat): Option<Bytes>
    requires forall j :: 0 <= j < |items| ==> ShapedValue(f.kind, items[j])
    decreases f, 1
  {
    if count == 0 then Some([])
    else if count > |items| then None
    else if Packable(f.kind) then
      var body := EncPacked(f.kind, items, 0, count);
      if body.None? then None else Some(TagBytes(f.tag, WT_STRING) + Prefixed(body.value))
    else EncUnpacked(f, items, 0, count)
  }

  function EncOne(f: Field, v: Value): Option<Bytes>
    requires ShapedValue(f.kind, v)
    decreases f, 0
  {
    Join(Some(TagBytes(f.tag, WireType(f.kind))), EncValue(f.kind, v))
  }

  /** encode_basic_field. */
  function EncField(f: Field, s: Slot, which: nat): Option<Bytes>
    requires ShapedSlot(f, s)
    decreases f, 2
  {
    match f.rule
    case Required => EncOne(f, s.items[0])
    case Optional => if s.has then EncOne(f, s.items[0]) else Some([])
    case Singular => if ZeroValue(f.kind, s.items[0]) then Some([]) else EncOne(f, s.items[0])
    case Repeated(_) => EncArray(f, s.items, s.count)
    case FixedCount(n) => EncArray(f, s.items, n)
    case Oneof(_) => if which == f.tag then EncOne(f, s.items[0]) else Some([])
  }

  /** The fields from i on. */
  function EncFrom(d: Desc, m: Message, i: nat): Option<Bytes>
    requires Shaped(d, m)
    decreases d, 3, |d.fields| - i
  {
    if i >= |d.fields| then Some([])
    else Join(EncField(d.fields[i], m.slots[i], WhichOf(d.fields[i], m)), EncFrom(d, m, i + 1))
  }

  /** The bytes of a message. */
  function Encoded(d: Desc, m: Message): Option<Bytes>
    requires Shaped(d, m)
  {
    EncFrom(d, m, 0)
  }

  // The field iterator (pb_common.c)

  /** How many of the first n fields are required. */
  function RequiredBefore(d: Desc, n: nat): nat
    requires n <= |d.fields|
  {
    if n == 0 then 0 else RequiredBefore(d, n - 1) + if d.fields[n - 1].rule.Required? then 1 else 0
  }

  class FieldIter {
    const desc: Desc
    var pos: nat
    var requiredIndex: nat

    ghost predicate Valid()
      reads this
    {
      (pos < |desc.fields| || pos == 0) && requiredIndex == RequiredBefore(desc, pos)
    }

    constructor (desc: Desc)
      ensures Valid() && this.desc == desc && pos == 0
    {
      this.desc, pos, requiredIndex := desc, 0, 0;
    }

    /** Past the last field it wraps back to the first and says so. */
    method Next() returns (more: bool)
      requires Valid()
      modifies this
      ensures Valid() && (more <==> old(pos) + 1 < |desc.fields|) && pos == if more then old(pos) + 1 else 0
    {
      if desc.fields == [] { return false; }
      var prev := desc.fields[pos];
      pos := pos + 1;
      if pos == |desc.fields| {
        pos, requiredIndex := 0, 0;
        return false;
      }
      if prev.rule.Required? { requiredIndex := requiredIndex + 1; }
      return true;
    }

    /** Between the start of a search and where it has come to. */
    ghost predicate Passed(start: nat, i: nat)
      reads this
    {
      if pos > start then start <= i < pos else i >= start || i < pos
    }

    /** Once around from where it stands. */
    method Find(tag: nat) returns (found: bool)
      requires Valid()
      modifies this
      ensures Valid() && (found <==> exists i :: 0 <= i < |desc.fields| && desc.fields[i].tag == tag)
      ensures if found then pos < |desc.fields| && desc.fields[pos].tag == tag else pos == old(pos)
    {
      if desc.fields == [] { return false; }
      var start := pos;
      if desc.fields[pos].tag == tag { return true; }
      var more := Next();
      while pos != start
        invariant Valid() && pos < |desc.fields|
        invariant forall i :: 0 <= i < |desc.fields| && Passed(start, i) ==> desc.fields[i].tag != tag
        decreases if pos > start then |desc.fields| - pos + start else start - pos
      {
        if desc.fields[pos].tag == tag { return true; }
        more := Next();
      }
      return false;
    }
  }
}
