/**
 The hand-written protobuf wire layer (shared/src/streamer/internal/protobufWire.ts).

 The writer appends to a byte list; the reader walks a byte array with a bounds-checked offset. Both loops
 are proved against specification functions, and the lemmas relate the two specifications.

 BigInt bit operations on non-negative values are written arithmetically: `x & 0x7f` is `x % 0x80`,
 `x >> 7` is `x / 0x80`, and or-ing disjoint bits is addition.
 */
module ProtobufWire {
  import opened Wrappers

  type byte = b: int | 0 <= b < 0x100

  const VARINT := 0
  const FIXED64 := 1
  const LENGTH_DELIMITED := 2
  const FIXED32 := 5

  const MAX_TAG := 0x1fff_ffff
  const TWO_TO_THE_28 := 0x1000_0000
  const TWO_TO_THE_63 := 0x8000_0000_0000_0000
  const TWO_TO_THE_64 := 0x1_0000_0000_0000_0000

  datatype WireError = NegativeVarint

  /** What one field says, independently of where it sits in the byte string. */
  datatype Item =
    | VarintItem(tag: nat, value: nat)
    | Fixed64Item(tag: nat, payload: seq<byte>)
    | BytesItem(tag: nat, payload: seq<byte>)
    | Fixed32Item(tag: nat, payload: seq<byte>)

  /** A field as the reader reports it: payloads are offsets into the bytes that were read. */
  datatype Field =
    | VarintField(tag: nat, value: nat)
    | Fixed64Field(tag: nat, dataOffset: nat)
    | BytesField(tag: nat, dataOffset: nat, byteLength: nat)
    | Fixed32Field(tag: nat, dataOffset: nat)

  // ---------------------------------------------------------------- writer

  /** Base 128 varint, least significant group first. */
  function VarintBytes(value: nat): (bytes: seq<byte>)
    ensures |bytes| > 0
  {
    if value < 0x80 then [value] else [value % 0x80 + 0x80] + VarintBytes(value / 0x80)
  }

  /** The value a 32-bit signed JavaScript operation keeps of an integer. */
  function ToInt32(x: int): int {
    (x + 0x8000_0000) % 0x1_0000_0000 - 0x8000_0000
  }

  /** The field key as the 32-bit shift computes it; the shift leaves the low three bits free. */
  function FieldKey(tag: int, wireType: nat): int
    requires wireType < 8
  {
    ToInt32(tag * 8) + wireType
  }

  /** `BigInt.asUintN(64, value)` for a negative value. */
  function TwosComplement(value: int): nat {
    if value < 0 then value % TWO_TO_THE_64 else value
  }

  function WireType(item: Item): nat {
    match item
    case VarintItem(_, _) => VARINT
    case Fixed64Item(_, _) => FIXED64
    case BytesItem(_, _) => LENGTH_DELIMITED
    case Fixed32Item(_, _) => FIXED32
  }

  function KeyBytes(item: Item): seq<byte> {
    VarintBytes(item.tag * 8 + WireType(item))
  }

  function BodyBytes(item: Item): seq<byte> {
    match item
    case VarintItem(_, value) => VarintBytes(value)
    case Fixed64Item(_, payload) => payload
    case BytesItem(_, payload) => VarintBytes(|payload|) + payload
    case Fixed32Item(_, payload) => payload
  }

  function ItemBytes(item: Item): seq<byte> {
    KeyBytes(item) + BodyBytes(item)
  }

  function ItemsBytes(items: seq<Item>): seq<byte> {
    if items == [] then [] else ItemBytes(items[0]) + ItemsBytes(items[1..])
  }

  /** A growing list of bytes; the writer's operations all append to it. */
  class ByteBuffer {
    var bytes: seq<byte>

    constructor ()
      ensures bytes == []
    {
      bytes := [];
    }

    method PushVarint(value: int) returns (r: Outcome<WireError>)
      modifies this
      ensures r.Fail? <==> value < 0
      ensures bytes == if value < 0 then old(bytes) else old(bytes) + VarintBytes(value)
    {
      if value < 0 {
        return Fail(NegativeVarint);
      }
      var remaining := value;
      while true
        invariant remaining >= 0
        invariant bytes + VarintBytes(remaining) == old(bytes) + VarintBytes(value)
        decreases remaining
      {
        var group := remaining % 0x80;
        ghost var before, pending := bytes, remaining;
        remaining := remaining / 0x80;
        if remaining != 0 {
          group := group + 0x80;
        }
        bytes := bytes + [group];
        if remaining == 0 {
          assert VarintBytes(pending) == [group];
          break;
        }
        assert before + VarintBytes(pending) == bytes + VarintBytes(remaining);
      }
      return Pass;
    }

    method PushFieldKey(tag: int, wireType: nat) returns (r: Outcome<WireError>)
      requires wireType < 8
      modifies this
      ensures r.Fail? <==> FieldKey(tag, wireType) < 0
      ensures bytes == if r.Fail? then old(bytes) else old(bytes) + VarintBytes(FieldKey(tag, wireType))
    {
      r := PushVarint(FieldKey(tag, wireType));
    }

    method PushVarintField(tag: int, value: int) returns (r: Outcome<WireError>)
      modifies this
      ensures r.Fail? <==> FieldKey(tag, VARINT) < 0 || value < 0
      ensures r.Pass? ==> bytes == old(bytes) + VarintBytes(FieldKey(tag, VARINT)) + VarintBytes(value)
      ensures r.Pass? && 0 <= tag < TWO_TO_THE_28 ==> bytes == old(bytes) + ItemBytes(VarintItem(tag, value))
    {
      hide VarintBytes, FieldKey;
      FieldKeyKeepsTag(tag, VARINT);
      r := PushFieldKey(tag, VARINT);
      if r.Pass? {
        r := PushVarint(value);
        assert bytes == old(bytes) + (VarintBytes(FieldKey(tag, VARINT)) + VarintBytes(if value < 0 then 0 else value)) || value < 0;
      }
    }

    /** Negative values go out as their 64-bit two's complement. */
    method PushInt32Field(tag: int, value: int) returns (r: Outcome<WireError>)
      modifies this
      ensures r.Fail? <==> FieldKey(tag, VARINT) < 0
      ensures r.Pass? && 0 <= tag < TWO_TO_THE_28 ==>
                bytes == old(bytes) + ItemBytes(VarintItem(tag, TwosComplement(value)))
    {
      hide VarintBytes, FieldKey;
      FieldKeyKeepsTag(tag, VARINT);
      var encoded := TwosComplement(value);
      r := PushFieldKey(tag, VARINT);
      if r.Pass? {
        r := PushVarint(encoded);
        assert bytes == old(bytes) + (VarintBytes(FieldKey(tag, VARINT)) + VarintBytes(encoded));
      }
    }

    /** Strings are given as their UTF-8 bytes, so this also models the string form of the same method. */
    method PushMessageField(tag: int, payload: seq<byte>) returns (r: Outcome<WireError>)
      modifies this
      ensures r.Fail? <==> FieldKey(tag, LENGTH_DELIMITED) < 0
      ensures r.Pass? ==>
                bytes == old(bytes) + VarintBytes(FieldKey(tag, LENGTH_DELIMITED)) + VarintBytes(|payload|) + payload
      ensures r.Pass? && 0 <= tag < TWO_TO_THE_28 ==> bytes == old(bytes) + ItemBytes(BytesItem(tag, payload))
    {
      hide VarintBytes, FieldKey;
      FieldKeyKeepsTag(tag, LENGTH_DELIMITED);
      r := PushFieldKey(tag, LENGTH_DELIMITED);
      if r.Pass? {
        r := PushVarint(|payload|);
        AppendAll(payload);
        assert bytes == old(bytes) + (VarintBytes(FieldKey(tag, LENGTH_DELIMITED)) + VarintBytes(|payload|) + payload);
      }
    }

    method AppendAll(payload: seq<byte>)
      modifies this
      ensures bytes == old(bytes) + payload
    {
      for i := 0 to |payload|
        invariant bytes == old(bytes) + payload[..i]
      {
        bytes := bytes + [payload[i]];
      }
    }
  }

  // ---------------------------------------------------------------- reader

  /** Reads a varint whose first `index` groups have already been consumed; the pair is (value, next offset). */
  function ReadVarint(bytes: seq<byte>, offset: nat, index: nat): (r: Option<(nat, nat)>)
    requires index <= 10
    ensures r.Some? ==> offset < r.value.1 <= |bytes|
    decreases |bytes| - offset
  {
    if index == 10 || offset >= |bytes| then None
    else if index == 9 && bytes[offset] > 1 then None
    else if bytes[offset] < 0x80 then Some((bytes[offset], offset + 1))
    else
      match ReadVarint(bytes, offset + 1, index + 1)
      case None => None
      case Some((rest, next)) => Some((bytes[offset] - 0x80 + 0x80 * rest, next))
  }

  datatype Limits = Limits(maxFields: nat, maxLengthDelimitedBytes: nat)

  datatype FieldRead = ReadOk(field: Field, next: nat) | ReadMalformed | ReadTooLong

  function ReadField(bytes: seq<byte>, offset: nat, limits: Limits): (r: FieldRead)
    ensures r.ReadOk? ==> offset < r.next <= |bytes|
  {
    match ReadVarint(bytes, offset, 0)
    case None => ReadMalformed
    case Some((key, afterKey)) =>
      var tag, wireType := key / 8, key % 8;
      if tag <= 0 || tag > MAX_TAG then ReadMalformed
      else if wireType == VARINT then
        match ReadVarint(bytes, afterKey, 0)
        case None => ReadMalformed
        case Some((value, next)) => ReadOk(VarintField(tag, value), next)
      else if wireType == FIXED64 then
        if afterKey + 8 > |bytes| then ReadMalformed else ReadOk(Fixed64Field(tag, afterKey), afterKey + 8)
      else if wireType == LENGTH_DELIMITED then
        match ReadVarint(bytes, afterKey, 0)
        case None => ReadMalformed
        case Some((length, data)) =>
          if length > |bytes| - data then ReadMalformed
          else if length > limits.maxLengthDelimitedBytes then ReadTooLong
          else ReadOk(BytesField(tag, data, length), data + length)
      else if wireType == FIXED32 then
        if afterKey + 4 > |bytes| then ReadMalformed else ReadOk(Fixed32Field(tag, afterKey), afterKey + 4)
      else ReadMalformed
  }

  /** Exactly the field numbers from 1 to 2^29 - 1 are read; a field with any other number is malformed. */
  lemma FieldNumberIff(bytes: seq<byte>, offset: nat, limits: Limits, key: nat, afterKey: nat, value: nat, next: nat)
    requires ReadVarint(bytes, offset, 0) == Some((key, afterKey)) && key % 8 == VARINT
    requires ReadVarint(bytes, afterKey, 0) == Some((value, next))
    ensures ReadField(bytes, offset, limits) ==
            if 8 <= key < 0x1_0000_0000 then ReadOk(VarintField(key / 8, value), next) else ReadMalformed
  {
  }

  /** How a scan ends: at the end of the bytes, at the offset of a malformed field, or at a limit. */
  datatype Scan = Complete(fields: seq<Field>) | Malformed(fields: seq<Field>, at: nat) | Exceeded

  function Prepend(fields: seq<Field>, scan: Scan): Scan {
    match scan
    case Complete(rest) => Complete(fields + rest)
    case Malformed(rest, at) => Malformed(fields + rest, at)
    case Exceeded => Exceeded
  }

  function ScanFields(bytes: seq<byte>, offset: nat, count: nat, limits: Limits): Scan
    requires offset <= |bytes|
    decreases |bytes| - offset
  {
    if offset == |bytes| then Complete([])
    else if count >= limits.maxFields then Exceeded
    else
      match ReadField(bytes, offset, limits)
      case ReadMalformed => Malformed([], offset)
      case ReadTooLong => Exceeded
      case ReadOk(field, next) => Prepend([field], ScanFields(bytes, next, count + 1, limits))
  }

  function ReadFields(bytes: seq<byte>, limits: Limits, rejectMalformed: bool): Option<seq<Field>> {
    match ScanFields(bytes, 0, 0, limits)
    case Complete(fields) => Some(fields)
    case Malformed(fields, _) => if rejectMalformed then None else Some(fields)
    case Exceeded => None
  }

  /** What the recursive reading says of the groups from the current one on, in terms of the groups after it. */
  lemma ReadVarintStep(bytes: seq<byte>, offset: nat, index: nat)
    requires index < 10 && offset < |bytes|
    ensures var r, tail := ReadVarint(bytes, offset, index), ReadVarint(bytes, offset + 1, index + 1);
            if index == 9 && bytes[offset] > 1 then r.None?
            else if bytes[offset] < 0x80 then r == Some((bytes[offset], offset + 1))
            else if tail.None? then r.None?
            else r == Some((bytes[offset] % 0x80 + 0x80 * tail.value.0, tail.value.1))
  {
  }

  lemma ReadVarintEnd(bytes: seq<byte>, offset: nat, index: nat)
    requires index <= 10 && (index == 10 || offset >= |bytes|)
    ensures ReadVarint(bytes, offset, index).None?
  {
  }

  method ReadProtobufVarint(bytes: seq<byte>, startOffset: nat) returns (r: Option<(nat, nat)>)
    ensures r == ReadVarint(bytes, startOffset, 0)
  {
    hide ReadVarint;
    var value: nat, scale: nat, offset: nat, index: nat := 0, 1, startOffset, 0;
    while index < 10 && offset < |bytes|
      invariant index <= 10
      invariant ReadVarint(bytes, startOffset, 0) ==
                match ReadVarint(bytes, offset, index)
                case None => None
                case Some((rest, next)) => Some((value + scale * rest, next))
      decreases 10 - index
    {
      ReadVarintStep(bytes, offset, index);
      var group := bytes[offset];
      if index == 9 && group > 1 {
        return None;
      }
      ghost var low := group % 0x80;
      value := value + group % 0x80 * scale;
      offset := offset + 1;
      if group < 0x80 {
        assert low == group;
        return Some((value, offset));
      }
      ghost var tail := ReadVarint(bytes, offset, index + 1);
      if tail.Some? {
        ShiftedSum(low, tail.value.0, scale);
      }
      scale := scale * 0x80;
      index := index + 1;
    }
    ReadVarintEnd(bytes, offset, index);
    return None;
  }

  lemma ShiftedSum(group: int, rest: int, scale: int)
    ensures scale * (group + 0x80 * rest) == group * scale + (scale * 0x80) * rest
  {
  }

  method ReadProtobufFields(bytes: seq<byte>, limits: Limits, rejectMalformed: bool)
    returns (r: Option<seq<Field>>)
    ensures r == ReadFields(bytes, limits, rejectMalformed)
  {
    hide ReadVarint;
    var fields: seq<Field>, offset := [], 0;
    while offset < |bytes|
      invariant offset <= |bytes|
      invariant ScanFields(bytes, 0, 0, limits) == Prepend(fields, ScanFields(bytes, offset, |fields|, limits))
    {
      assert fields + [] == fields;
      if |fields| >= limits.maxFields {
        return None;
      }
      var key := ReadProtobufVarint(bytes, offset);
      ghost var whole := ReadField(bytes, offset, limits);
      if key.None? {
        assert whole.ReadMalformed?;
        return if rejectMalformed then None else Some(fields);
      }
      var tag, wireType, afterKey := key.value.0 / 8, key.value.0 % 8, key.value.1;
      if tag <= 0 || tag > MAX_TAG {
        assert whole.ReadMalformed?;
        return if rejectMalformed then None else Some(fields);
      }
      var field, next;
      if wireType == VARINT || wireType == LENGTH_DELIMITED {
        var value := ReadProtobufVarint(bytes, afterKey);
        if value.None? {
          assert whole.ReadMalformed?;
          return if rejectMalformed then None else Some(fields);
        }
        if wireType == VARINT {
          field, next := VarintField(tag, value.value.0), value.value.1;
        } else {
          var length, data := value.value.0, value.value.1;
          if length > |bytes| - data {
            assert whole.ReadMalformed?;
            return if rejectMalformed then None else Some(fields);
          }
          if length > limits.maxLengthDelimitedBytes {
            assert whole.ReadTooLong?;
            return None;
          }
          field, next := BytesField(tag, data, length), data + length;
        }
      } else if wireType == FIXED64 {
        if afterKey + 8 > |bytes| {
          assert whole.ReadMalformed?;
          return if rejectMalformed then None else Some(fields);
        }
        field, next := Fixed64Field(tag, afterKey), afterKey + 8;
      } else if wireType == FIXED32 {
        if afterKey + 4 > |bytes| {
          assert whole.ReadMalformed?;
          return if rejectMalformed then None else Some(fields);
        }
        field, next := Fixed32Field(tag, afterKey), afterKey + 4;
      } else {
        assert whole.ReadMalformed?;
        return if rejectMalformed then None else Some(fields);
      }
      assert whole == ReadOk(field, next);
      PrependPrepend(fields, [field], ScanFields(bytes, next, |fields| + 1, limits));
      fields, offset := fields + [field], next;
    }
    assert Prepend(fields, Complete([])) == Complete(fields);
    return Some(fields);
  }

  lemma PrependPrepend(a: seq<Field>, b: seq<Field>, scan: Scan)
    ensures Prepend(a, Prepend(b, scan)) == Prepend(a + b, scan)
  {
    if !scan.Exceeded? {
      assert a + (b + scan.fields) == a + b + scan.fields;
    }
  }

  // ---------------------------------------------------------------- slices

  function DataStart(field: Field): nat {
    match field
    case VarintField(_, _) => 0
    case Fixed64Field(_, o) => o
    case BytesField(_, o, _) => o
    case Fixed32Field(_, o) => o
  }

  function DataLength(field: Field): nat {
    match field
    case VarintField(_, _) => 0
    case Fixed64Field(_, _) => 8
    case BytesField(_, _, n) => n
    case Fixed32Field(_, _) => 4
  }

  predicate InBounds(field: Field, length: nat) {
    DataStart(field) + DataLength(field) <= length
  }

  function ItemOf(bytes: seq<byte>, field: Field): Item
    requires InBounds(field, |bytes|)
  {
    match field
    case VarintField(tag, value) => VarintItem(tag, value)
    case Fixed64Field(tag, o) => Fixed64Item(tag, bytes[o..o + 8])
    case BytesField(tag, o, n) => BytesItem(tag, bytes[o..o + n])
    case Fixed32Field(tag, o) => Fixed32Item(tag, bytes[o..o + 4])
  }

  function ItemsOf(bytes: seq<byte>, fields: seq<Field>): seq<Item>
    requires forall f <- fields :: InBounds(f, |bytes|)
  {
    if fields == [] then [] else [ItemOf(bytes, fields[0])] + ItemsOf(bytes, fields[1..])
  }

  predicate HasData(field: Field) {
    !field.VarintField?
  }

  /** Every payload lies after `from`, inside the bytes, and before every later payload. */
  ghost predicate OrderedSlices(fields: seq<Field>, from: nat, length: nat) {
    && (forall i | 0 <= i < |fields| && HasData(fields[i]) ::
          from < DataStart(fields[i]) && InBounds(fields[i], length))
    && (forall i, j | 0 <= i < j < |fields| && HasData(fields[i]) && HasData(fields[j]) ::
          DataStart(fields[i]) + DataLength(fields[i]) < DataStart(fields[j]))
  }

  lemma FieldSlice(bytes: seq<byte>, offset: nat, limits: Limits)
    ensures var step := ReadField(bytes, offset, limits);
            step.ReadOk? && HasData(step.field) ==>
              offset < DataStart(step.field) && DataStart(step.field) + DataLength(step.field) == step.next
  {
  }

  lemma {:induction false} ScanSlices(bytes: seq<byte>, offset: nat, count: nat, limits: Limits)
    requires offset <= |bytes|
    ensures var s := ScanFields(bytes, offset, count, limits);
            !s.Exceeded? ==> OrderedSlices(s.fields, offset, |bytes|)
    decreases |bytes| - offset
  {
    hide ReadField, ReadVarint;
    if offset < |bytes| && count < limits.maxFields {
      var step := ReadField(bytes, offset, limits);
      FieldSlice(bytes, offset, limits);
      if step.ReadOk? {
        ScanSlices(bytes, step.next, count + 1, limits);
      }
    }
  }

  /** Whatever the bytes, every payload a read reports is in bounds, and no two of them overlap. */
  lemma ReadSlicesInBoundsAndDisjoint(bytes: seq<byte>, limits: Limits, rejectMalformed: bool)
    ensures var r := ReadFields(bytes, limits, rejectMalformed);
            r.Some? ==> OrderedSlices(r.value, 0, |bytes|) && forall f <- r.value :: InBounds(f, |bytes|)
  {
    ScanSlices(bytes, 0, 0, limits);
  }

  /** The fields of a read with their payload bytes, as a decoder uses them. */
  function ReadItems(bytes: seq<byte>, limits: Limits, rejectMalformed: bool): Option<seq<Item>> {
    ReadSlicesInBoundsAndDisjoint(bytes, limits, rejectMalformed);
    match ReadFields(bytes, limits, rejectMalformed)
    case None => None
    case Some(fields) => Some(ItemsOf(bytes, fields))
  }

  // ---------------------------------------------------------------- varint round trip

  /** One more than the largest value that fits in the groups from `index` on; the tenth group is 0 or 1. */
  function VarintCapacity(index: nat): nat
    requires index <= 9
    decreases 9 - index
  {
    if index == 9 then 2 else 0x80 * VarintCapacity(index + 1)
  }

  lemma VarintCapacityIs64Bits()
    ensures VarintCapacity(0) == TWO_TO_THE_64
  {
    assert VarintCapacity(6) == 0x80 * (0x80 * (0x80 * 2));
    assert VarintCapacity(3) == 0x80 * (0x80 * (0x80 * VarintCapacity(6)));
    assert VarintCapacity(0) == 0x80 * (0x80 * (0x80 * VarintCapacity(3)));
  }

  lemma {:induction false} ReadWrittenVarintFrom(pre: seq<byte>, value: nat, post: seq<byte>, index: nat)
    requires index <= 9
    ensures ReadVarint(pre + VarintBytes(value) + post, |pre|, index) ==
            if value < VarintCapacity(index) then Some((value, |pre| + |VarintBytes(value)|)) else None
    decreases 9 - index
  {
    var bytes := pre + VarintBytes(value) + post;
    assert bytes[|pre|] == VarintBytes(value)[0];
    if value >= 0x80 && index < 9 {
      var pre' := pre + [value % 0x80 + 0x80];
      assert bytes == pre' + VarintBytes(value / 0x80) + post;
      ReadWrittenVarintFrom(pre', value / 0x80, post, index + 1);
      assert value / 0x80 < VarintCapacity(index + 1) <==> value < VarintCapacity(index);
    } else if index < 9 {
      CapacityAtLeast128(index);
    }
  }

  lemma {:induction false} CapacityAtLeast128(index: nat)
    requires index < 9
    ensures VarintCapacity(index) >= 0x80
    decreases 9 - index
  {
    if index < 8 {
      CapacityAtLeast128(index + 1);
    }
  }

  /** A written varint, wherever it stands, reads back as itself exactly when it fits in 64 bits. */
  lemma ReadWrittenVarint(pre: seq<byte>, value: nat, post: seq<byte>)
    ensures ReadVarint(pre + VarintBytes(value) + post, |pre|, 0) ==
            if value < TWO_TO_THE_64 then Some((value, |pre| + |VarintBytes(value)|)) else None
  {
    VarintCapacityIs64Bits();
    ReadWrittenVarintFrom(pre, value, post, 0);
  }

  /** The 32-bit shift: a tag survives the key exactly when it is below 2^28. */
  lemma FieldKeyKeepsTag(tag: int, wireType: nat)
    requires wireType < 8
    ensures FieldKey(tag, wireType) >= 0 && FieldKey(tag, wireType) / 8 == tag <==> 0 <= tag < TWO_TO_THE_28
    ensures 0 <= tag < TWO_TO_THE_28 ==> FieldKey(tag, wireType) == tag * 8 + wireType
  {
  }

  // ---------------------------------------------------------------- reading what was written

  /** What the format can express: a tag the key can hold, a 64-bit value, a payload of the right length. */
  predicate WellFormed(item: Item) {
    && 1 <= item.tag < TWO_TO_THE_28
    && match item
       case VarintItem(_, value) => value < TWO_TO_THE_64
       case Fixed64Item(_, payload) => |payload| == 8
       case BytesItem(_, payload) => |payload| < TWO_TO_THE_64
       case Fixed32Item(_, payload) => |payload| == 4
  }

  predicate WithinPayloadLimit(item: Item, limits: Limits) {
    item.BytesItem? ==> |item.payload| <= limits.maxLengthDelimitedBytes
  }

  predicate Readable(item: Item, limits: Limits) {
    WellFormed(item) && WithinPayloadLimit(item, limits)
  }

  /** What a body denotes when it is read at the end of `pre`, just after a key with its tag and wire type. */
  function BodyField(pre: seq<byte>, item: Item): Field {
    match item
    case VarintItem(tag, value) => VarintField(tag, value)
    case Fixed64Item(tag, payload) => Fixed64Field(tag, |pre|)
    case BytesItem(tag, payload) => BytesField(tag, |pre| + |VarintBytes(|payload|)|, |payload|)
    case Fixed32Item(tag, payload) => Fixed32Field(tag, |pre|)
  }

  lemma SliceBetween(pre: seq<byte>, middle: seq<byte>, post: seq<byte>)
    ensures (pre + middle + post)[|pre|..|pre| + |middle|] == middle
  {
  }

  lemma WrittenBodyDenotes(pre: seq<byte>, item: Item, post: seq<byte>)
    requires WellFormed(item)
    ensures var bytes := pre + BodyBytes(item) + post;
            InBounds(BodyField(pre, item), |bytes|) && ItemOf(bytes, BodyField(pre, item)) == item
  {
    hide VarintBytes;
    match item
    case VarintItem(_, _) =>
    case BytesItem(_, payload) =>
      var length := VarintBytes(|payload|);
      SliceBetween(pre + length, payload, post);
      assert pre + BodyBytes(item) + post == pre + length + payload + post;
    case Fixed64Item(_, payload) =>
      SliceBetween(pre, payload, post);
    case Fixed32Item(_, payload) =>
      SliceBetween(pre, payload, post);
  }

  lemma ReadWrittenBody(pre: seq<byte>, item: Item, post: seq<byte>)
    requires WellFormed(item)
    ensures var read := ReadVarint(pre + BodyBytes(item) + post, |pre|, 0);
            && (item.VarintItem? ==> read == Some((item.value, |pre| + |BodyBytes(item)|)))
            && (item.BytesItem? ==> read == Some((|item.payload|, |pre| + |VarintBytes(|item.payload|)|)))
  {
    hide VarintBytes, ReadVarint;
    match item
    case VarintItem(_, value) =>
      ReadWrittenVarint(pre, value, post);
    case BytesItem(_, payload) =>
      assert pre + BodyBytes(item) + post == pre + VarintBytes(|payload|) + (payload + post);
      ReadWrittenVarint(pre, |payload|, payload + post);
    case _ =>
  }

  lemma ReadWrittenField(pre: seq<byte>, item: Item, post: seq<byte>, limits: Limits)
    requires WellFormed(item)
    ensures var bytes := pre + ItemBytes(item) + post;
            var r := ReadField(bytes, |pre|, limits);
            && (WithinPayloadLimit(item, limits) ==>
                  && r.ReadOk? && r.next == |pre| + |ItemBytes(item)|
                  && InBounds(r.field, |bytes|) && ItemOf(bytes, r.field) == item)
            && (!WithinPayloadLimit(item, limits) ==> r.ReadTooLong?)
            && |pre| < |bytes|
  {
    hide VarintBytes, ReadVarint, ItemOf;
    var bytes := pre + ItemBytes(item) + post;
    var key, body := KeyBytes(item), BodyBytes(item);
    var code := item.tag * 8 + WireType(item);
    assert bytes == pre + key + (body + post) == (pre + key) + body + post;
    assert key == VarintBytes(code);
    ReadWrittenVarint(pre, code, body + post);
    ReadWrittenBody(pre + key, item, post);
    WrittenBodyDenotes(pre + key, item, post);
    assert code / 8 == item.tag && code % 8 == WireType(item);
    assert ReadField(bytes, |pre|, limits) ==
           if WithinPayloadLimit(item, limits) then ReadOk(BodyField(pre + key, item), |pre| + |ItemBytes(item)|)
           else ReadTooLong;
  }

  lemma {:induction false} ScanWrittenFrom(pre: seq<byte>, items: seq<Item>, count: nat, limits: Limits)
    requires forall item <- items :: Readable(item, limits)
    requires count + |items| <= limits.maxFields
    ensures var bytes := pre + ItemsBytes(items);
            var s := ScanFields(bytes, |pre|, count, limits);
            && s.Complete? && (forall f <- s.fields :: InBounds(f, |bytes|))
            && ItemsOf(bytes, s.fields) == items
    decreases |items|
  {
    hide VarintBytes, ItemBytes, ReadField;
    var bytes := pre + ItemsBytes(items);
    if items != [] {
      var rest := ItemsBytes(items[1..]);
      var pre' := pre + ItemBytes(items[0]);
      assert bytes == pre' + rest;
      assert Readable(items[0], limits);
      ReadWrittenField(pre, items[0], rest, limits);
      ScanWrittenFrom(pre', items[1..], count + 1, limits);
      var step := ReadField(bytes, |pre|, limits);
      var tail := ScanFields(bytes, |pre'|, count + 1, limits);
      assert ScanFields(bytes, |pre|, count, limits).fields == [step.field] + tail.fields;
      assert ([step.field] + tail.fields)[1..] == tail.fields;
    } else {
      assert bytes == pre;
    }
  }

  /** Reading any concatenation of written fields, strictly or leniently, gives back exactly those fields. */
  lemma ReadWrittenItems(items: seq<Item>, limits: Limits, rejectMalformed: bool)
    requires forall item <- items :: Readable(item, limits)
    requires |items| <= limits.maxFields
    ensures ReadItems(ItemsBytes(items), limits, rejectMalformed) == Some(items)
  {
    ScanWrittenFrom([], items, 0, limits);
    assert [] + ItemsBytes(items) == ItemsBytes(items);
  }

  /** Beyond the field limit or the payload limit the same bytes are refused, whatever the mode. */
  lemma {:induction false} ScanBeyondLimits(pre: seq<byte>, items: seq<Item>, count: nat, limits: Limits)
    requires forall item <- items :: WellFormed(item)
    requires count <= limits.maxFields
    requires count + |items| > limits.maxFields || exists item <- items :: !WithinPayloadLimit(item, limits)
    ensures ScanFields(pre + ItemsBytes(items), |pre|, count, limits).Exceeded?
    decreases |items|
  {
    hide VarintBytes, ItemBytes, ReadField, WithinPayloadLimit;
    var bytes := pre + ItemsBytes(items);
    var rest := ItemsBytes(items[1..]);
    var pre' := pre + ItemBytes(items[0]);
    assert bytes == pre' + rest;
    ReadWrittenField(pre, items[0], rest, limits);
    if count < limits.maxFields && WithinPayloadLimit(items[0], limits) {
      ScanBeyondLimits(pre', items[1..], count + 1, limits);
    }
  }

  /** Fields that the format can express are read back exactly when they respect both limits. */
  lemma ReadWrittenItemsIff(items: seq<Item>, limits: Limits, rejectMalformed: bool)
    requires forall item <- items :: WellFormed(item)
    ensures var within := |items| <= limits.maxFields && forall item <- items :: WithinPayloadLimit(item, limits);
            ReadItems(ItemsBytes(items), limits, rejectMalformed) == if within then Some(items) else None
  {
    if |items| <= limits.maxFields && forall item <- items :: WithinPayloadLimit(item, limits) {
      ReadWrittenItems(items, limits, rejectMalformed);
    } else {
      ScanBeyondLimits([], items, 0, limits);
      assert [] + ItemsBytes(items) == ItemsBytes(items);
    }
  }

  /** A signed 32-bit number is written as 64 bits and comes back when its low 32 bits are read as signed. */
  lemma Int32RoundTrip(tag: nat, value: int, limits: Limits, rejectMalformed: bool)
    requires 1 <= tag < TWO_TO_THE_28 && limits.maxFields > 0
    requires value < TWO_TO_THE_64
    ensures var items := [VarintItem(tag, TwosComplement(value))];
            && ReadItems(ItemsBytes(items), limits, rejectMalformed) == Some(items)
            && (ToInt32(items[0].value) == value <==> -0x8000_0000 <= value < 0x8000_0000)
  {
    hide ItemsBytes, ReadItems;
    ComplementLow32(value);
    ReadWrittenItems([VarintItem(tag, TwosComplement(value))], limits, rejectMalformed);
  }

  lemma ComplementLow32(value: int)
    requires value < TWO_TO_THE_64
    ensures TwosComplement(value) < TWO_TO_THE_64
    ensures ToInt32(TwosComplement(value)) == ToInt32(value)
    ensures ToInt32(value) == value <==> -0x8000_0000 <= value < 0x8000_0000
  {
  }

  // ---------------------------------------------------------------- lenient and strict reading

  lemma {:induction false} VarintOfPrefix(bytes: seq<byte>, q: nat, offset: nat, index: nat)
    requires q <= |bytes| && index <= 10
    ensures var r := ReadVarint(bytes, offset, index);
            ReadVarint(bytes[..q], offset, index) == if r.Some? && r.value.1 <= q then r else None
    decreases 10 - index
  {
    if index < 10 && offset < q {
      VarintOfPrefix(bytes, q, offset + 1, index + 1);
    }
  }

  /** A field that a prefix holds reads the same there as in the whole; one it cuts does not read. */
  lemma FieldOfPrefix(bytes: seq<byte>, q: nat, offset: nat, limits: Limits)
    requires q <= |bytes|
    ensures var whole := ReadField(bytes, offset, limits);
            var cut := ReadField(bytes[..q], offset, limits);
            && (whole.ReadOk? && whole.next <= q ==> cut == whole)
            && (cut.ReadOk? ==> whole == cut)
  {
    VarintOfPrefix(bytes, q, offset, 0);
    var key := ReadVarint(bytes, offset, 0);
    if key.Some? {
      VarintOfPrefix(bytes, q, key.value.1, 0);
    }
  }

  lemma {:induction false} MalformedScanStopsAtLongestPrefix(
    bytes: seq<byte>, offset: nat, count: nat, limits: Limits, q: nat)
    requires offset <= |bytes|
    requires ScanFields(bytes, offset, count, limits).Malformed?
    requires ScanFields(bytes, offset, count, limits).at <= q <= |bytes|
    ensures var s := ScanFields(bytes, offset, count, limits);
            && offset <= s.at < |bytes|
            && (q == s.at ==> ScanFields(bytes[..q], offset, count, limits) == Complete(s.fields))
            && (q > s.at ==> !ScanFields(bytes[..q], offset, count, limits).Complete?)
    decreases |bytes| - offset
  {
    ScanAdvances(bytes, offset, count, limits);
    FieldOfPrefix(bytes, q, offset, limits);
    var step := ReadField(bytes, offset, limits);
    if step.ReadOk? {
      ScanAdvances(bytes, step.next, count + 1, limits);
      MalformedScanStopsAtLongestPrefix(bytes, step.next, count + 1, limits, q);
    }
  }

  lemma {:induction false} ScanAdvances(bytes: seq<byte>, offset: nat, count: nat, limits: Limits)
    requires offset <= |bytes|
    ensures var s := ScanFields(bytes, offset, count, limits); s.Malformed? ==> offset <= s.at < |bytes|
    decreases |bytes| - offset
  {
    if offset < |bytes| {
      var step := ReadField(bytes, offset, limits);
      if step.ReadOk? {
        ScanAdvances(bytes, step.next, count + 1, limits);
      }
    }
  }

  predicate WithinLimits(bytes: seq<byte>, limits: Limits) {
    !ScanFields(bytes, 0, 0, limits).Exceeded?
  }

  ghost predicate LongestStrictPrefix(bytes: seq<byte>, limits: Limits, p: nat) {
    && p <= |bytes|
    && ReadFields(bytes[..p], limits, true).Some?
    && forall q | p < q <= |bytes| :: ReadFields(bytes[..q], limits, true).None?
  }

  lemma LongestStrictPrefixExists(bytes: seq<byte>, limits: Limits) returns (p: nat)
    requires WithinLimits(bytes, limits)
    ensures LongestStrictPrefix(bytes, limits, p)
    ensures ReadFields(bytes, limits, false) == ReadFields(bytes[..p], limits, true)
  {
    var s := ScanFields(bytes, 0, 0, limits);
    if s.Complete? {
      p := |bytes|;
      assert bytes[..p] == bytes;
    } else {
      ScanAdvances(bytes, 0, 0, limits);
      p := s.at;
      forall q | p <= q <= |bytes|
        ensures q == p ==> ReadFields(bytes[..q], limits, true) == Some(s.fields)
        ensures q > p ==> ReadFields(bytes[..q], limits, true).None?
      {
        MalformedScanStopsAtLongestPrefix(bytes, 0, 0, limits, q);
      }
    }
  }

  /** Lenient reading returns F exactly when F is the strict reading of the longest strictly readable prefix. */
  lemma LenientIsStrictOnLongestPrefix(bytes: seq<byte>, limits: Limits, fields: seq<Field>)
    requires WithinLimits(bytes, limits)
    ensures ReadFields(bytes, limits, false) == Some(fields) <==>
            exists p: nat :: LongestStrictPrefix(bytes, limits, p) && ReadFields(bytes[..p], limits, true) == Some(fields)
  {
    var p := LongestStrictPrefixExists(bytes, limits);
    forall p': nat | LongestStrictPrefix(bytes, limits, p')
      ensures p' == p
    {
    }
  }

  /** Where strict reading succeeds, lenient reading gives the same answer. */
  lemma StrictImpliesLenient(bytes: seq<byte>, limits: Limits)
    ensures ReadFields(bytes, limits, true).Some? ==>
              ReadFields(bytes, limits, false) == ReadFields(bytes, limits, true)
  {
  }

  // ---------------------------------------------------------------- sizes

  function Power128(n: nat): nat {
    if n == 0 then 1 else 0x80 * Power128(n - 1)
  }

  /** A value below 128^n takes at most n bytes. */
  lemma {:induction false} VarintSize(value: nat, n: nat)
    requires n > 0 && value < Power128(n)
    ensures |VarintBytes(value)| <= n
  {
    if value >= 0x80 {
      assert Power128(1) == 0x80;
      VarintSize(value / 0x80, n - 1);
    }
  }

  lemma ItemsBytesAppend(a: seq<Item>, b: seq<Item>)
    ensures ItemsBytes(a + b) == ItemsBytes(a) + ItemsBytes(b)
  {
    if a == [] {
      assert a + b == b;
    } else {
      assert (a + b)[0] == a[0] && (a + b)[1..] == a[1..] + b;
      ItemsBytesAppend(a[1..], b);
    }
  }
}
