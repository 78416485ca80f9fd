/**
 Socket.IO packets as text plus binary attachments (cloudflare/src/signal/socketIoWire.ts): extraction of
 binary leaves into a shared buffer list, their re-insertion, and the packet printer and parser.

 JSON text is left abstract: a `JsonCodec` is any printer and parser that invert each other.
 */
module SocketIoWire {
  import opened Wrappers
  import opened ProtobufWire
  import opened Characters

  const ENGINE_IO_BINARY_FRAME_PREFIX: byte := 4
  const MAX_ATTACHMENTS := 10

  /** A value made of JSON and byte arrays. */
  datatype Value =
    | Null
    | Bool(b: bool)
    | Number(n: int)
    | Str(s: string)
    | Array(items: seq<Value>)
    | Record(entries: seq<Entry>)
    | Binary(bytes: seq<byte>)

  datatype Entry = Entry(key: string, value: Value)

  // ---------------------------------------------------------------- objects

  /** An array index as a property name: digits without a leading zero, below 2^32 - 1. */
  predicate IsIndex(key: string) {
    key != "" && (forall c <- key :: IsDigit(c)) && (key[0] == '0' ==> |key| == 1)
    && ParseDecimal(key) < 0xffff_ffff
  }

  /** The property names of an object, as it lists them: each once, and indices first, in ascending order. */
  predicate CanonicalKeys(entries: seq<Entry>) {
    forall i, j | 0 <= i < j < |entries| ::
      && entries[i].key != entries[j].key
      && (IsIndex(entries[j].key) ==>
            IsIndex(entries[i].key) && ParseDecimal(entries[i].key) < ParseDecimal(entries[j].key))
  }

  /** A value that objects can hold: every record lists its properties as objects do. */
  predicate Canonical(v: Value)
    decreases v, 1
  {
    match v
    case Array(items) => CanonicalItems(items)
    case Record(entries) => CanonicalKeys(entries) && CanonicalEntries(entries)
    case _ => true
  }

  predicate CanonicalItems(items: seq<Value>)
    decreases items, 0
  {
    items == [] || (Canonical(items[0]) && CanonicalItems(items[1..]))
  }

  predicate CanonicalEntries(entries: seq<Entry>)
    decreases entries, 0
  {
    entries == [] || (Canonical(entries[0].value) && CanonicalEntries(entries[1..]))
  }

  // ---------------------------------------------------------------- binary leaves

  /** The binary leaves of a value in the order they are met. */
  function Leaves(v: Value): seq<seq<byte>>
    decreases v, 1
  {
    match v
    case Binary(bytes) => [bytes]
    case Array(items) => LeavesOfItems(items)
    case Record(entries) => LeavesOfEntries(entries)
    case _ => []
  }

  function LeavesOfItems(items: seq<Value>): seq<seq<byte>>
    decreases items, 0
  {
    if items == [] then [] else Leaves(items[0]) + LeavesOfItems(items[1..])
  }

  function LeavesOfEntries(entries: seq<Entry>): seq<seq<byte>>
    decreases entries, 0
  {
    if entries == [] then [] else Leaves(entries[0].value) + LeavesOfEntries(entries[1..])
  }

  function Placeholder(num: nat): Value {
    Record([Entry("_placeholder", Bool(true)), Entry("num", Number(num))])
  }

  /** The value with its binary leaves replaced by placeholders numbered from `num` on. */
  function Hollow(v: Value, num: nat): Value
    decreases v, 1
  {
    match v
    case Binary(_) => Placeholder(num)
    case Array(items) => Array(HollowItems(items, num))
    case Record(entries) => Record(HollowEntries(entries, num))
    case _ => v
  }

  function HollowItems(items: seq<Value>, num: nat): (r: seq<Value>)
    ensures |r| == |items|
    decreases items, 0
  {
    if items == [] then []
    else [Hollow(items[0], num)] + HollowItems(items[1..], num + |Leaves(items[0])|)
  }

  function HollowEntries(entries: seq<Entry>, num: nat): (r: seq<Entry>)
    ensures |r| == |entries|
    decreases entries, 0
  {
    if entries == [] then []
    else
      [Entry(entries[0].key, Hollow(entries[0].value, num))]
      + HollowEntries(entries[1..], num + |Leaves(entries[0].value)|)
  }

  /** The buffer list that every level of the extraction pushes to. */
  class BufferList {
    var buffers: seq<seq<byte>>

    constructor ()
      ensures buffers == []
    {
      buffers := [];
    }

    method Push(bytes: seq<byte>)
      modifies this
      ensures buffers == old(buffers) + [bytes]
    {
      buffers := buffers + [bytes];
    }
  }

  method DeconstructBinaryValue(v: Value, list: BufferList) returns (r: Value)
    modifies list
    ensures r == Hollow(v, |old(list.buffers)|) && list.buffers == old(list.buffers) + Leaves(v)
    decreases v, 1
  {
    match v {
      case Binary(bytes) =>
        var num := |list.buffers|;
        list.Push(bytes);
        return Placeholder(num);
      case Array(items) =>
        var mapped := DeconstructItems(items, list);
        return Array(mapped);
      case Record(entries) =>
        var mapped := DeconstructEntries(entries, list);
        return Record(mapped);
      case _ =>
        return v;
    }
  }

  method DeconstructItems(items: seq<Value>, list: BufferList) returns (mapped: seq<Value>)
    modifies list
    ensures mapped == HollowItems(items, |old(list.buffers)|)
    ensures list.buffers == old(list.buffers) + LeavesOfItems(items)
    decreases items, 0
  {
    hide Hollow, Leaves;
    mapped := [];
    for i := 0 to |items|
      invariant list.buffers + LeavesOfItems(items[i..]) == old(list.buffers) + LeavesOfItems(items)
      invariant mapped + HollowItems(items[i..], |list.buffers|) == HollowItems(items, |old(list.buffers)|)
    {
      ghost var before, rest := list.buffers, items[i + 1..];
      assert items[i..][1..] == rest && items[i] in items;
      var item := DeconstructBinaryValue(items[i], list);
      assert list.buffers + LeavesOfItems(rest) == before + (Leaves(items[i]) + LeavesOfItems(rest));
      mapped := mapped + [item];
    }
  }

  lemma HollowEntriesStep(entry: Entry, rest: seq<Entry>, num: nat)
    ensures HollowEntries([entry] + rest, num) ==
            [Entry(entry.key, Hollow(entry.value, num))] + HollowEntries(rest, num + |Leaves(entry.value)|)
    ensures LeavesOfEntries([entry] + rest) == Leaves(entry.value) + LeavesOfEntries(rest)
  {
    assert ([entry] + rest)[1..] == rest;
  }

  lemma NoEntries()
    ensures LeavesOfEntries([]) == [] && forall num: nat :: HollowEntries([], num) == []
  {
  }

  method DeconstructEntries(entries: seq<Entry>, list: BufferList) returns (mapped: seq<Entry>)
    modifies list
    ensures mapped == HollowEntries(entries, |old(list.buffers)|)
    ensures list.buffers == old(list.buffers) + LeavesOfEntries(entries)
    decreases entries, 0
  {
    hide Hollow, Leaves, HollowEntries, LeavesOfEntries;
    NoEntries();
    mapped := [];
    for i := 0 to |entries|
      invariant list.buffers + LeavesOfEntries(entries[i..]) == old(list.buffers) + LeavesOfEntries(entries)
      invariant mapped + HollowEntries(entries[i..], |list.buffers|) == HollowEntries(entries, |old(list.buffers)|)
    {
      ghost var before, rest := list.buffers, entries[i + 1..];
      var entry := entries[i];
      assert entries[i..] == [entry] + rest && entry in entries;
      HollowEntriesStep(entry, rest, |before|);
      var item := DeconstructBinaryValue(entry.value, list);
      assert list.buffers + LeavesOfEntries(rest) == before + (Leaves(entry.value) + LeavesOfEntries(rest));
      mapped := mapped + [Entry(entry.key, item)];
    }
  }

  function Lookup(entries: seq<Entry>, key: string): Option<Value> {
    if entries == [] then None
    else if entries[0].key == key then Some(entries[0].value)
    else Lookup(entries[1..], key)
  }

  predicate PlaceholderShaped(entries: seq<Entry>) {
    Lookup(entries, "_placeholder") == Some(Bool(true))
    && Lookup(entries, "num").Some? && Lookup(entries, "num").value.Number?
  }

  function PlaceholderNum(entries: seq<Entry>): int
    requires PlaceholderShaped(entries)
  {
    Lookup(entries, "num").value.n
  }

  /** Values parsed from JSON hold no binary leaf, so that case only returns its argument. */
  function Reconstruct(v: Value, buffers: seq<seq<byte>>): Value
    decreases v, 1
  {
    match v
    case Record(entries) =>
      if PlaceholderShaped(entries) then
        var num := PlaceholderNum(entries);
        if 0 <= num < |buffers| then Binary(buffers[num]) else v
      else Record(ReconstructEntries(entries, buffers))
    case Array(items) => Array(ReconstructItems(items, buffers))
    case _ => v
  }

  function ReconstructItems(items: seq<Value>, buffers: seq<seq<byte>>): seq<Value>
    decreases items, 0
  {
    if items == [] then [] else [Reconstruct(items[0], buffers)] + ReconstructItems(items[1..], buffers)
  }

  function ReconstructEntries(entries: seq<Entry>, buffers: seq<seq<byte>>): seq<Entry>
    decreases entries, 0
  {
    if entries == [] then []
    else [Entry(entries[0].key, Reconstruct(entries[0].value, buffers))] + ReconstructEntries(entries[1..], buffers)
  }

  // ---------------------------------------------------------------- extraction and re-insertion

  /**
   A record that looks like a placeholder is read as one: it survives only if its number is not that of a
   buffer and it hides no binary leaf.
   */
  predicate Unambiguous(v: Value, buffers: nat)
    decreases v, 1
  {
    match v
    case Record(entries) =>
      if PlaceholderShaped(entries)
      then !(0 <= PlaceholderNum(entries) < buffers) && LeavesOfEntries(entries) == []
      else UnambiguousEntries(entries, buffers)
    case Array(items) => UnambiguousItems(items, buffers)
    case _ => true
  }

  predicate UnambiguousItems(items: seq<Value>, buffers: nat)
    decreases items, 0
  {
    items == [] || (Unambiguous(items[0], buffers) && UnambiguousItems(items[1..], buffers))
  }

  predicate UnambiguousEntries(entries: seq<Entry>, buffers: nat)
    decreases entries, 0
  {
    entries == [] || (Unambiguous(entries[0].value, buffers) && UnambiguousEntries(entries[1..], buffers))
  }

  lemma PlaceholderFacts(num: nat)
    ensures Leaves(Placeholder(num)) == []
    ensures PlaceholderShaped(Placeholder(num).entries) && PlaceholderNum(Placeholder(num).entries) == num
  {
    var flag, number := Entry("_placeholder", Bool(true)), Entry("num", Number(num));
    assert [flag, number][1..] == [number] && [number][1..] == [];
    assert LeavesOfEntries([number]) == [];
    assert LeavesOfEntries([flag, number]) == [];
    assert "_placeholder"[0] != "num"[0];
    assert Lookup([number], "num") == Some(Number(num));
  }

  lemma {:induction false} HollowHasNoLeaves(v: Value, num: nat)
    ensures Leaves(Hollow(v, num)) == []
    decreases v, 1
  {
    match v
    case Array(items) => HollowItemsHaveNoLeaves(items, num);
    case Record(entries) => HollowEntriesHaveNoLeaves(entries, num);
    case Binary(_) => PlaceholderFacts(num);
    case _ =>
  }

  lemma {:induction false} HollowItemsHaveNoLeaves(items: seq<Value>, num: nat)
    ensures LeavesOfItems(HollowItems(items, num)) == []
    decreases items, 0
  {
    if items != [] {
      HollowHasNoLeaves(items[0], num);
      HollowItemsHaveNoLeaves(items[1..], num + |Leaves(items[0])|);
    }
  }

  lemma {:induction false} HollowEntriesHaveNoLeaves(entries: seq<Entry>, num: nat)
    ensures LeavesOfEntries(HollowEntries(entries, num)) == []
    decreases entries, 0
  {
    if entries != [] {
      HollowHasNoLeaves(entries[0].value, num);
      HollowEntriesHaveNoLeaves(entries[1..], num + |Leaves(entries[0].value)|);
    }
  }

  lemma {:induction false} HollowKeepsKeys(entries: seq<Entry>, num: nat)
    ensures forall i | 0 <= i < |entries| :: HollowEntries(entries, num)[i].key == entries[i].key
  {
    if entries != [] {
      HollowKeepsKeys(entries[1..], num + |Leaves(entries[0].value)|);
      var rest := HollowEntries(entries[1..], num + |Leaves(entries[0].value)|);
      forall i | 0 < i < |entries|
        ensures HollowEntries(entries, num)[i].key == entries[i].key
      {
        assert HollowEntries(entries, num)[i] == rest[i - 1] && entries[i] == entries[1..][i - 1];
      }
    }
  }

  /** Extraction keeps a value canonical. */
  lemma {:induction false} HollowIsCanonical(v: Value, num: nat)
    requires Canonical(v)
    ensures Canonical(Hollow(v, num))
    decreases v, 1
  {
    match v
    case Array(items) => HollowItemsAreCanonical(items, num);
    case Record(entries) =>
      hide IsIndex, ParseDecimal;
      HollowEntriesAreCanonical(entries, num);
      HollowKeepsKeys(entries, num);
    case Binary(_) => PlaceholderIsCanonical(num);
    case _ =>
  }

  lemma PlaceholderIsCanonical(num: nat)
    ensures Canonical(Placeholder(num))
  {
    var flag, number := Entry("_placeholder", Bool(true)), Entry("num", Number(num));
    assert "_placeholder"[0] != "num"[0] && "num"[0] in "num" && !IsDigit('n');
    assert [flag, number][1..] == [number] && [number][1..] == [];
    assert CanonicalEntries([number]);
  }

  lemma {:induction false} HollowItemsAreCanonical(items: seq<Value>, num: nat)
    requires CanonicalItems(items)
    ensures CanonicalItems(HollowItems(items, num))
    decreases items, 0
  {
    if items != [] {
      HollowIsCanonical(items[0], num);
      HollowItemsAreCanonical(items[1..], num + |Leaves(items[0])|);
    }
  }

  lemma {:induction false} HollowEntriesAreCanonical(entries: seq<Entry>, num: nat)
    requires CanonicalEntries(entries)
    ensures CanonicalEntries(HollowEntries(entries, num))
    decreases entries, 0
  {
    if entries != [] {
      HollowIsCanonical(entries[0].value, num);
      HollowEntriesAreCanonical(entries[1..], num + |Leaves(entries[0].value)|);
    }
  }

  lemma {:induction false} HollowOfLeafless(v: Value, num: nat)
    ensures Leaves(v) == [] ==> Hollow(v, num) == v
    decreases v, 1
  {
    match v
    case Array(items) => HollowOfLeaflessItems(items, num);
    case Record(entries) => HollowOfLeaflessEntries(entries, num);
    case _ =>
  }

  lemma {:induction false} HollowOfLeaflessItems(items: seq<Value>, num: nat)
    ensures LeavesOfItems(items) == [] ==> HollowItems(items, num) == items
    decreases items, 0
  {
    if items != [] {
      HollowOfLeafless(items[0], num);
      HollowOfLeaflessItems(items[1..], num + |Leaves(items[0])|);
    }
  }

  lemma {:induction false} HollowOfLeaflessEntries(entries: seq<Entry>, num: nat)
    ensures LeavesOfEntries(entries) == [] ==> HollowEntries(entries, num) == entries
    decreases entries, 0
  {
    if entries != [] {
      HollowOfLeafless(entries[0].value, num);
      HollowOfLeaflessEntries(entries[1..], num + |Leaves(entries[0].value)|);
    }
  }

  /** Without buffers nothing can be mistaken for a placeholder of one. */
  lemma {:induction false} LeaflessIsUnambiguous(v: Value)
    ensures Leaves(v) == [] ==> Unambiguous(v, 0)
    decreases v, 1
  {
    match v
    case Array(items) => LeaflessItemsAreUnambiguous(items);
    case Record(entries) => LeaflessEntriesAreUnambiguous(entries);
    case _ =>
  }

  lemma {:induction false} LeaflessItemsAreUnambiguous(items: seq<Value>)
    ensures LeavesOfItems(items) == [] ==> UnambiguousItems(items, 0)
    decreases items, 0
  {
    if items != [] {
      LeaflessIsUnambiguous(items[0]);
      LeaflessItemsAreUnambiguous(items[1..]);
    }
  }

  lemma {:induction false} LeaflessEntriesAreUnambiguous(entries: seq<Entry>)
    ensures LeavesOfEntries(entries) == [] ==> UnambiguousEntries(entries, 0)
    decreases entries, 0
  {
    if entries != [] {
      LeaflessIsUnambiguous(entries[0].value);
      LeaflessEntriesAreUnambiguous(entries[1..]);
    }
  }

  /** Extraction never makes a record look like a placeholder that did not, nor the other way round. */
  lemma {:induction false} HollowKeepsShape(entries: seq<Entry>, num: nat, key: string)
    ensures var before, after := Lookup(entries, key), Lookup(HollowEntries(entries, num), key);
            && (before.Some? <==> after.Some?)
            && (after.Some? ==>
                  (before.value.Bool? || before.value.Number? || after.value.Bool? || after.value.Number? ==>
                     after == before))
  {
    if entries != [] {
      HollowKeepsShape(entries[1..], num + |Leaves(entries[0].value)|, key);
    }
  }

  /** Re-insertion undoes extraction, for a value found anywhere in a packet, exactly when it is unambiguous. */
  lemma {:induction false} ReconstructHollow(
    v: Value, before: seq<seq<byte>>, after: seq<seq<byte>>, all: seq<seq<byte>>)
    requires all == before + Leaves(v) + after
    ensures Reconstruct(Hollow(v, |before|), all) == v <==> Unambiguous(v, |all|)
    decreases v, 1
  {
    match v
    case Array(items) => ReconstructHollowItems(items, before, after, all);
    case Record(entries) => ReconstructHollowRecord(entries, before, after, all);
    case Binary(bytes) =>
      PlaceholderFacts(|before|);
      assert all[|before|] == bytes;
    case _ =>
  }

  lemma {:induction false} ReconstructHollowRecord(
    entries: seq<Entry>, before: seq<seq<byte>>, after: seq<seq<byte>>, all: seq<seq<byte>>)
    requires all == before + LeavesOfEntries(entries) + after
    ensures Reconstruct(Hollow(Record(entries), |before|), all) == Record(entries)
            <==> Unambiguous(Record(entries), |all|)
    decreases entries, 1
  {
    var hollow := HollowEntries(entries, |before|);
    HollowKeepsShape(entries, |before|, "_placeholder");
    HollowKeepsShape(entries, |before|, "num");
    assert PlaceholderShaped(hollow) <==> PlaceholderShaped(entries);
    if PlaceholderShaped(entries) {
      HollowEntriesHaveNoLeaves(entries, |before|);
      HollowOfLeaflessEntries(entries, |before|);
    } else {
      ReconstructHollowEntries(entries, before, after, all);
    }
  }

  lemma {:induction false} ReconstructHollowItems(
    items: seq<Value>, before: seq<seq<byte>>, after: seq<seq<byte>>, all: seq<seq<byte>>)
    requires all == before + LeavesOfItems(items) + after
    ensures ReconstructItems(HollowItems(items, |before|), all) == items <==> UnambiguousItems(items, |all|)
    decreases items, 0
  {
    if items != [] {
      var first, rest := Leaves(items[0]), LeavesOfItems(items[1..]);
      assert all == before + first + (rest + after);
      assert all == (before + first) + rest + after;
      ReconstructHollow(items[0], before, rest + after, all);
      ReconstructHollowItems(items[1..], before + first, after, all);
      var r := ReconstructItems(HollowItems(items, |before|), all);
      assert r == [Reconstruct(Hollow(items[0], |before|), all)]
                  + ReconstructItems(HollowItems(items[1..], |before + first|), all);
      assert r == items <==> r[0] == items[0] && r[1..] == items[1..];
    }
  }

  lemma {:induction false} ReconstructHollowEntries(
    entries: seq<Entry>, before: seq<seq<byte>>, after: seq<seq<byte>>, all: seq<seq<byte>>)
    requires all == before + LeavesOfEntries(entries) + after
    ensures ReconstructEntries(HollowEntries(entries, |before|), all) == entries
            <==> UnambiguousEntries(entries, |all|)
    decreases entries, 0
  {
    if entries != [] {
      var first, rest := Leaves(entries[0].value), LeavesOfEntries(entries[1..]);
      assert all == before + first + (rest + after);
      assert all == (before + first) + rest + after;
      ReconstructHollow(entries[0].value, before, rest + after, all);
      ReconstructHollowEntries(entries[1..], before + first, after, all);
      var r := ReconstructEntries(HollowEntries(entries, |before|), all);
      assert r == [Entry(entries[0].key, Reconstruct(Hollow(entries[0].value, |before|), all))]
                  + ReconstructEntries(HollowEntries(entries[1..], |before + first|), all);
      assert r == entries <==> r[0] == entries[0] && r[1..] == entries[1..];
    }
  }

  /** A whole value comes back from its own buffers exactly when it is unambiguous. */
  lemma BinaryRoundTripIff(v: Value)
    ensures Reconstruct(Hollow(v, 0), Leaves(v)) == v <==> Unambiguous(v, |Leaves(v)|)
  {
    assert Leaves(v) == [] + Leaves(v) + [];
    ReconstructHollow(v, [], [], Leaves(v));
  }

  // ---------------------------------------------------------------- decimal numbers

  function DigitChar(d: nat): (c: char)
    requires d < 10
    ensures IsDigit(c)
  {
    '0' + d as char
  }

  function Decimal(n: nat): (s: string)
    ensures |s| > 0 && forall c <- s :: IsDigit(c)
  {
    if n < 10 then [DigitChar(n)] else Decimal(n / 10) + [DigitChar(n % 10)]
  }

  /** `Number.parseInt` of a run of digits, as an exact integer. */
  function ParseDecimal(s: string): nat
    requires forall c <- s :: IsDigit(c)
  {
    if s == [] then 0
    else
      var last := s[|s| - 1];
      assert last in s && IsDigit(last);
      ParseDecimal(s[..|s| - 1]) * 10 + (last - '0') as nat
  }

  lemma {:induction false} ParsePrintedDecimal(n: nat)
    ensures ParseDecimal(Decimal(n)) == n
  {
    if n < 10 {
      assert Decimal(n)[..0] == [];
    } else {
      ParsePrintedDecimal(n / 10);
      assert Decimal(n)[..|Decimal(n)| - 1] == Decimal(n / 10);
    }
  }

  /** Where the run of digits that starts at `offset` ends. */
  function DigitsEnd(s: string, offset: nat): (end: nat)
    requires offset <= |s|
    ensures offset <= end <= |s| && forall i | offset <= i < end :: IsDigit(s[i])
    ensures end < |s| ==> !IsDigit(s[end])
    decreases |s| - offset
  {
    if offset < |s| && IsDigit(s[offset]) then DigitsEnd(s, offset + 1) else offset
  }

  lemma {:induction false} DigitsEndAt(s: string, offset: nat, end: nat)
    requires offset <= end <= |s| && (forall i | offset <= i < end :: IsDigit(s[i]))
    requires end < |s| ==> !IsDigit(s[end])
    ensures DigitsEnd(s, offset) == end
    decreases end - offset
  {
    if offset < end {
      DigitsEndAt(s, offset + 1, end);
    }
  }

  function NamespaceEnd(s: string, offset: nat): (end: nat)
    requires offset <= |s|
    ensures offset <= end <= |s| && forall i | offset <= i < end :: s[i] != ','
    ensures end < |s| ==> s[end] == ','
    decreases |s| - offset
  {
    if offset < |s| && s[offset] != ',' then NamespaceEnd(s, offset + 1) else offset
  }

  lemma {:induction false} NamespaceEndAt(s: string, offset: nat, end: nat)
    requires offset <= end < |s| && (forall i | offset <= i < end :: s[i] != ',') && s[end] == ','
    ensures NamespaceEnd(s, offset) == end
    decreases end - offset
  {
    if offset < end {
      NamespaceEndAt(s, offset + 1, end);
    }
  }

  // ---------------------------------------------------------------- packets

  const NAMESPACE := "/"

  datatype Packet = Packet(kind: nat, namespace: string, attachments: nat, id: Option<nat>, data: Option<Value>)

  /** JSON text, as far as packets depend on it. */
  datatype JsonCodec = JsonCodec(stringify: Value -> string, parse: string -> Option<Value>)
  {
    ghost predicate Lawful() {
      forall v | Leaves(v) == [] && Canonical(v) :: parse(stringify(v)) == Some(v) && stringify(v) != []
                                    && stringify(v)[0] != '/' && (v.Array? ==> stringify(v)[0] == '[')
    }
  }

  datatype PacketError = InvalidType | InvalidAttachments | InvalidJson

  predicate HasAttachments(kind: nat) {
    kind == 5 || kind == 6
  }

  function EncodeHeader(p: Packet): string {
    Decimal(p.kind)
    + (if HasAttachments(p.kind) then Decimal(p.attachments) + "-" else "")
    + (if p.namespace != [] && p.namespace != NAMESPACE then p.namespace + "," else "")
    + (if p.id.Some? then Decimal(p.id.value) else "")
  }

  function Encode(codec: JsonCodec, p: Packet): string {
    EncodeHeader(p) + (if p.data.Some? then codec.stringify(p.data.value) else "")
  }

  function ParseTail(codec: JsonCodec, s: string, kind: nat, attachments: nat, offset: nat)
    : Result<Packet, PacketError>
    requires offset <= |s|
  {
    var named := offset < |s| && s[offset] == '/';
    var nameEnd := if named then NamespaceEnd(s, offset) else offset;
    var namespace := if named then s[offset..nameEnd] else NAMESPACE;
    var idStart := if named && nameEnd < |s| then nameEnd + 1 else nameEnd;
    var idEnd := DigitsEnd(s, idStart);
    var id := if idEnd > idStart then Some(ParseDecimal(s[idStart..idEnd])) else None;
    if s[idEnd..] == [] then Success(Packet(kind, namespace, attachments, id, None))
    else
      match codec.parse(s[idEnd..])
      case None => Failure(InvalidJson)
      case Some(data) => Success(Packet(kind, namespace, attachments, id, Some(data)))
  }

  function Parse(codec: JsonCodec, s: string): Result<Packet, PacketError> {
    if s == [] || !IsDigit(s[0]) then Failure(InvalidType)
    else
      var kind := (s[0] - '0') as nat;
      if !HasAttachments(kind) then ParseTail(codec, s, kind, 0, 1)
      else
        var end := DigitsEnd(s, 1);
        if end == 1 || ParseDecimal(s[1..end]) > MAX_ATTACHMENTS || end == |s| || s[end] != '-'
        then Failure(InvalidAttachments)
        else ParseTail(codec, s, kind, ParseDecimal(s[1..end]), end + 1)
  }

  method ScanDigits(s: string, start: nat) returns (offset: nat)
    requires start <= |s|
    ensures offset == DigitsEnd(s, start)
  {
    offset := start;
    while offset < |s| && IsDigit(s[offset])
      invariant start <= offset <= |s| && DigitsEnd(s, start) == DigitsEnd(s, offset)
    {
      offset := offset + 1;
    }
  }

  method ScanNamespace(s: string, start: nat) returns (offset: nat)
    requires start <= |s|
    ensures offset == NamespaceEnd(s, start)
  {
    offset := start;
    while offset < |s| && s[offset] != ','
      invariant start <= offset <= |s| && NamespaceEnd(s, start) == NamespaceEnd(s, offset)
    {
      offset := offset + 1;
    }
  }

  /** The namespace, the acknowledgement id and the JSON text. */
  method ParseRest(codec: JsonCodec, s: string, kind: nat, attachments: nat, from: nat)
    returns (r: Result<Packet, PacketError>)
    requires from <= |s|
    ensures r == ParseTail(codec, s, kind, attachments, from)
  {
    hide ParseDecimal, DigitsEnd, NamespaceEnd;
    var offset, namespace := from, NAMESPACE;
    if offset < |s| && s[offset] == '/' {
      offset := ScanNamespace(s, from);
      namespace := s[from..offset];
      if offset < |s| {
        offset := offset + 1;
      }
    }
    var idStart := offset;
    offset := ScanDigits(s, idStart);
    var id := if offset > idStart then Some(ParseDecimal(s[idStart..offset])) else None;
    if s[offset..] == [] {
      return Success(Packet(kind, namespace, attachments, id, None));
    }
    var data := codec.parse(s[offset..]);
    if data.None? {
      return Failure(InvalidJson);
    }
    return Success(Packet(kind, namespace, attachments, id, data));
  }

  method ParseSocketIoPacket(codec: JsonCodec, s: string) returns (r: Result<Packet, PacketError>)
    ensures r == Parse(codec, s)
  {
    hide ParseDecimal, DigitsEnd, ParseTail;
    if s == [] || !IsDigit(s[0]) {
      return Failure(InvalidType);
    }
    var kind := (s[0] - '0') as nat;
    var offset, attachments := 1, 0;
    if HasAttachments(kind) {
      offset := ScanDigits(s, 1);
      if offset == 1 {
        return Failure(InvalidAttachments);
      }
      attachments := ParseDecimal(s[1..offset]);
      if attachments > MAX_ATTACHMENTS || offset == |s| || s[offset] != '-' {
        return Failure(InvalidAttachments);
      }
      offset := offset + 1;
    }
    r := ParseRest(codec, s, kind, attachments, offset);
  }

  /** The packets that have an unambiguous text. */
  ghost predicate Printable(codec: JsonCodec, p: Packet) {
    && p.kind < 10
    && (if HasAttachments(p.kind) then p.attachments <= MAX_ATTACHMENTS else p.attachments == 0)
    && p.namespace != [] && p.namespace[0] == '/' && ',' !in p.namespace
    && (p.data.Some? ==> Leaves(p.data.value) == [] && Canonical(p.data.value) && codec.stringify(p.data.value) != []
                         && !IsDigit(codec.stringify(p.data.value)[0]))
  }

  function IdText(p: Packet): string {
    if p.id.Some? then Decimal(p.id.value) else ""
  }

  function DataText(codec: JsonCodec, p: Packet): string {
    if p.data.Some? then codec.stringify(p.data.value) else ""
  }

  /** The part of the text after the type and the attachment count. */
  function TailText(codec: JsonCodec, p: Packet): string {
    (if p.namespace != NAMESPACE then p.namespace + "," else "") + IdText(p) + DataText(codec, p)
  }

  lemma ParsePrintedId(codec: JsonCodec, p: Packet, head: string)
    requires codec.Lawful() && Printable(codec, p)
    ensures var s := head + IdText(p) + DataText(codec, p);
            var end := DigitsEnd(s, |head|);
            && (if end > |head| then Some(ParseDecimal(s[|head|..end])) else None) == p.id
            && s[end..] == DataText(codec, p)
            && (if p.data.Some? then codec.parse(s[end..]) == p.data && s[end..] != [] else s[end..] == [])
  {
    hide Decimal, ParseDecimal;
    var s := head + IdText(p) + DataText(codec, p);
    var end := |head| + |IdText(p)|;
    assert forall i | |head| <= i < end :: s[i] == IdText(p)[i - |head|];
    DigitsEndAt(s, |head|, end);
    assert s[|head|..end] == IdText(p);
    assert s[end..] == DataText(codec, p);
    if p.id.Some? {
      ParsePrintedDecimal(p.id.value);
    }
  }

  /** With the default namespace the text goes on with the id or the JSON. */
  lemma ParsePrintedDefault(codec: JsonCodec, p: Packet, head: string)
    requires codec.Lawful() && Printable(codec, p) && p.namespace == NAMESPACE
    ensures ParseTail(codec, head + TailText(codec, p), p.kind, p.attachments, |head|) == Success(p)
  {
    hide Decimal, ParseDecimal, DigitsEnd, NamespaceEnd, IdText, DataText, Canonical;
    var s := head + TailText(codec, p);
    assert s == head + IdText(p) + DataText(codec, p);
    FirstOfTail(codec, p);
    assert |head| < |s| ==> s[|head|] == TailText(codec, p)[0];
    ParsePrintedId(codec, p, head);
    hide TailText, Printable;
  }

  lemma ParsePrintedNamespace(codec: JsonCodec, p: Packet, head: string)
    requires codec.Lawful() && Printable(codec, p) && p.namespace != NAMESPACE
    ensures ParseTail(codec, head + TailText(codec, p), p.kind, p.attachments, |head|) == Success(p)
  {
    hide Decimal, ParseDecimal, DigitsEnd, NamespaceEnd, IdText, DataText, Canonical;
    var s := head + TailText(codec, p);
    var head' := head + p.namespace + ",";
    assert s == head' + IdText(p) + DataText(codec, p);
    assert s[|head|] == '/';
    NamespaceEndAt(s, |head|, |head| + |p.namespace|);
    assert s[|head|..|head| + |p.namespace|] == p.namespace;
    ParsePrintedId(codec, p, head');
    hide TailText, Printable;
  }

  lemma ParsePrintedTail(codec: JsonCodec, p: Packet, head: string)
    requires codec.Lawful() && Printable(codec, p)
    ensures ParseTail(codec, head + TailText(codec, p), p.kind, p.attachments, |head|) == Success(p)
  {
    hide ParseTail, TailText, Printable;
    if p.namespace != NAMESPACE {
      ParsePrintedNamespace(codec, p, head);
    } else {
      ParsePrintedDefault(codec, p, head);
    }
  }

  lemma FirstOfTail(codec: JsonCodec, p: Packet)
    requires codec.Lawful() && Printable(codec, p) && p.namespace == NAMESPACE
    ensures TailText(codec, p) != [] ==> TailText(codec, p)[0] != '/'
  {
    assert TailText(codec, p) == IdText(p) + DataText(codec, p);
    if p.id.Some? {
      assert TailText(codec, p)[0] == Decimal(p.id.value)[0];
      assert Decimal(p.id.value)[0] in Decimal(p.id.value);
    }
  }

  lemma OneDigit(n: nat)
    requires n < 10
    ensures Decimal(n) == [DigitChar(n)] && (DigitChar(n) - '0') as nat == n
  {
  }

  lemma ParseEncodedBinary(codec: JsonCodec, p: Packet)
    requires codec.Lawful() && Printable(codec, p) && HasAttachments(p.kind)
    ensures Parse(codec, Encode(codec, p)) == Success(p)
  {
    hide ParseTail, ParseDecimal, Decimal, DigitsEnd, IdText, DataText;
    var s := Encode(codec, p);
    OneDigit(p.kind);
    var count := Decimal(p.attachments);
    var head := [DigitChar(p.kind)] + count + "-";
    EncodeIsHeadAndTail(codec, p);
    assert s == head + TailText(codec, p);
    assert forall i | 1 <= i < 1 + |count| :: s[i] == count[i - 1];
    assert s[1 + |count|] == '-';
    DigitsEndAt(s, 1, 1 + |count|);
    assert s[1..1 + |count|] == count;
    ParsePrintedDecimal(p.attachments);
    hide TailText;
    ParsePrintedTail(codec, p, head);
  }

  lemma EncodeIsHeadAndTail(codec: JsonCodec, p: Packet)
    requires Printable(codec, p)
    ensures Encode(codec, p) ==
            Decimal(p.kind) + (if HasAttachments(p.kind) then Decimal(p.attachments) + "-" else "") + TailText(codec, p)
  {
    hide Decimal;
  }

  /** The parser inverts the printer on every printable packet. */
  lemma ParseEncoded(codec: JsonCodec, p: Packet)
    requires codec.Lawful() && Printable(codec, p)
    ensures Parse(codec, Encode(codec, p)) == Success(p)
  {
    hide ParseTail, ParseDecimal, Decimal, DigitsEnd, TailText;
    if HasAttachments(p.kind) {
      ParseEncodedBinary(codec, p);
    } else {
      OneDigit(p.kind);
      EncodeIsHeadAndTail(codec, p);
      assert Encode(codec, p) == [DigitChar(p.kind)] + TailText(codec, p);
      ParsePrintedTail(codec, p, [DigitChar(p.kind)]);
    }
  }

  /** The printer has no limit on attachments, but the parser refuses more than ten. */
  lemma TooManyAttachmentsRefused(codec: JsonCodec, p: Packet)
    requires HasAttachments(p.kind) && p.attachments > MAX_ATTACHMENTS
    ensures Parse(codec, Encode(codec, p)) == Failure(InvalidAttachments)
  {
    hide ParseTail, ParseDecimal, Decimal, DigitsEnd;
    var s := Encode(codec, p);
    var count := Decimal(p.attachments);
    OneDigit(p.kind);
    assert s[..2 + |count|] == [DigitChar(p.kind)] + count + "-";
    assert forall i | 1 <= i < 1 + |count| :: s[i] == count[i - 1];
    assert s[1 + |count|] == '-';
    DigitsEndAt(s, 1, 1 + |count|);
    assert s[1..1 + |count|] == count;
    ParsePrintedDecimal(p.attachments);
  }

  // ---------------------------------------------------------------- Engine.IO binary frames

  function PrefixBinaryFrame(bytes: seq<byte>): seq<byte> {
    [ENGINE_IO_BINARY_FRAME_PREFIX] + bytes
  }

  function StripBinaryFramePrefix(bytes: seq<byte>): seq<byte> {
    if bytes != [] && bytes[0] == ENGINE_IO_BINARY_FRAME_PREFIX then bytes[1..] else bytes
  }
}
