/** UTF-8 text as byte strings: what a fatal `TextDecoder` accepts, and the byte order mark it drops. */
module Utf8 {
  import opened Wrappers
  import opened ProtobufWire

  predicate Continuation(b: byte) {
    0x80 <= b <= 0xbf
  }

  /** Length of the well-formed sequence at the front (table 3-7 of the Unicode standard), 0 when there is none. */
  function SequenceLength(s: seq<byte>): (n: nat)
    ensures n <= |s|
  {
    if |s| >= 1 && s[0] < 0x80 then 1
    else if |s| >= 2 && 0xc2 <= s[0] <= 0xdf && Continuation(s[1]) then 2
    else if |s| >= 3 && 0xe0 <= s[0] <= 0xef && Continuation(s[1]) && Continuation(s[2])
            && (s[0] == 0xe0 ==> s[1] >= 0xa0) && (s[0] == 0xed ==> s[1] <= 0x9f) then 3
    else if |s| >= 4 && 0xf0 <= s[0] <= 0xf4 && Continuation(s[1]) && Continuation(s[2]) && Continuation(s[3])
            && (s[0] == 0xf0 ==> s[1] >= 0x90) && (s[0] == 0xf4 ==> s[1] <= 0x8f) then 4
    else 0
  }

  predicate ValidUtf8(s: seq<byte>) {
    s == [] || (SequenceLength(s) > 0 && ValidUtf8(s[SequenceLength(s)..]))
  }

  const BYTE_ORDER_MARK: seq<byte> := [0xef, 0xbb, 0xbf]

  predicate StartsWithByteOrderMark(s: seq<byte>) {
    BYTE_ORDER_MARK <= s
  }

  /** The text a decoder returns for well-formed bytes: one leading byte order mark is dropped. */
  function DroppedByteOrderMark(s: seq<byte>): seq<byte> {
    if StartsWithByteOrderMark(s) then s[3..] else s
  }

  /** `new TextDecoder("utf-8", { fatal: true }).decode`. */
  function DecodeFatal(s: seq<byte>): Option<seq<byte>> {
    if ValidUtf8(s) then Some(DroppedByteOrderMark(s)) else None
  }

  // ---------------------------------------------------------------- against the encoding of code points

  /** A Unicode scalar value: a code point that is no surrogate. */
  type Scalar = n: int | 0 <= n < 0xd800 || 0xe000 <= n <= 0x10ffff

  /** The bytes of a scalar value (table 3-6 of the Unicode standard). */
  function EncodeScalar(c: Scalar): (s: seq<byte>)
    ensures 1 <= |s| <= 4
  {
    if c < 0x80 then [c]
    else if c < 0x800 then [0xc0 + c / 64, 0x80 + c % 64]
    else if c < 0x1_0000 then [0xe0 + c / 4096, 0x80 + c / 64 % 64, 0x80 + c % 64]
    else [0xf0 + c / 0x4_0000, 0x80 + c / 4096 % 64, 0x80 + c / 64 % 64, 0x80 + c % 64]
  }

  function EncodeScalars(text: seq<Scalar>): seq<byte> {
    if text == [] then [] else EncodeScalar(text[0]) + EncodeScalars(text[1..])
  }

  lemma ScalarAtFront(c: Scalar, rest: seq<byte>)
    ensures SequenceLength(EncodeScalar(c) + rest) == |EncodeScalar(c)|
  {
    var s := EncodeScalar(c) + rest;
    assert forall i | 0 <= i < |EncodeScalar(c)| :: s[i] == EncodeScalar(c)[i];
    if 0x800 <= c < 0x1_0000 {
      assert s[0] == 0xe0 ==> c < 0x1000 && s[1] == 0x80 + c / 64;
      assert s[0] == 0xed ==> 0xd000 <= c < 0xd800 && c / 64 % 64 == c / 64 - 0x340;
    } else if 0x1_0000 <= c {
      assert s[0] == 0xf0 ==> s[1] == 0x80 + c / 4096;
      assert s[0] == 0xf4 ==> c / 4096 % 64 == c / 4096 - 0x100;
    }
  }

  lemma TwoBytes(a: int, b: int) returns (c: Scalar)
    requires 0xc2 <= a <= 0xdf && 0x80 <= b <= 0xbf
    ensures EncodeScalar(c) == [a, b]
  {
    c := (a - 0xc0) * 64 + (b - 0x80);
  }

  lemma ThreeBytes(a: int, b: int, d: int) returns (c: Scalar)
    requires 0xe0 <= a <= 0xef && 0x80 <= b <= 0xbf && 0x80 <= d <= 0xbf
    requires (a == 0xe0 ==> b >= 0xa0) && (a == 0xed ==> b <= 0x9f)
    ensures EncodeScalar(c) == [a, b, d]
  {
    var high := (a - 0xe0) * 64 + (b - 0x80);
    c := high * 64 + (d - 0x80);
    assert c / 64 == high && c / 4096 == a - 0xe0;
  }

  lemma FourBytes(a: int, b: int, d: int, e: int) returns (c: Scalar)
    requires 0xf0 <= a <= 0xf4 && 0x80 <= b <= 0xbf && 0x80 <= d <= 0xbf && 0x80 <= e <= 0xbf
    requires (a == 0xf0 ==> b >= 0x90) && (a == 0xf4 ==> b <= 0x8f)
    ensures EncodeScalar(c) == [a, b, d, e]
  {
    var top := (a - 0xf0) * 64 + (b - 0x80);
    var high := top * 64 + (d - 0x80);
    c := high * 64 + (e - 0x80);
    assert c / 64 == high && c / 4096 == top && c / 0x4_0000 == a - 0xf0;
  }

  lemma FrontIsScalar(s: seq<byte>) returns (c: Scalar)
    requires SequenceLength(s) > 0
    ensures s[..SequenceLength(s)] == EncodeScalar(c)
  {
    hide EncodeScalar;
    var n := SequenceLength(s);
    if n == 1 {
      c := s[0];
      OneByte(c);
    } else if n == 2 {
      c := TwoBytes(s[0], s[1]);
    } else if n == 3 {
      c := ThreeBytes(s[0], s[1], s[2]);
    } else {
      c := FourBytes(s[0], s[1], s[2], s[3]);
    }
  }

  lemma OneByte(c: Scalar)
    requires c < 0x80
    ensures EncodeScalar(c) == [c]
  {
  }

  /** Every text is valid once it is encoded. */
  lemma {:induction false} EncodedIsValid(text: seq<Scalar>)
    ensures ValidUtf8(EncodeScalars(text))
  {
    hide EncodeScalar, SequenceLength;
    if text != [] {
      var rest := EncodeScalars(text[1..]);
      ScalarAtFront(text[0], rest);
      EncodedIsValid(text[1..]);
      assert EncodeScalars(text)[|EncodeScalar(text[0])|..] == rest;
    }
  }

  /** And nothing else is valid. */
  lemma {:induction false} ValidIsEncoded(s: seq<byte>) returns (text: seq<Scalar>)
    requires ValidUtf8(s)
    ensures EncodeScalars(text) == s
    decreases |s|
  {
    hide EncodeScalar, SequenceLength;
    if s == [] {
      text := [];
    } else {
      var n := SequenceLength(s);
      var c := FrontIsScalar(s);
      var rest := ValidIsEncoded(s[n..]);
      text := [c] + rest;
      assert text[1..] == rest && s == s[..n] + s[n..];
    }
  }

  /** The byte order mark is the code point U+FEFF. */
  lemma ByteOrderMarkIsFeff()
    ensures BYTE_ORDER_MARK == EncodeScalar(0xfeff)
  {
  }
}
