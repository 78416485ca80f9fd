/** The base64 text of connect options (shared/src/streamer/internal/connectOptionsCodec.ts). */
module Base64 {
  import opened Wrappers
  import opened ProtobufWire

  // ---------------------------------------------------------------- encoding

  /** The alphabet: upper case, lower case, digits, plus and slash. */
  function Letter(n: nat): char
    requires n < 64
  {
    if n < 26 then 'A' + n as char
    else if n < 52 then 'a' + (n - 26) as char
    else if n < 62 then '0' + (n - 52) as char
    else if n == 62 then '+' else '/'
  }

  /** The text of up to three bytes; missing bytes leave padding. */
  function Quantum(bytes: seq<byte>): (s: string)
    requires 1 <= |bytes| <= 3
    ensures |s| == 4
  {
    var a := bytes[0];
    var b := if |bytes| > 1 then bytes[1] else 0;
    var c := if |bytes| > 2 then bytes[2] else 0;
    [Letter(a / 4),
     Letter(a % 4 * 16 + b / 16),
     if |bytes| > 1 then Letter(b % 16 * 4 + c / 64) else '=',
     if |bytes| > 2 then Letter(c % 64) else '=']
  }

  function Min3(n: nat): nat {
    if n < 3 then n else 3
  }

  function Encoded(bytes: seq<byte>): string
    decreases |bytes|
  {
    if bytes == [] then "" else Quantum(bytes[..Min3(|bytes|)]) + Encoded(bytes[Min3(|bytes|)..])
  }

  method EncodeBase64(bytes: seq<byte>) returns (output: string)
    ensures output == Encoded(bytes)
  {
    hide Encoded, GroupText;
    output := "";
    var index: nat := 0;
    assert bytes[0..] == bytes;
    NothingEncoded(bytes);
    while index < |bytes|
      invariant output + Encoded(bytes[Clip(index, |bytes|)..]) == Encoded(bytes)
      decreases |bytes| + 3 - index
    {
      var a := bytes[index];
      var b := if index + 1 < |bytes| then Some(bytes[index + 1]) else None;
      var c := if index + 2 < |bytes| then Some(bytes[index + 2]) else None;
      var group := GroupText(a, b, c);
      GroupStep(bytes, index);
      output := output + group;
      index := index + 3;
    }
  }

  /** The four characters of one round; an undefined byte counts as zero and leaves padding. */
  function GroupText(a: byte, b: Option<byte>, c: Option<byte>): string {
    var b' := if b.Some? then b.value else 0;
    var c' := if c.Some? then c.value else 0;
    [Letter(a / 4), Letter(a % 4 * 16 + b' / 16),
     if b.None? then '=' else Letter(b' % 16 * 4 + c' / 64),
     if c.None? then '=' else Letter(c' % 64)]
  }

  lemma NothingEncoded(bytes: seq<byte>)
    ensures Encoded(bytes[|bytes|..]) == ""
  {
  }

  lemma GroupStep(bytes: seq<byte>, index: nat)
    requires index < |bytes|
    ensures Encoded(bytes[index..]) ==
            GroupText(bytes[index],
                      if index + 1 < |bytes| then Some(bytes[index + 1]) else None,
                      if index + 2 < |bytes| then Some(bytes[index + 2]) else None)
            + Encoded(bytes[Clip(index + 3, |bytes|)..])
  {
    hide Letter;
    var rest := bytes[index..];
    assert rest[Min3(|rest|)..] == bytes[Clip(index + 3, |bytes|)..];
  }

  function Clip(index: nat, length: nat): nat {
    if index < length then index else length
  }

  // ---------------------------------------------------------------- decoding, section 4 of RFC 4648

  /** The value of a letter of the alphabet. */
  function Value(c: char): Option<nat> {
    if 'A' <= c <= 'Z' then Some((c - 'A') as nat)
    else if 'a' <= c <= 'z' then Some((c - 'a') as nat + 26)
    else if '0' <= c <= '9' then Some((c - '0') as nat + 52)
    else if c == '+' then Some(62)
    else if c == '/' then Some(63)
    else None
  }

  /** The bytes of four characters; padding is allowed only when `last`, and its unused bits must be zero. */
  function DecodeQuantum(s: string, last: bool): Option<seq<byte>>
    requires |s| == 4
  {
    var p, q := Value(s[0]), Value(s[1]);
    if p.None? || q.None? || p.value >= 64 || q.value >= 64 then None
    else if s[2] == '=' && s[3] == '=' && last then
      if q.value % 16 != 0 then None else Some([p.value * 4 + q.value / 16])
    else
      var r := Value(s[2]);
      if r.None? || r.value >= 64 then None
      else if s[3] == '=' && last then
        if r.value % 4 != 0 then None
        else Some([p.value * 4 + q.value / 16, q.value % 16 * 16 + r.value / 4])
      else
        var t := Value(s[3]);
        if t.None? || t.value >= 64 then None
        else Some([p.value * 4 + q.value / 16, q.value % 16 * 16 + r.value / 4, r.value % 4 * 64 + t.value])
  }

  function Decoded(s: string): Option<seq<byte>>
    decreases |s|
  {
    if s == "" then Some([])
    else if |s| < 4 then None
    else
      match DecodeQuantum(s[..4], |s| == 4)
      case None => None
      case Some(first) =>
        match Decoded(s[4..])
        case None => None
        case Some(rest) => Some(first + rest)
  }

  // ---------------------------------------------------------------- round trip

  lemma LetterValue(n: nat)
    requires n < 64
    ensures Value(Letter(n)) == Some(n) && Letter(n) != '='
  {
  }

  /** The bit fields of three bytes, cut at six bits, fit together again. */
  lemma BitFields(a: byte, b: byte, c: byte)
    ensures var p, q, r, t := a / 4, a % 4 * 16 + b / 16, b % 16 * 4 + c / 64, c % 64;
            && p < 64 && q < 64 && r < 64 && t < 64
            && p * 4 + q / 16 == a && q % 16 * 16 + r / 4 == b && r % 4 * 64 + t == c
            && (b == 0 ==> q % 16 == 0) && (c == 0 ==> r % 4 == 0)
  {
  }

  lemma QuantumRoundTrip(bytes: seq<byte>, last: bool)
    requires 1 <= |bytes| <= 3 && (|bytes| < 3 ==> last)
    ensures DecodeQuantum(Quantum(bytes), last) == Some(bytes)
  {
    hide Letter, Value;
    var a := bytes[0];
    var b := if |bytes| > 1 then bytes[1] else 0;
    var c := if |bytes| > 2 then bytes[2] else 0;
    BitFields(a, b, c);
    LetterValue(a / 4);
    LetterValue(a % 4 * 16 + b / 16);
    LetterValue(b % 16 * 4 + c / 64);
    LetterValue(c % 64);
    var s := Quantum(bytes);
    match |bytes|
    case 1 => assert bytes == [a] && DecodeQuantum(s, last) == Some([a]);
    case 2 => assert bytes == [a, b] && DecodeQuantum(s, last) == Some([a, b]);
    case _ => assert bytes == [a, b, c] && DecodeQuantum(s, last) == Some([a, b, c]);
  }

  /** Four characters for every three bytes begun. */
  lemma {:induction false} EncodedLength(bytes: seq<byte>)
    ensures |Encoded(bytes)| == (|bytes| + 2) / 3 * 4
    decreases |bytes|
  {
    hide Quantum;
    if bytes != [] {
      EncodedLength(bytes[Min3(|bytes|)..]);
    }
  }

  /** Every byte string comes back from its base64 text. */
  lemma {:induction false} Base64RoundTrip(bytes: seq<byte>)
    ensures Decoded(Encoded(bytes)) == Some(bytes)
    decreases |bytes|
  {
    hide Quantum, DecodeQuantum;
    if bytes != [] {
      var n := Min3(|bytes|);
      var head, tail := bytes[..n], bytes[n..];
      EncodedLength(tail);
      QuantumRoundTrip(head, tail == []);
      Base64RoundTrip(tail);
      var s := Encoded(bytes);
      assert s[..4] == Quantum(head) && s[4..] == Encoded(tail);
      assert head + tail == bytes;
    }
  }

  /** Two byte strings with the same text are the same. */
  lemma Base64Injective(a: seq<byte>, b: seq<byte>)
    requires Encoded(a) == Encoded(b)
    ensures a == b
  {
    Base64RoundTrip(a);
    Base64RoundTrip(b);
  }

  /** Padding stands only at the last two places, and tells the length of the last group. */
  lemma {:induction false} PaddingTellsRemainder(bytes: seq<byte>)
    requires bytes != []
    ensures var s := Encoded(bytes);
            && |s| >= 4
            && (s[|s| - 1] == '=' <==> |bytes| % 3 != 0)
            && (s[|s| - 2] == '=' <==> |bytes| % 3 == 1)
            && forall i | 0 <= i < |s| - 2 :: s[i] != '='
    decreases |bytes|
  {
    hide Quantum;
    var n := Min3(|bytes|);
    var s, head, tail := Encoded(bytes), bytes[..n], bytes[n..];
    QuantumPadding(head);
    if tail != [] {
      PaddingTellsRemainder(tail);
      var later := Encoded(tail);
      assert s == Quantum(head) + later;
      assert forall i | 4 <= i < |s| :: s[i] == later[i - 4];
    } else {
      assert s == Quantum(head);
    }
  }

  lemma QuantumPadding(bytes: seq<byte>)
    requires 1 <= |bytes| <= 3
    ensures var s := Quantum(bytes);
            s[0] != '=' && s[1] != '=' && (s[2] == '=' <==> |bytes| == 1) && (s[3] == '=' <==> |bytes| < 3)
  {
    hide Letter, Value;
    var a := bytes[0];
    var b := if |bytes| > 1 then bytes[1] else 0;
    var c := if |bytes| > 2 then bytes[2] else 0;
    LetterValue(a / 4);
    LetterValue(a % 4 * 16 + b / 16);
    LetterValue(b % 16 * 4 + c / 64);
    LetterValue(c % 64);
  }
}
