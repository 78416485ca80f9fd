/**
 Opus receiver preferences in a session description (frontend/src/remote/remoteSdp.ts).

 The regular expressions of the source are written out on strings. Case folding is that of ASCII.
 */
module RemoteSdp {
  import opened Wrappers
  import opened Characters

  // ---------------------------------------------------------------- characters

  /** White space as `\s` and `trim` see it. */
  predicate IsSpace(c: char) {
    || c == ' ' || '\U{9}' <= c <= '\U{d}' || c == '\U{a0}' || c == '\U{1680}' || '\U{2000}' <= c <= '\U{200a}'
    || c == '\U{2028}' || c == '\U{2029}' || c == '\U{202f}' || c == '\U{205f}' || c == '\U{3000}' || c == '\U{feff}'
  }

  /** A line break that splits the description into lines. */
  predicate IsBreak(c: char) {
    c == '\n' || c == '\r'
  }

  /** What `.` does not match. */
  predicate IsTerminator(c: char) {
    IsBreak(c) || c == '\U{2028}' || c == '\U{2029}'
  }

  function Fold(c: char): char {
    if 'A' <= c <= 'Z' then c - 'A' + 'a' else c
  }

  function Lower(s: string): string {
    seq(|s|, i requires 0 <= i < |s| => Fold(s[i]))
  }

  /** `literal` is given in lower case. */
  predicate StartsWithFolded(s: string, literal: string) {
    |literal| <= |s| && forall i | 0 <= i < |literal| :: Fold(s[i]) == literal[i]
  }

  /** The end of the run of white space at the front. */
  function SpaceRun(s: string): (n: nat)
    ensures n <= |s| && forall i | 0 <= i < n :: IsSpace(s[i])
    ensures n < |s| ==> !IsSpace(s[n])
  {
    if s != [] && IsSpace(s[0]) then 1 + SpaceRun(s[1..]) else 0
  }

  function DigitRun(s: string): (n: nat)
    ensures n <= |s| && forall i | 0 <= i < n :: IsDigit(s[i])
    ensures n < |s| ==> !IsDigit(s[n])
  {
    if s != [] && IsDigit(s[0]) then 1 + DigitRun(s[1..]) else 0
  }

  function WordRun(s: string): (n: nat)
    ensures n <= |s| && (s != [] && !IsSpace(s[0]) ==> n > 0)
  {
    if s != [] && !IsSpace(s[0]) then 1 + WordRun(s[1..]) else 0
  }

  /** `s.trim().split(/\s+/)` of a text that is not blank. */
  function Words(s: string): seq<string>
    decreases |s|
  {
    var rest := s[SpaceRun(s)..];
    if rest == [] then [] else [rest[..WordRun(rest)]] + Words(rest[WordRun(rest)..])
  }

  function TrimEnd(s: string): (r: string)
    ensures r <= s && (r != [] ==> !IsSpace(r[|r| - 1]))
  {
    if s != [] && IsSpace(s[|s| - 1]) then TrimEnd(s[..|s| - 1]) else s
  }

  function Trim(s: string): string {
    TrimEnd(s[SpaceRun(s)..])
  }

  // ---------------------------------------------------------------- opus parameters

  function Parameter(name: string, value: string): string {
    name + "=" + value
  }

  const MINPTIME := Parameter("minptime", "10")
  const STEREO := Parameter("stereo", "1")
  const USEINBANDFEC := Parameter("useinbandfec", "1")
  const MAXPLAYBACKRATE := Parameter("maxplaybackrate", "48000")
  const MAXAVERAGEBITRATE := Parameter("maxaveragebitrate", "128000")

  const RECEIVER_PARAMETERS: seq<string> := [MINPTIME, STEREO, USEINBANDFEC, MAXPLAYBACKRATE, MAXAVERAGEBITRATE]

  predicate IsReceiverName(name: string) {
    name == "minptime" || name == "stereo" || name == "useinbandfec" || name == "maxplaybackrate"
    || name == "maxaveragebitrate"
  }

  function IndexOf(s: string, c: char): (n: nat)
    ensures n <= |s| && c !in s[..n] && (n < |s| ==> s[n] == c)
  {
    if s == [] || s[0] == c then 0 else 1 + IndexOf(s[1..], c)
  }

  function ParameterName(parameter: string): string {
    Lower(Trim(parameter[..IndexOf(parameter, '=')]))
  }

  function SplitParameters(s: string): (r: seq<string>)
    ensures r != [] && forall p <- r :: ';' !in p
    decreases |s|
  {
    var n := IndexOf(s, ';');
    if n == |s| then [s] else [s[..n]] + SplitParameters(s[n + 1..])
  }

  function JoinParameters(parameters: seq<string>): string {
    if parameters == [] then "" else if |parameters| == 1 then parameters[0]
    else parameters[0] + ";" + JoinParameters(parameters[1..])
  }

  predicate IsPreserved(parameter: string) {
    parameter != "" && !IsReceiverName(ParameterName(parameter))
  }

  /** The trimmed parameters that are not receiver parameters, in order. */
  function PreservedOf(parameters: seq<string>): (r: seq<string>)
    ensures forall p <- r :: IsPreserved(p)
  {
    if parameters == [] then []
    else (if IsPreserved(Trim(parameters[0])) then [Trim(parameters[0])] else []) + PreservedOf(parameters[1..])
  }

  function Preserved(parameters: string): seq<string> {
    PreservedOf(SplitParameters(parameters))
  }

  function Merge(parameters: string): string {
    JoinParameters(RECEIVER_PARAMETERS + Preserved(parameters))
  }

  // ---------------------------------------------------------------- lines of a media section

  predicate IsMedia(line: string) {
    "m=" <= line
  }

  predicate IsAudio(line: string) {
    StartsWithFolded(line, "m=audio") && (|line| == 7 || IsSpace(line[7]))
  }

  function OfferedPayloads(line: string): seq<string> {
    if |Words(line)| > 3 then Words(line)[3..] else []
  }

  /** The payload type of an `a=rtpmap` line for opus/48000/2. */
  function OpusPayload(line: string): Option<string> {
    if !StartsWithFolded(line, "a=rtpmap:") then None
    else
      var rest := line[9..];
      var digits := DigitRun(rest);
      var spaces := SpaceRun(rest[digits..]);
      var tail := rest[digits + spaces..];
      if digits > 0 && spaces > 0 && StartsWithFolded(tail, "opus/48000/2") && SpaceRun(tail[12..]) == |tail[12..]|
      then Some(rest[..digits]) else None
  }

  /** The parameter text of an `a=fmtp` line for the given payload type. */
  function FmtpParameters(line: string, payload: string): (r: Option<string>)
    ensures r.Some? ==> forall c <- r.value :: !IsTerminator(c)
  {
    var n := 7 + |payload|;
    if !StartsWithFolded(line, "a=fmtp:") || !(payload <= line[7..]) then None
    else if |line| == n then Some("")
    else
      var spaces := SpaceRun(line[n..]);
      var text := line[n + spaces..];
      if spaces == 0 || exists c <- text :: IsTerminator(c) then None else Some(text)
  }

  predicate IsFmtpOf(line: string, payload: string) {
    FmtpParameters(line, payload).Some?
  }

  function FmtpLine(payload: string, parameters: string): string {
    "a=fmtp:" + payload + " " + Merge(parameters)
  }

  function FmtpOf(payload: string): string -> bool {
    (line: string) => IsFmtpOf(line, payload)
  }

  function RtpmapOf(payload: string): string -> bool {
    (line: string) => OpusPayload(line) == Some(payload)
  }

  /** `findIndex`, with the length of the list for "not found". */
  function FirstMatch(lines: seq<string>, matches: string -> bool): (n: nat)
    ensures n <= |lines| && (forall i | 0 <= i < n :: !matches(lines[i]))
    ensures n < |lines| ==> matches(lines[n])
  {
    if lines == [] || matches(lines[0]) then 0 else 1 + FirstMatch(lines[1..], matches)
  }

  function FirstFmtp(lines: seq<string>, payload: string): nat {
    FirstMatch(lines, FmtpOf(payload))
  }

  function FirstRtpmap(lines: seq<string>, payload: string): nat {
    FirstMatch(lines, RtpmapOf(payload))
  }

  /** Rewrites the first fmtp line of a payload, or inserts one after its rtpmap line. */
  function WithPreferences(lines: seq<string>, payload: string): seq<string> {
    var f := FirstFmtp(lines, payload);
    if f < |lines| then lines[f := FmtpLine(payload, FmtpParameters(lines[f], payload).value)]
    else
      var r := FirstRtpmap(lines, payload);
      var at := if r < |lines| then r + 1 else 0;
      lines[..at] + [FmtpLine(payload, "")] + lines[at..]
  }

  function WithAllPreferences(lines: seq<string>, payloads: seq<string>): seq<string>
    decreases |payloads|
  {
    if payloads == [] then lines else WithAllPreferences(WithPreferences(lines, payloads[0]), payloads[1..])
  }

  /** The offered opus payload types of a section, in the order of their rtpmap lines. */
  function OpusPayloads(lines: seq<string>, offered: seq<string>): seq<string> {
    if lines == [] then []
    else
      var payload := OpusPayload(lines[0]);
      (if payload.Some? && payload.value in offered then [payload.value] else []) + OpusPayloads(lines[1..], offered)
  }

  function SectionPayloads(section: seq<string>): seq<string> {
    if section == [] || !IsAudio(section[0]) then [] else OpusPayloads(section, OfferedPayloads(section[0]))
  }

  function RewriteSection(section: seq<string>): seq<string> {
    WithAllPreferences(section, SectionPayloads(section))
  }

  // ---------------------------------------------------------------- descriptions

  /** The first media line at or after `from`. */
  function SectionEnd(lines: seq<string>, from: nat): (end: nat)
    requires from <= |lines|
    ensures from <= end <= |lines| && (forall i | from <= i < end :: !IsMedia(lines[i]))
    ensures end < |lines| ==> IsMedia(lines[end])
    decreases |lines| - from
  {
    if from < |lines| && !IsMedia(lines[from]) then SectionEnd(lines, from + 1) else from
  }

  function RewriteLines(lines: seq<string>): seq<string>
    decreases |lines|
  {
    if lines == [] then []
    else
      var end := SectionEnd(lines, 1);
      RewriteSection(lines[..end]) + RewriteLines(lines[end..])
  }

  function BreakAt(s: string): (n: nat)
    ensures n <= |s| && (forall i | 0 <= i < n :: !IsBreak(s[i])) && (n < |s| ==> IsBreak(s[n]))
  {
    if s == [] || IsBreak(s[0]) then 0 else 1 + BreakAt(s[1..])
  }

  function SeparatorAt(s: string, n: nat): (r: string)
    requires n < |s|
    ensures 1 <= |r| <= 2 && n + |r| <= |s|
  {
    if s[n] == '\r' && n + 1 < |s| && s[n + 1] == '\n' then s[n..n + 2] else [s[n]]
  }

  function SplitLines(s: string): (lines: seq<string>)
    ensures lines != []
    decreases |s|
  {
    var n := BreakAt(s);
    if n == |s| then [s] else [s[..n]] + SplitLines(s[n + |SeparatorAt(s, n)|..])
  }

  function FirstSeparator(s: string): string {
    if BreakAt(s) == |s| then "\r\n" else SeparatorAt(s, BreakAt(s))
  }

  function JoinLines(lines: seq<string>, separator: string): string {
    if lines == [] then "" else if |lines| == 1 then lines[0]
    else lines[0] + separator + JoinLines(lines[1..], separator)
  }

  function ApplyPreferences(sdp: string): string {
    if sdp == "" then sdp else JoinLines(RewriteLines(SplitLines(sdp)), FirstSeparator(sdp))
  }

  // ---------------------------------------------------------------- the loops of the source

  method PreferOpus(lines: seq<string>, payload: string) returns (output: seq<string>)
    ensures output == WithPreferences(lines, payload)
  {
    hide FmtpParameters, OpusPayload, Merge;
    var fmtp := FirstFmtp(lines, payload);
    if fmtp < |lines| {
      var parameters := FmtpParameters(lines[fmtp], payload).value;
      return lines[fmtp := FmtpLine(payload, parameters)];
    }
    var rtpmap := FirstRtpmap(lines, payload);
    var at := if rtpmap < |lines| then rtpmap + 1 else 0;
    return lines[..at] + [FmtpLine(payload, "")] + lines[at..];
  }

  method CollectOpusPayloads(section: seq<string>, offered: seq<string>) returns (payloads: seq<string>)
    ensures payloads == OpusPayloads(section, offered)
  {
    hide OpusPayload;
    payloads := [];
    for i := 0 to |section|
      invariant payloads + OpusPayloads(section[i..], offered) == OpusPayloads(section, offered)
    {
      assert section[i..][1..] == section[i + 1..];
      var payload := OpusPayload(section[i]);
      if payload.Some? && payload.value in offered {
        payloads := payloads + [payload.value];
      }
    }
    assert section[|section|..] == [];
  }

  method PreferAll(section: seq<string>, payloads: seq<string>) returns (output: seq<string>)
    ensures output == WithAllPreferences(section, payloads)
  {
    hide WithPreferences;
    output := section;
    assert payloads[0..] == payloads;
    for i := 0 to |payloads|
      invariant WithAllPreferences(output, payloads[i..]) == WithAllPreferences(section, payloads)
    {
      assert payloads[i..][1..] == payloads[i + 1..];
      output := PreferOpus(output, payloads[i]);
    }
  }

  method RewriteMediaSection(section: seq<string>) returns (output: seq<string>)
    ensures output == RewriteSection(section)
  {
    hide IsAudio, OfferedPayloads, OpusPayload, OpusPayloads, WithPreferences;
    if section == [] || !IsAudio(section[0]) {
      return section;
    }
    var payloads := CollectOpusPayloads(section, OfferedPayloads(section[0]));
    output := PreferAll(section, payloads);
  }

  method ApplyOpusReceiverPreferencesToSdp(sdp: string) returns (r: string)
    ensures r == ApplyPreferences(sdp)
  {
    hide RewriteSection, RewriteLines, SplitLines, JoinLines, FirstSeparator, IsMedia;
    if sdp == "" {
      return sdp;
    }
    var lines := SplitLines(sdp);
    assert lines[0..] == lines;
    var output: seq<string>, sectionStart: nat, index: nat := [], 0, 0;
    while index <= |lines|
      invariant sectionStart <= index <= |lines| + 1 && sectionStart <= |lines|
      invariant index <= |lines| ==>
                  output + RewriteLines(lines[sectionStart..]) == RewriteLines(lines)
                  && forall i | sectionStart < i < index :: !IsMedia(lines[i])
      invariant index > |lines| ==> output == RewriteLines(lines)
    {
      if index == |lines| || IsMedia(lines[index]) {
        var section := RewriteMediaSection(lines[sectionStart..index]);
        SectionStep(lines, sectionStart, index);
        NoLines(lines);
        output := output + section;
        sectionStart := index;
      }
      index := index + 1;
    }
    r := JoinLines(output, FirstSeparator(sdp));
  }

  lemma NoLines(lines: seq<string>)
    ensures RewriteLines(lines[|lines|..]) == []
  {
  }

  /** Closing the section from `start` to `index` is one step of the rewriting of the lines from `start` on. */
  lemma SectionStep(lines: seq<string>, start: nat, index: nat)
    requires start <= index <= |lines|
    requires index == |lines| || IsMedia(lines[index])
    requires forall i | start < i < index :: !IsMedia(lines[i])
    ensures RewriteLines(lines[start..]) == RewriteSection(lines[start..index]) + RewriteLines(lines[index..])
  {
    hide IsAudio, OpusPayloads, OfferedPayloads, WithPreferences, IsMedia;
    var rest := lines[start..];
    if start < index {
      SectionEndAt(rest, 1, index - start);
      assert rest[..index - start] == lines[start..index] && rest[index - start..] == lines[index..];
    } else {
      assert RewriteSection([]) == [];
    }
  }

  lemma {:induction false} SectionEndAt(lines: seq<string>, from: nat, end: nat)
    requires from <= end <= |lines| && (forall i | from <= i < end :: !IsMedia(lines[i]))
    requires end < |lines| ==> IsMedia(lines[end])
    ensures SectionEnd(lines, from) == end
    decreases end - from
  {
    if from < end {
      SectionEndAt(lines, from + 1, end);
    }
  }

  // ---------------------------------------------------------------- merging parameters is idempotent

  lemma {:induction false} IndexOfAt(s: string, c: char, n: nat)
    requires n < |s| && c !in s[..n] && s[n] == c
    ensures IndexOf(s, c) == n
  {
    if n > 0 {
      assert s[0] in s[..n] && s[1..][..n - 1] == s[..n][1..];
      IndexOfAt(s[1..], c, n - 1);
    }
  }

  lemma {:induction false} IndexOfAbsent(s: string, c: char)
    requires c !in s
    ensures IndexOf(s, c) == |s|
  {
    if s != [] {
      IndexOfAbsent(s[1..], c);
    }
  }

  lemma {:induction false} SplitJoined(parameters: seq<string>)
    requires parameters != [] && forall p <- parameters :: ';' !in p
    ensures SplitParameters(JoinParameters(parameters)) == parameters
    decreases |parameters|
  {
    var s, p := JoinParameters(parameters), parameters[0];
    if |parameters| == 1 {
      IndexOfAbsent(s, ';');
    } else {
      assert s[..|p|] == p;
      IndexOfAt(s, ';', |p|);
      assert s[|p| + 1..] == JoinParameters(parameters[1..]);
      SplitJoined(parameters[1..]);
    }
  }

  lemma TrimOfTrimmed(s: string)
    requires s != [] ==> !IsSpace(s[0]) && !IsSpace(s[|s| - 1])
    ensures Trim(s) == s
  {
    assert s[0..] == s;
  }

  lemma TrimIsTrimmed(s: string)
    ensures var t := Trim(s); t != [] ==> !IsSpace(t[0]) && !IsSpace(t[|t| - 1])
  {
  }

  lemma {:induction false} PreservedAreTrimmed(parameters: seq<string>)
    ensures forall p <- PreservedOf(parameters) :: Trim(p) == p
  {
    if parameters != [] {
      TrimIsTrimmed(parameters[0]);
      TrimOfTrimmed(Trim(parameters[0]));
      PreservedAreTrimmed(parameters[1..]);
    }
  }

  /** Parameters that are preserved and trimmed already are preserved as they are. */
  lemma {:induction false} PreservedOfPreserved(parameters: seq<string>)
    requires forall p <- parameters :: IsPreserved(p) && Trim(p) == p
    ensures PreservedOf(parameters) == parameters
  {
    hide IsPreserved, Trim;
    if parameters != [] {
      assert parameters[0] in parameters && forall p <- parameters[1..] :: p in parameters;
      PreservedOfPreserved(parameters[1..]);
    }
  }

  lemma {:induction false} PreservedOfAppend(a: seq<string>, b: seq<string>)
    ensures PreservedOf(a + b) == PreservedOf(a) + PreservedOf(b)
  {
    if a == [] {
      assert a + b == b;
    } else {
      assert (a + b)[0] == a[0] && (a + b)[1..] == a[1..] + b;
      PreservedOfAppend(a[1..], b);
    }
  }

  /** A parameter `name=value` whose name is a receiver name is not preserved. */
  lemma ReceiverParameterDropped(name: string, value: string)
    requires IsReceiverName(name) && name != [] && forall i | 0 <= i < |name| :: 'a' <= name[i] <= 'z'
    requires value != [] && forall i | 0 <= i < |value| :: IsDigit(value[i])
    ensures Dropped(Parameter(name, value))
  {
    hide IsReceiverName, Trim;
    var p := Parameter(name, value);
    TrimOfTrimmed(p);
    assert p[..|name|] == name && p[|name|] == '=';
    IndexOfAt(p, '=', |name|);
    TrimOfTrimmed(name);
    assert Lower(name) == name;
    assert forall c <- p :: 'a' <= c <= 'z' || c == '=' || IsDigit(c);
  }

  predicate Dropped(p: string) {
    Trim(p) == p && !IsPreserved(p) && ';' !in p && forall c <- p :: !IsTerminator(c)
  }

  lemma ReceiverParametersDropped()
    ensures forall p <- RECEIVER_PARAMETERS :: Dropped(p)
    ensures PreservedOf(RECEIVER_PARAMETERS) == []
  {
    hide Dropped, PreservedOf, Parameter;
    forall i | 0 <= i < |RECEIVER_PARAMETERS|
      ensures Dropped(RECEIVER_PARAMETERS[i])
    {
      ReceiverParameterAt(i);
    }
    NonePreserved(RECEIVER_PARAMETERS);
  }

  lemma ReceiverParameterAt(i: nat)
    requires i < |RECEIVER_PARAMETERS|
    ensures Dropped(RECEIVER_PARAMETERS[i])
  {
    hide Parameter, IsPreserved, Trim;
    match i
    case 0 => ReceiverParameterDropped("minptime", "10");
    case 1 => ReceiverParameterDropped("stereo", "1");
    case 2 => ReceiverParameterDropped("useinbandfec", "1");
    case 3 => ReceiverParameterDropped("maxplaybackrate", "48000");
    case _ => ReceiverParameterDropped("maxaveragebitrate", "128000");
  }

  lemma {:induction false} NonePreserved(parameters: seq<string>)
    requires forall p <- parameters :: Dropped(p)
    ensures PreservedOf(parameters) == []
  {
    hide Trim, IsPreserved;
    if parameters != [] {
      assert Dropped(parameters[0]);
      NonePreserved(parameters[1..]);
    }
  }

  lemma {:induction false} TrimKeepsChars(s: string)
    ensures forall c <- Trim(s) :: c in s
  {
  }

  lemma {:induction false} PreservedKeepsChars(parameters: seq<string>, c: char)
    requires forall p <- parameters :: c !in p
    ensures forall p <- PreservedOf(parameters) :: c !in p
  {
    if parameters != [] {
      TrimKeepsChars(parameters[0]);
      PreservedKeepsChars(parameters[1..], c);
    }
  }

  /** Merging twice is merging once, whatever the parameter text. */
  lemma MergeIdempotent(parameters: string)
    ensures Preserved(Merge(parameters)) == Preserved(parameters)
    ensures Merge(Merge(parameters)) == Merge(parameters)
  {
    var preserved := Preserved(parameters);
    var all := RECEIVER_PARAMETERS + preserved;
    ReceiverParametersDropped();
    PreservedKeepsChars(SplitParameters(parameters), ';');
    SplitJoined(all);
    PreservedOfAppend(RECEIVER_PARAMETERS, preserved);
    PreservedAreTrimmed(SplitParameters(parameters));
    PreservedOfPreserved(preserved);
  }

  // ---------------------------------------------------------------- one line

  predicate IsPayload(payload: string) {
    payload != [] && forall i | 0 <= i < |payload| :: IsDigit(payload[i])
  }

  lemma OpusPayloadIsPayload(line: string)
    ensures OpusPayload(line).Some? ==> IsPayload(OpusPayload(line).value)
  {
  }

  lemma FmtpStart(line: string)
    requires StartsWithFolded(line, "a=fmtp:")
    ensures !IsMedia(line) && !StartsWithFolded(line, "a=rtpmap:")
  {
    assert Fold(line[0]) == 'a' && Fold(line[2]) == 'f';
  }

  /** An fmtp line is neither a media line nor an rtpmap line. */
  lemma FmtpIsOnlyFmtp(line: string, payload: string)
    requires IsFmtpOf(line, payload)
    ensures !IsMedia(line) && OpusPayload(line) == None
  {
    hide StartsWithFolded, IsMedia, SpaceRun, DigitRun, IsTerminator;
    FmtpStart(line);
  }

  lemma AudioIsNotFmtp(line: string, payload: string)
    ensures IsAudio(line) ==> !IsFmtpOf(line, payload)
  {
    assert IsAudio(line) ==> Fold(line[0]) == 'm';
    assert IsFmtpOf(line, payload) ==> Fold(line[0]) == 'a';
  }

  /** A line is the fmtp line of at most one payload type. */
  lemma FmtpOfOnePayload(line: string, p: string, q: string)
    requires IsPayload(p) && IsPayload(q) && IsFmtpOf(line, p) && IsFmtpOf(line, q)
    ensures p == q
  {
    var rest := line[7..];
    assert p <= rest && q <= rest;
    FmtpBoundary(line, p);
    FmtpBoundary(line, q);
    assert p == rest[..|p|] && q == rest[..|q|];
  }

  lemma FmtpBoundary(line: string, p: string)
    requires IsFmtpOf(line, p)
    ensures |line| > 7 + |p| ==> IsSpace(line[7 + |p|])
  {
    if |line| > 7 + |p| {
      assert line[7 + |p|..][0] == line[7 + |p|];
    }
  }

  lemma {:induction false} SplitKeepsChars(s: string)
    ensures forall p <- SplitParameters(s), c <- p :: c in s
    decreases |s|
  {
    var n := IndexOf(s, ';');
    if n < |s| {
      SplitKeepsChars(s[n + 1..]);
      assert forall c <- s[n + 1..] :: c in s;
    }
  }

  lemma {:induction false} PreservedFromParameters(parameters: seq<string>, s: string)
    requires forall p <- parameters, c <- p :: c in s
    ensures forall p <- PreservedOf(parameters), c <- p :: c in s
  {
    if parameters != [] {
      TrimKeepsChars(parameters[0]);
      PreservedFromParameters(parameters[1..], s);
    }
  }

  predicate NoTerminators(s: string) {
    forall c <- s :: !IsTerminator(c)
  }

  lemma {:induction false} JoinHasNoTerminators(parameters: seq<string>)
    requires forall p <- parameters :: NoTerminators(p)
    ensures NoTerminators(JoinParameters(parameters))
  {
    if parameters != [] {
      assert NoTerminators(parameters[0]);
    }
    if |parameters| > 1 {
      assert NoTerminators(";");
      JoinHasNoTerminators(parameters[1..]);
    }
  }

  lemma MergeHasNoTerminators(parameters: string)
    requires NoTerminators(parameters)
    ensures NoTerminators(Merge(parameters))
  {
    hide SplitParameters, PreservedOf, JoinParameters, IsTerminator, Parameter;
    ReceiverParametersDropped();
    SplitKeepsChars(parameters);
    PreservedFromParameters(SplitParameters(parameters), parameters);
    forall p <- RECEIVER_PARAMETERS
      ensures NoTerminators(p)
    {
      assert Dropped(p);
    }
    forall p <- Preserved(parameters)
      ensures NoTerminators(p)
    {
    }
    JoinHasNoTerminators(RECEIVER_PARAMETERS + Preserved(parameters));
  }

  lemma MergeStartsWithoutSpace(parameters: string)
    ensures Merge(parameters) != [] && !IsSpace(Merge(parameters)[0])
  {
    hide Preserved, JoinParameters;
    var all := RECEIVER_PARAMETERS + Preserved(parameters);
    assert all[0] == MINPTIME && |all| > 1;
    assert MINPTIME[0] == 'm';
    JoinStartsWithFirst(all);
  }

  lemma JoinStartsWithFirst(parameters: seq<string>)
    requires parameters != [] && parameters[0] != ""
    ensures JoinParameters(parameters) != "" && JoinParameters(parameters)[0] == parameters[0][0]
  {
  }

  /** The line that is written for a payload is its fmtp line, with the merged parameters. */
  lemma FmtpLineReads(payload: string, parameters: string)
    requires IsPayload(payload) && NoTerminators(parameters)
    ensures FmtpParameters(FmtpLine(payload, parameters), payload) == Some(Merge(parameters))
  {
    hide Merge;
    var line, merged := FmtpLine(payload, parameters), Merge(parameters);
    MergeHasNoTerminators(parameters);
    MergeStartsWithoutSpace(parameters);
    assert line[..7] == "a=fmtp:" && line[7..] == payload + " " + merged;
    assert forall i | 0 <= i < 7 :: Fold(line[i]) == "a=fmtp:"[i] by {
      assert forall i | 0 <= i < 7 :: line[i] == line[..7][i];
    }
    var rest := line[7 + |payload|..];
    assert rest == " " + merged && rest[1..] == merged;
    assert SpaceRun(merged) == 0;
    assert SpaceRun(rest) == 1;
    assert line[7 + |payload| + 1..] == merged;
  }

  // ---------------------------------------------------------------- the lines of a section

  function Filter(lines: seq<string>, keep: string -> bool): seq<string> {
    if lines == [] then []
    else (if keep(lines[0]) then [lines[0]] else []) + Filter(lines[1..], keep)
  }

  lemma {:induction false} FilterAppend(a: seq<string>, b: seq<string>, keep: string -> bool)
    ensures Filter(a + b, keep) == Filter(a, keep) + Filter(b, keep)
  {
    if a == [] {
      assert a + b == b;
    } else {
      assert (a + b)[0] == a[0] && (a + b)[1..] == a[1..] + b;
      FilterAppend(a[1..], b, keep);
    }
  }

  lemma FilterOne(line: string, keep: string -> bool)
    ensures Filter([line], keep) == if keep(line) then [line] else []
  {
  }

  lemma {:induction false} FilterNone(lines: seq<string>, keep: string -> bool)
    requires forall i | 0 <= i < |lines| :: !keep(lines[i])
    ensures Filter(lines, keep) == []
  {
    if lines != [] {
      FilterNone(lines[1..], keep);
    }
  }

  function FmtpLines(lines: seq<string>, payload: string): seq<string> {
    Filter(lines, FmtpOf(payload))
  }

  /** The parameter text a payload had: that of its first fmtp line, or none. */
  function OldParameters(fmtp: seq<string>, payload: string): string {
    if fmtp != [] && IsFmtpOf(fmtp[0], payload) then FmtpParameters(fmtp[0], payload).value else ""
  }

  /** What becomes of the fmtp lines of a payload: the first one carries the preferences, the others stay. */
  function Preferred(fmtp: seq<string>, payload: string): seq<string> {
    [FmtpLine(payload, OldParameters(fmtp, payload))] + (if fmtp == [] then [] else fmtp[1..])
  }

  lemma PreferredIdempotent(fmtp: seq<string>, payload: string)
    requires IsPayload(payload)
    ensures Preferred(Preferred(fmtp, payload), payload) == Preferred(fmtp, payload)
  {
    hide Merge;
    var was := OldParameters(fmtp, payload);
    FmtpLineReads(payload, was);
    MergeIdempotent(was);
  }

  /** One rewrite puts one line in place of the first fmtp line, or adds it right after the rtpmap line. */
  lemma RewriteShape(lines: seq<string>, payload: string)
    returns (a: seq<string>, was: seq<string>, b: seq<string>)
    ensures lines == a + was + b && |was| <= 1
    ensures was == [] ==> FmtpLines(b, payload) == []
    ensures was != [] ==> IsFmtpOf(was[0], payload)
    ensures FmtpLines(a, payload) == []
    ensures WithPreferences(lines, payload) == a + [FmtpLine(payload, OldParameters(was, payload))] + b
    ensures lines != [] && IsAudio(lines[0]) && FirstRtpmap(lines, payload) < |lines| ==> a != []
  {
    hide FmtpParameters, OpusPayload, Merge, IsAudio;
    var f := FirstFmtp(lines, payload);
    if f < |lines| {
      a, was, b := lines[..f], [lines[f]], lines[f + 1..];
      AudioIsNotFmtp(lines[0], payload);
    } else {
      var r := FirstRtpmap(lines, payload);
      var at := if r < |lines| then r + 1 else 0;
      a, was, b := lines[..at], [], lines[at..];
      FilterNone(b, FmtpOf(payload));
      assert OldParameters(was, payload) == "";
    }
    FilterNone(a, FmtpOf(payload));
  }

  /** Lines that are not fmtp lines of the payload are left alone, in order. */
  lemma RewriteKeepsOthers(lines: seq<string>, payload: string, keep: string -> bool)
    requires IsPayload(payload)
    requires forall line :: IsFmtpOf(line, payload) ==> !keep(line)
    ensures Filter(WithPreferences(lines, payload), keep) == Filter(lines, keep)
  {
    hide FmtpParameters, WithPreferences, FmtpLine, OldParameters, Filter, FirstRtpmap, IsMedia, IsAudio;
    var a, was, b := RewriteShape(lines, payload);
    var now := FmtpLine(payload, OldParameters(was, payload));
    WrittenLineIsFmtp(was, payload);
    FilterAppend(a + was, b, keep);
    FilterAppend(a, was, keep);
    FilterAppend(a + [now], b, keep);
    FilterAppend(a, [now], keep);
    FilterOne(now, keep);
    if was != [] {
      assert was == [was[0]];
      FilterOne(was[0], keep);
    } else {
      FilterNone(was, keep);
    }
  }

  lemma WrittenLineIsFmtp(fmtp: seq<string>, payload: string)
    requires IsPayload(payload)
    ensures IsFmtpOf(FmtpLine(payload, OldParameters(fmtp, payload)), payload)
  {
    FmtpLineReads(payload, OldParameters(fmtp, payload));
  }

  lemma RewriteFmtpLines(lines: seq<string>, payload: string)
    requires IsPayload(payload)
    ensures FmtpLines(WithPreferences(lines, payload), payload) == Preferred(FmtpLines(lines, payload), payload)
  {
    hide FmtpParameters, WithPreferences, FmtpLine, IsFmtpOf, Filter, FirstRtpmap, IsMedia, IsAudio;
    var keep := FmtpOf(payload);
    var a, was, b := RewriteShape(lines, payload);
    var now := FmtpLine(payload, OldParameters(was, payload));
    WrittenLineIsFmtp(was, payload);
    FilterAppend(a + was, b, keep);
    FilterAppend(a, was, keep);
    FilterAppend(a + [now], b, keep);
    FilterAppend(a, [now], keep);
    FilterOne(now, keep);
    if was != [] {
      assert was == [was[0]];
      FilterOne(was[0], keep);
      assert FmtpLines(lines, payload) == was + FmtpLines(b, payload);
    } else {
      FilterNone(was, keep);
      assert FmtpLines(lines, payload) == [];
    }
  }

  lemma RewriteOtherFmtpLines(lines: seq<string>, payload: string, other: string)
    requires IsPayload(payload) && IsPayload(other) && payload != other
    ensures FmtpLines(WithPreferences(lines, payload), other) == FmtpLines(lines, other)
  {
    hide FmtpParameters, WithPreferences, IsFmtpOf, IsPayload;
    forall line | IsFmtpOf(line, payload)
      ensures !FmtpOf(other)(line)
    {
      if IsFmtpOf(line, other) {
        FmtpOfOnePayload(line, payload, other);
      }
    }
    RewriteKeepsOthers(lines, payload, FmtpOf(other));
  }

  ghost predicate ArePayloads(payloads: seq<string>) {
    forall p <- payloads :: IsPayload(p)
  }

  /** After the rewrite, each payload of the list has its preferred fmtp lines, and no other payload is touched. */
  lemma {:induction false} AllFmtpLines(lines: seq<string>, payloads: seq<string>, p: string)
    requires ArePayloads(payloads) && IsPayload(p)
    ensures FmtpLines(WithAllPreferences(lines, payloads), p) ==
            if p in payloads then Preferred(FmtpLines(lines, p), p) else FmtpLines(lines, p)
    decreases |payloads|
  {
    hide FmtpLines, Preferred, WithPreferences, IsPayload;
    if payloads != [] {
      var next := WithPreferences(lines, payloads[0]);
      AllFmtpLines(next, payloads[1..], p);
      if p == payloads[0] {
        RewriteFmtpLines(lines, p);
        PreferredIdempotent(FmtpLines(lines, p), p);
      } else {
        RewriteOtherFmtpLines(lines, payloads[0], p);
      }
    }
  }

  lemma {:induction false} FirstMatchOfFilter(lines: seq<string>, matches: string -> bool)
    ensures FirstMatch(lines, matches) < |lines| <==> Filter(lines, matches) != []
    ensures Filter(lines, matches) != [] ==> lines[FirstMatch(lines, matches)] == Filter(lines, matches)[0]
  {
    if lines != [] {
      FirstMatchOfFilter(lines[1..], matches);
    }
  }

  /** A payload whose fmtp lines are as preferred already is left alone. */
  lemma PreferredIsFixed(lines: seq<string>, payload: string)
    requires IsPayload(payload)
    requires FmtpLines(lines, payload) == Preferred(FmtpLines(lines, payload), payload)
    ensures WithPreferences(lines, payload) == lines
  {
    hide FmtpParameters, FmtpLine, Filter;
    FirstMatchOfFilter(lines, FmtpOf(payload));
    var f := FirstFmtp(lines, payload);
    assert IsFmtpOf(lines[f], payload);
    assert lines[f] == FmtpLine(payload, FmtpParameters(lines[f], payload).value);
  }

  lemma {:induction false} AllPreferredIsFixed(lines: seq<string>, payloads: seq<string>)
    requires ArePayloads(payloads)
    requires forall p <- payloads :: FmtpLines(lines, p) == Preferred(FmtpLines(lines, p), p)
    ensures WithAllPreferences(lines, payloads) == lines
    decreases |payloads|
  {
    hide FmtpLines, Preferred, WithPreferences, IsPayload;
    if payloads != [] {
      assert payloads[0] in payloads;
      PreferredIsFixed(lines, payloads[0]);
      AllPreferredIsFixed(lines, payloads[1..]);
    }
  }

  lemma RewriteAllTwice(lines: seq<string>, payloads: seq<string>)
    requires ArePayloads(payloads)
    ensures WithAllPreferences(WithAllPreferences(lines, payloads), payloads) == WithAllPreferences(lines, payloads)
  {
    hide FmtpLines, Preferred, WithPreferences, IsPayload, WithAllPreferences;
    var once := WithAllPreferences(lines, payloads);
    forall p <- payloads
      ensures FmtpLines(once, p) == Preferred(FmtpLines(once, p), p)
    {
      AllFmtpLines(lines, payloads, p);
      PreferredIdempotent(FmtpLines(lines, p), p);
    }
    AllPreferredIsFixed(once, payloads);
  }

  /** Everything except the fmtp lines of the listed payloads stays, in order. */
  lemma {:induction false} AllKeepOthers(lines: seq<string>, payloads: seq<string>, keep: string -> bool)
    requires ArePayloads(payloads)
    requires forall line, p | p in payloads && IsFmtpOf(line, p) :: !keep(line)
    ensures Filter(WithAllPreferences(lines, payloads), keep) == Filter(lines, keep)
    decreases |payloads|
  {
    hide FmtpParameters, WithPreferences, IsPayload, IsFmtpOf, Filter;
    if payloads != [] {
      assert payloads[0] in payloads;
      RewriteKeepsOthers(lines, payloads[0], keep);
      AllKeepOthers(WithPreferences(lines, payloads[0]), payloads[1..], keep);
    }
  }

  // ---------------------------------------------------------------- one section

  lemma {:induction false} OpusPayloadsArePayloads(lines: seq<string>, offered: seq<string>)
    ensures ArePayloads(OpusPayloads(lines, offered))
  {
    if lines != [] {
      OpusPayloadIsPayload(lines[0]);
      OpusPayloadsArePayloads(lines[1..], offered);
    }
  }

  function IsOpus(): string -> bool {
    (line: string) => OpusPayload(line).Some?
  }

  lemma {:induction false} OpusPayloadsOfFilter(lines: seq<string>, offered: seq<string>)
    ensures OpusPayloads(lines, offered) == OpusPayloads(Filter(lines, IsOpus()), offered)
  {
    hide OpusPayload;
    if lines != [] {
      OpusPayloadsOfFilter(lines[1..], offered);
      var kept := Filter(lines[1..], IsOpus());
      if IsOpus()(lines[0]) {
        assert Filter(lines, IsOpus()) == [lines[0]] + kept && ([lines[0]] + kept)[1..] == kept;
      } else {
        assert Filter(lines, IsOpus()) == kept && OpusPayloads(lines, offered) == OpusPayloads(lines[1..], offered);
      }
    }
  }

  lemma {:induction false} OpusPayloadsHaveRtpmap(lines: seq<string>, offered: seq<string>, payload: string)
    requires payload in OpusPayloads(lines, offered)
    ensures FirstRtpmap(lines, payload) < |lines|
  {
    hide OpusPayload;
    if !RtpmapOf(payload)(lines[0]) {
      OpusPayloadsHaveRtpmap(lines[1..], offered, payload);
    }
  }

  /** A section after its first line holds no media line. */
  ghost predicate OneSection(lines: seq<string>) {
    forall i | 1 <= i < |lines| :: !IsMedia(lines[i])
  }

  ghost predicate HaveRtpmaps(lines: seq<string>, payloads: seq<string>) {
    forall p <- payloads :: FirstRtpmap(lines, p) < |lines|
  }

  lemma RewriteKeepsRtpmap(lines: seq<string>, payload: string, p: string)
    requires IsPayload(payload) && FirstRtpmap(lines, p) < |lines|
    ensures FirstRtpmap(WithPreferences(lines, payload), p) < |WithPreferences(lines, payload)|
  {
    hide FmtpParameters, WithPreferences, IsPayload, IsFmtpOf, OpusPayload;
    forall line | IsFmtpOf(line, payload)
      ensures !RtpmapOf(p)(line)
    {
      FmtpIsOnlyFmtp(line, payload);
    }
    RewriteKeepsOthers(lines, payload, RtpmapOf(p));
    FirstMatchOfFilter(lines, RtpmapOf(p));
    FirstMatchOfFilter(WithPreferences(lines, payload), RtpmapOf(p));
  }

  /** The media line stays first, and no other media line appears. */
  lemma RewriteKeepsSection(lines: seq<string>, payload: string)
    requires IsPayload(payload) && FirstRtpmap(lines, payload) < |lines|
    requires lines != [] && IsAudio(lines[0]) && OneSection(lines)
    ensures var r := WithPreferences(lines, payload); r != [] && r[0] == lines[0] && OneSection(r)
  {
    hide FmtpParameters, WithPreferences, IsPayload, OpusPayload, FmtpLine, OldParameters, IsMedia, IsFmtpOf, IsAudio;
    var a, was, b := RewriteShape(lines, payload);
    var now := FmtpLine(payload, OldParameters(was, payload));
    WrittenLineIsFmtp(was, payload);
    FmtpIsOnlyFmtp(now, payload);
    var r := a + [now] + b;
    assert r[0] == lines[0];
    forall i | 1 <= i < |r|
      ensures !IsMedia(r[i])
    {
      if i < |a| {
        assert r[i] == lines[i];
      } else if i > |a| {
        assert r[i] == b[i - |a| - 1] == lines[i - 1 + |was|];
      }
    }
  }

  lemma {:induction false} AllKeepSection(lines: seq<string>, payloads: seq<string>)
    requires ArePayloads(payloads) && HaveRtpmaps(lines, payloads)
    requires lines != [] && IsAudio(lines[0]) && OneSection(lines)
    ensures var r := WithAllPreferences(lines, payloads); r != [] && r[0] == lines[0] && OneSection(r)
    decreases |payloads|
  {
    hide WithPreferences, IsPayload, OneSection, IsMedia, IsAudio, FirstRtpmap;
    if payloads != [] {
      assert payloads[0] in payloads;
      var next := WithPreferences(lines, payloads[0]);
      RewriteKeepsSection(lines, payloads[0]);
      forall p <- payloads[1..]
        ensures FirstRtpmap(next, p) < |next|
      {
        RewriteKeepsRtpmap(lines, payloads[0], p);
      }
      AllKeepSection(next, payloads[1..]);
    }
  }

  /** What the lines of a section are, once split at media lines. */
  ghost predicate IsSection(section: seq<string>) {
    section != [] && OneSection(section)
  }

  /** Rewriting twice is rewriting once, and the section stays one section with the same first line. */
  lemma SectionIdempotent(section: seq<string>)
    requires IsSection(section)
    ensures var r := RewriteSection(section);
            IsSection(r) && r[0] == section[0] && SectionPayloads(r) == SectionPayloads(section) && RewriteSection(r) == r
  {
    hide OpusPayloads, WithAllPreferences, OpusPayload, IsAudio, OfferedPayloads, IsMedia, OneSection, IsPayload;
    var payloads := SectionPayloads(section);
    var r := RewriteSection(section);
    if !IsAudio(section[0]) {
      NoPreferences(section);
    } else {
      var offered := OfferedPayloads(section[0]);
      OpusPayloadsArePayloads(section, offered);
      forall p <- payloads
        ensures FirstRtpmap(section, p) < |section|
      {
        OpusPayloadsHaveRtpmap(section, offered, p);
      }
      AllKeepSection(section, payloads);
      forall line, p | p in payloads && IsFmtpOf(line, p)
        ensures !IsOpus()(line)
      {
        FmtpIsOnlyFmtp(line, p);
      }
      AllKeepOthers(section, payloads, IsOpus());
      OpusPayloadsOfFilter(section, offered);
      OpusPayloadsOfFilter(r, offered);
      RewriteAllTwice(section, payloads);
    }
  }

  lemma NoPreferences(lines: seq<string>)
    ensures WithAllPreferences(lines, []) == lines
  {
  }

  function NotFmtpOf(payloads: seq<string>): string -> bool {
    (line: string) => forall p <- payloads :: !IsFmtpOf(line, p)
  }

  /**
   Section by section: what is not an audio section is unchanged. In an audio section, every line that is not
   an fmtp line of an offered opus payload stays, in order; and of every such payload the first fmtp line now
   carries the five receiver parameters followed by its own others in order, while its other fmtp lines stay.
   */
  lemma SectionRewritten(section: seq<string>)
    ensures section == [] || !IsAudio(section[0]) ==> RewriteSection(section) == section
    ensures Filter(RewriteSection(section), NotFmtpOf(SectionPayloads(section)))
         == Filter(section, NotFmtpOf(SectionPayloads(section)))
    ensures forall p <- SectionPayloads(section) ::
              FmtpLines(RewriteSection(section), p) == Preferred(FmtpLines(section, p), p)
    ensures forall p: string | IsPayload(p) && p !in SectionPayloads(section) ::
              FmtpLines(RewriteSection(section), p) == FmtpLines(section, p)
  {
    hide OpusPayloads, WithAllPreferences, OpusPayload, IsAudio, OfferedPayloads, IsPayload, Preferred, FmtpLines;
    var payloads := SectionPayloads(section);
    NoPreferences(section);
    if payloads != [] {
      OpusPayloadsArePayloads(section, OfferedPayloads(section[0]));
    }
    AllKeepOthers(section, payloads, NotFmtpOf(payloads));
    forall p: string | IsPayload(p)
      ensures FmtpLines(RewriteSection(section), p) ==
              if p in payloads then Preferred(FmtpLines(section, p), p) else FmtpLines(section, p)
    {
      AllFmtpLines(section, payloads, p);
    }
  }

  /** The preferred line of a payload: the five parameters, then the preserved ones, read back from the line. */
  lemma PreferredLineSays(fmtp: seq<string>, payload: string)
    requires IsPayload(payload)
    ensures var line := Preferred(fmtp, payload)[0];
            && IsFmtpOf(line, payload)
            && SplitParameters(FmtpParameters(line, payload).value)
               == RECEIVER_PARAMETERS + Preserved(OldParameters(fmtp, payload))
  {
    hide FmtpParameters, FmtpLine, Parameter, PreservedOf, SplitParameters, JoinParameters;
    var was := OldParameters(fmtp, payload);
    OldParametersClean(fmtp, payload);
    FmtpLineReads(payload, was);
    ReceiverParametersDropped();
    forall p <- RECEIVER_PARAMETERS
      ensures ';' !in p
    {
      assert Dropped(p);
    }
    PreservedKeepsChars(SplitParameters(was), ';');
    SplitJoined(RECEIVER_PARAMETERS + Preserved(was));
  }

  lemma OldParametersClean(fmtp: seq<string>, payload: string)
    ensures NoTerminators(OldParameters(fmtp, payload))
  {
  }

  // ---------------------------------------------------------------- all lines

  lemma {:induction false} RewriteLinesFirst(lines: seq<string>)
    requires lines != [] && IsMedia(lines[0])
    ensures RewriteLines(lines) != [] && RewriteLines(lines)[0] == lines[0]
  {
    hide RewriteSection, IsMedia;
    var end := SectionEnd(lines, 1);
    SectionIdempotent(lines[..end]);
  }

  /** Rewriting all sections twice is rewriting them once. */
  lemma {:induction false} LinesIdempotent(lines: seq<string>)
    ensures RewriteLines(RewriteLines(lines)) == RewriteLines(lines)
    decreases |lines|
  {
    hide RewriteSection, IsMedia;
    if lines != [] {
      var end := SectionEnd(lines, 1);
      var section, rest := lines[..end], lines[end..];
      assert IsSection(section);
      SectionIdempotent(section);
      var r, tail := RewriteSection(section), RewriteLines(rest);
      LinesIdempotent(rest);
      if rest != [] {
        RewriteLinesFirst(rest);
      }
      assert (r + tail)[..|r|] == r && (r + tail)[|r|..] == tail;
      SectionEndAt(r + tail, 1, |r|);
    }
  }

  // ---------------------------------------------------------------- the whole description

  predicate NoBreaks(line: string) {
    forall i | 0 <= i < |line| :: !IsBreak(line[i])
  }

  ghost predicate AreLines(lines: seq<string>) {
    forall i | 0 <= i < |lines| :: NoBreaks(lines[i])
  }

  lemma {:induction false} SplitAreLines(s: string)
    ensures AreLines(SplitLines(s))
    decreases |s|
  {
    var n := BreakAt(s);
    if n < |s| {
      SplitAreLines(s[n + |SeparatorAt(s, n)|..]);
    }
  }

  predicate IsSeparator(separator: string) {
    separator == "\r\n" || separator == "\n" || separator == "\r"
  }

  lemma FirstSeparatorIsSeparator(s: string)
    ensures IsSeparator(FirstSeparator(s))
  {
  }

  lemma {:induction false} BreakAtEnd(line: string, rest: string)
    requires NoBreaks(line) && (rest != [] ==> IsBreak(rest[0]))
    ensures BreakAt(line + rest) == |line|
  {
    if line == [] {
      assert line + rest == rest;
    } else {
      assert (line + rest)[1..] == line[1..] + rest;
      BreakAtEnd(line[1..], rest);
    }
  }

  /** Joined lines split into the same lines again, at the separator they were joined with. */
  lemma {:induction false} SplitJoinedLines(lines: seq<string>, separator: string)
    requires lines != [] && AreLines(lines) && IsSeparator(separator)
    ensures SplitLines(JoinLines(lines, separator)) == lines
    ensures |lines| > 1 ==> FirstSeparator(JoinLines(lines, separator)) == separator
    decreases |lines|
  {
    hide NoBreaks;
    var s := JoinLines(lines, separator);
    if |lines| == 1 {
      BreakAtEnd(lines[0], []);
      assert s + [] == s;
    } else {
      var tail := JoinLines(lines[1..], separator);
      assert s == lines[0] + (separator + tail);
      BreakAtEnd(lines[0], separator + tail);
      SeparatorFound(lines[0], separator, lines[1..]);
      assert s[|lines[0]| + |separator|..] == tail && s[..|lines[0]|] == lines[0];
      SplitJoinedLines(lines[1..], separator);
    }
  }

  lemma SeparatorFound(line: string, separator: string, lines: seq<string>)
    requires lines != [] && AreLines(lines) && IsSeparator(separator)
    ensures SeparatorAt(line + (separator + JoinLines(lines, separator)), |line|) == separator
  {
    var tail := JoinLines(lines, separator);
    var s := line + (separator + tail);
    FirstOfJoined(lines, separator);
    assert s[|line|] == separator[0];
    if separator == "\r\n" {
      assert s[|line| + 1] == '\n' && s[|line|..|line| + 2] == separator;
    } else if tail != [] {
      assert s[|line| + 1] == tail[0];
    }
  }

  lemma FirstOfJoined(lines: seq<string>, separator: string)
    requires lines != [] && AreLines(lines) && IsSeparator(separator)
    ensures var s := JoinLines(lines, separator);
            s != [] && IsBreak(s[0]) ==> s[0] == separator[0]
  {
    assert NoBreaks(lines[0]);
  }

  lemma RewriteKeepsLines(lines: seq<string>, payload: string)
    requires AreLines(lines) && IsPayload(payload)
    ensures AreLines(WithPreferences(lines, payload))
  {
    hide FmtpParameters, WithPreferences, OpusPayload, OldParameters, IsFmtpOf, Merge;
    var a, was, b := RewriteShape(lines, payload);
    var parameters := OldParameters(was, payload);
    OldParametersClean(was, payload);
    MergeHasNoTerminators(parameters);
    var now := FmtpLine(payload, parameters);
    assert NoBreaks(now) by { FmtpLineIsLine(payload, parameters); }
    assert forall i | 0 <= i < |a| :: a[i] == lines[i];
    assert forall i | 0 <= i < |b| :: b[i] == lines[|a| + |was| + i];
  }

  lemma FmtpLineIsLine(payload: string, parameters: string)
    requires IsPayload(payload) && NoTerminators(Merge(parameters))
    ensures NoBreaks(FmtpLine(payload, parameters))
  {
    hide Merge;
    var merged := Merge(parameters);
    assert forall i | 0 <= i < |merged| :: merged[i] in merged;
    var head := "a=fmtp:";
    assert NoBreaks(head);
  }

  lemma {:induction false} AllKeepLines(lines: seq<string>, payloads: seq<string>)
    requires AreLines(lines) && ArePayloads(payloads)
    ensures AreLines(WithAllPreferences(lines, payloads))
    decreases |payloads|
  {
    hide WithPreferences, IsPayload, AreLines;
    if payloads != [] {
      assert payloads[0] in payloads;
      RewriteKeepsLines(lines, payloads[0]);
      AllKeepLines(WithPreferences(lines, payloads[0]), payloads[1..]);
    }
  }

  lemma {:induction false} RewriteLinesAreLines(lines: seq<string>)
    requires AreLines(lines)
    ensures AreLines(RewriteLines(lines)) && (lines != [] ==> RewriteLines(lines) != [])
    decreases |lines|
  {
    hide IsMedia, IsAudio, OpusPayloads, OfferedPayloads, WithAllPreferences, NoBreaks;
    if lines != [] {
      var end := SectionEnd(lines, 1);
      var section := lines[..end];
      if SectionPayloads(section) != [] {
        OpusPayloadsArePayloads(section, OfferedPayloads(section[0]));
      }
      AllKeepLines(section, SectionPayloads(section));
      SectionIdempotent(section);
      RewriteLinesAreLines(lines[end..]);
    }
  }

  /** Applying the preferences twice is applying them once, for every description. */
  lemma ApplyIdempotent(sdp: string)
    ensures ApplyPreferences(ApplyPreferences(sdp)) == ApplyPreferences(sdp)
  {
    hide RewriteLines, SplitLines, FirstSeparator;
    if sdp != "" {
      var lines, separator := SplitLines(sdp), FirstSeparator(sdp);
      var rewritten := RewriteLines(lines);
      SplitAreLines(sdp);
      RewriteLinesAreLines(lines);
      FirstSeparatorIsSeparator(sdp);
      SplitJoinedLines(rewritten, separator);
      LinesIdempotent(lines);
    }
  }

  /** The lines of the result are the rewritten lines of the input: joining and splitting loses nothing. */
  lemma LinesOfResult(sdp: string)
    requires sdp != ""
    ensures SplitLines(ApplyPreferences(sdp)) == RewriteLines(SplitLines(sdp))
  {
    hide RewriteLines, SplitLines, FirstSeparator;
    SplitAreLines(sdp);
    RewriteLinesAreLines(SplitLines(sdp));
    FirstSeparatorIsSeparator(sdp);
    SplitJoinedLines(RewriteLines(SplitLines(sdp)), FirstSeparator(sdp));
  }

  /** The sections of a description, in order. */
  function Sections(lines: seq<string>): seq<seq<string>>
    decreases |lines|
  {
    if lines == [] then []
    else
      var end := SectionEnd(lines, 1);
      [lines[..end]] + Sections(lines[end..])
  }

  function RewriteSections(sections: seq<seq<string>>): seq<seq<string>> {
    if sections == [] then [] else [RewriteSection(sections[0])] + RewriteSections(sections[1..])
  }

  /** Sections are neither split, merged, dropped nor reordered: each becomes its own rewriting. */
  lemma {:induction false} SectionsRewritten(lines: seq<string>)
    ensures Sections(RewriteLines(lines)) == RewriteSections(Sections(lines))
    decreases |lines|
  {
    hide RewriteSection, IsMedia;
    if lines != [] {
      var end := SectionEnd(lines, 1);
      var section, rest := lines[..end], lines[end..];
      assert IsSection(section);
      SectionIdempotent(section);
      var r, tail := RewriteSection(section), RewriteLines(rest);
      SectionsRewritten(rest);
      if rest != [] {
        RewriteLinesFirst(rest);
      }
      assert (r + tail)[..|r|] == r && (r + tail)[|r|..] == tail;
      SectionEndAt(r + tail, 1, |r|);
      var sections := Sections(rest);
      assert ([section] + sections)[1..] == sections;
    }
  }

  // ---------------------------------------------------------------- what the recognised lines look like

  predicate AllSpace(s: string) {
    forall c <- s :: IsSpace(c)
  }

  predicate AllDigits(s: string) {
    forall c <- s :: IsDigit(c)
  }

  lemma {:induction false} SpaceRunAt(spaces: string, rest: string)
    requires AllSpace(spaces) && (rest != "" ==> !IsSpace(rest[0]))
    ensures SpaceRun(spaces + rest) == |spaces|
    decreases |spaces|
  {
    hide IsSpace;
    if spaces == "" {
      assert spaces + rest == rest;
    } else {
      assert (spaces + rest)[0] == spaces[0] && spaces[0] in spaces && (spaces + rest)[1..] == spaces[1..] + rest;
      assert forall c <- spaces[1..] :: c in spaces;
      SpaceRunAt(spaces[1..], rest);
    }
  }

  lemma {:induction false} DigitRunAt(digits: string, rest: string)
    requires AllDigits(digits) && (rest != "" ==> !IsDigit(rest[0]))
    ensures DigitRun(digits + rest) == |digits|
    decreases |digits|
  {
    if digits == "" {
      assert digits + rest == rest;
    } else {
      assert (digits + rest)[0] == digits[0] && digits[0] in digits && (digits + rest)[1..] == digits[1..] + rest;
      assert forall c <- digits[1..] :: c in digits;
      DigitRunAt(digits[1..], rest);
    }
  }

  lemma SpaceIsNoDigit(c: char)
    ensures IsSpace(c) ==> !IsDigit(c) && c != 'o' && c != 'O'
  {
  }

  /** Case aside, the line is this text at the front and something behind it. */
  lemma StartsFoldedIff(s: string, literal: string)
    ensures StartsWithFolded(s, literal) <==> |literal| <= |s| && Lower(s[..|literal|]) == literal
  {
    if |literal| <= |s| && Lower(s[..|literal|]) == literal {
      assert forall i | 0 <= i < |literal| :: Lower(s[..|literal|])[i] == Fold(s[i]);
    }
  }

  /** `a=rtpmap:`, a number, white space, `opus/48000/2`, and nothing more but white space. */
  predicate IsOpusRtpmap(prefix: string, payload: string, spaces: string, codec: string, end: string) {
    && Lower(prefix) == "a=rtpmap:" && payload != "" && AllDigits(payload) && spaces != "" && AllSpace(spaces)
    && Lower(codec) == "opus/48000/2" && AllSpace(end)
  }

  /** Cutting such a line where its parts end. */
  lemma PartsAt(prefix: string, payload: string, spaces: string, codec: string, end: string)
    requires |prefix| == 9 && |codec| == 12
    ensures var line := prefix + payload + spaces + codec + end;
            var rest := payload + (spaces + (codec + end));
            && |line| >= 9 && line[..9] == prefix && line[9..] == rest
            && rest[|payload|..] == spaces + (codec + end) && rest[..|payload|] == payload
            && rest[|payload| + |spaces|..] == codec + end
            && (codec + end)[..12] == codec && (codec + end)[12..] == end
  {
  }

  /** The runs of digits and of white space end where the next part begins. */
  lemma RunsAt(payload: string, spaces: string, tail: string)
    requires AllDigits(payload) && AllSpace(spaces) && spaces != "" && tail != "" && Fold(tail[0]) == 'o'
    ensures DigitRun(payload + (spaces + tail)) == |payload| && SpaceRun(spaces + tail) == |spaces|
  {
    hide IsSpace, DigitRun, SpaceRun;
    SpaceIsNoDigit(spaces[0]);
    SpaceIsNoDigit(tail[0]);
    assert spaces[0] in spaces && (spaces + tail)[0] == spaces[0];
    DigitRunAt(payload, spaces + tail);
    SpaceRunAt(spaces, tail);
  }

  /** Every such line is recognised, for its payload type. */
  lemma RtpmapIsRecognised(prefix: string, payload: string, spaces: string, codec: string, end: string)
    requires IsOpusRtpmap(prefix, payload, spaces, codec, end)
    ensures OpusPayload(prefix + payload + spaces + codec + end) == Some(payload)
  {
    var line, tail := prefix + payload + spaces + codec + end, codec + end;
    assert |prefix| == |Lower(prefix)| == 9 && |codec| == |Lower(codec)| == 12;
    assert Fold(tail[0]) == Lower(codec)[0] == 'o';
    hide IsSpace, Lower, DigitRun, SpaceRun, AllDigits, StartsWithFolded;
    PartsAt(prefix, payload, spaces, codec, end);
    RunsAt(payload, spaces, tail);
    StartsFoldedIff(line, "a=rtpmap:");
    StartsFoldedIff(tail, "opus/48000/2");
    assert end + "" == end;
    SpaceRunAt(end, "");
  }

  lemma RunsAre(s: string)
    ensures AllSpace(s[..SpaceRun(s)]) && AllDigits(s[..DigitRun(s)])
  {
    hide IsSpace;
    assert forall c <- s[..SpaceRun(s)] :: exists i | 0 <= i < SpaceRun(s) :: s[i] == c;
    assert forall c <- s[..DigitRun(s)] :: exists i | 0 <= i < DigitRun(s) :: s[i] == c;
  }

  /** The parts of a line that is recognised. */
  lemma RtpmapParts(line: string) returns (rest: string, digits: nat, gap: nat, tail: string)
    requires OpusPayload(line).Some?
    ensures |line| >= 9 && rest == line[9..] && Lower(line[..9]) == "a=rtpmap:"
    ensures 0 < digits == DigitRun(rest) <= |rest| && OpusPayload(line).value == rest[..digits]
    ensures 0 < gap == SpaceRun(rest[digits..]) && digits + gap <= |rest| && tail == rest[digits + gap..]
    ensures |tail| >= 12 && Lower(tail[..12]) == "opus/48000/2" && SpaceRun(tail[12..]) == |tail[12..]|
  {
    hide IsSpace, Lower;
    rest := line[9..];
    digits := DigitRun(rest);
    gap := SpaceRun(rest[digits..]);
    tail := rest[digits + gap..];
    StartsFoldedIff(line, "a=rtpmap:");
    StartsFoldedIff(tail, "opus/48000/2");
  }

  /** And nothing else is. */
  lemma OnlyRtpmapIsRecognised(line: string) returns (prefix: string, spaces: string, codec: string, end: string)
    requires OpusPayload(line).Some?
    ensures var payload := OpusPayload(line).value;
            IsOpusRtpmap(prefix, payload, spaces, codec, end) && line == prefix + payload + spaces + codec + end
  {
    var rest, digits, gap, tail := RtpmapParts(line);
    hide IsSpace, OpusPayload, Lower, SpaceRun, DigitRun;
    prefix, spaces, codec, end := line[..9], rest[digits..][..gap], tail[..12], tail[12..];
    PartsJoin(line, digits, gap);
    RunsAre(rest);
    RunsAre(rest[digits..]);
    RunsAre(end);
    assert end[..|end|] == end;
    hide AllSpace, AllDigits;
  }

  lemma PartsJoin(line: string, digits: nat, gap: nat)
    requires 9 + digits + gap + 12 <= |line|
    ensures var rest := line[9..];
            var tail := rest[digits + gap..];
            line == line[..9] + rest[..digits] + rest[digits..][..gap] + tail[..12] + tail[12..]
  {
  }

  /** `a=fmtp:` and the payload type, alone or with white space and a text of one line that begins with none. */
  predicate IsFmtpLine(prefix: string, spaces: string, text: string) {
    && Lower(prefix) == "a=fmtp:" && AllSpace(spaces) && (spaces == "" ==> text == "")
    && (text != "" ==> !IsSpace(text[0])) && forall c <- text :: !IsTerminator(c)
  }

  lemma FmtpIsRecognised(prefix: string, payload: string, spaces: string, text: string)
    requires IsFmtpLine(prefix, spaces, text)
    ensures FmtpParameters(prefix + payload + spaces + text, payload) == Some(text)
  {
    var line := prefix + payload + spaces + text;
    assert |prefix| == |Lower(prefix)| == 7;
    hide IsSpace, IsTerminator, Lower, SpaceRun, StartsWithFolded;
    StartsFoldedIff(line, "a=fmtp:");
    FmtpPartsAt(prefix, payload, spaces, text);
    SpaceRunAt(spaces, text);
  }

  lemma FmtpPartsAt(prefix: string, payload: string, spaces: string, text: string)
    requires |prefix| == 7
    ensures var line := prefix + payload + spaces + text;
            && |line| == 7 + |payload| + |spaces| + |text| && line[..7] == prefix && payload <= line[7..]
            && line[7 + |payload|..] == spaces + text && line[7 + |payload| + |spaces|..] == text
  {
    assert (prefix + payload + spaces + text)[7..] == payload + spaces + text;
  }

  lemma OnlyFmtpIsRecognised(line: string, payload: string) returns (prefix: string, spaces: string)
    requires FmtpParameters(line, payload).Some?
    ensures var text := FmtpParameters(line, payload).value;
            IsFmtpLine(prefix, spaces, text) && line == prefix + payload + spaces + text
  {
    hide IsSpace, IsTerminator;
    StartsFoldedIff(line, "a=fmtp:");
    var rest := line[7 + |payload|..];
    var gap := SpaceRun(rest);
    prefix, spaces := line[..7], rest[..gap];
    assert forall c <- spaces :: exists i | 0 <= i < gap :: rest[i] == c;
    assert line == prefix + payload + rest && rest == spaces + rest[gap..];
    assert line[7 + |payload| + gap..] == rest[gap..];
  }

  /** A media line begins with `m=`, whatever follows. */
  lemma MediaIff(line: string)
    ensures IsMedia(line) <==> |line| >= 2 && line[0] == 'm' && line[1] == '='
  {
    if IsMedia(line) {
      assert line[..2] == "m=" && line[0] == line[..2][0] && line[1] == line[..2][1];
    }
  }

  /** A media line of audio: `m=audio`, alone or with white space behind it. */
  lemma AudioIff(line: string)
    ensures IsAudio(line) <==> |line| >= 7 && Lower(line[..7]) == "m=audio" && (|line| > 7 ==> IsSpace(line[7]))
  {
    hide IsSpace;
    StartsFoldedIff(line, "m=audio");
  }

  /** Words with white space between them, and perhaps around them. */
  function Spaced(lead: string, words: seq<string>, gaps: seq<string>): string
    requires |gaps| == |words|
    decreases |words|
  {
    if words == [] then lead else lead + words[0] + Spaced(gaps[0], words[1..], gaps[1..])
  }

  ghost predicate AreWords(words: seq<string>, gaps: seq<string>) {
    && |gaps| == |words|
    && (forall w <- words :: w != "" && forall c <- w :: !IsSpace(c))
    && (forall g <- gaps :: AllSpace(g)) && (forall i | 0 <= i < |gaps| - 1 :: gaps[i] != "")
  }

  lemma {:induction false} WordRunAt(word: string, rest: string)
    requires (forall c <- word :: !IsSpace(c)) && (rest != "" ==> IsSpace(rest[0]))
    ensures WordRun(word + rest) == |word|
    decreases |word|
  {
    hide IsSpace;
    if word == "" {
      assert word + rest == rest;
    } else {
      assert (word + rest)[0] == word[0] && word[0] in word && (word + rest)[1..] == word[1..] + rest;
      assert forall c <- word[1..] :: c in word;
      WordRunAt(word[1..], rest);
    }
  }

  /** Splitting gives the words back. */
  lemma {:induction false} WordsOfSpaced(lead: string, words: seq<string>, gaps: seq<string>)
    requires AreWords(words, gaps) && AllSpace(lead)
    ensures |gaps| == |words| && Words(Spaced(lead, words, gaps)) == words
    decreases |words|
  {
    assert |gaps| == |words|;
    hide IsSpace, WordRun, SpaceRun, AreWords, AllSpace;
    if words == [] {
      assert lead + "" == lead;
      SpaceRunAt(lead, "");
    } else {
      var word, later := words[0], Spaced(gaps[0], words[1..], gaps[1..]);
      RestAreWords(words, gaps);
      LaterBeginsWithSpace(words, gaps);
      FirstWord(lead, word, later);
      WordsOfSpaced(gaps[0], words[1..], gaps[1..]);
      assert [word] + words[1..] == words;
    }
  }

  lemma FirstWord(lead: string, word: string, later: string)
    requires AllSpace(lead) && word != "" && (forall c <- word :: !IsSpace(c)) && (later != "" ==> IsSpace(later[0]))
    ensures var s := lead + word + later;
            var rest := s[SpaceRun(s)..];
            rest != "" && rest[..WordRun(rest)] == word && rest[WordRun(rest)..] == later
  {
    hide IsSpace, WordRun, SpaceRun, AllSpace;
    assert word[0] in word && (word + later)[0] == word[0];
    assert lead + word + later == lead + (word + later);
    SpaceRunAt(lead, word + later);
    assert (lead + (word + later))[|lead|..] == word + later;
    WordRunAt(word, later);
    assert (word + later)[..|word|] == word && (word + later)[|word|..] == later;
  }

  lemma RestAreWords(words: seq<string>, gaps: seq<string>)
    requires AreWords(words, gaps) && words != []
    ensures |gaps| == |words| && AreWords(words[1..], gaps[1..])
    ensures words[0] != "" && (forall c <- words[0] :: !IsSpace(c)) && AllSpace(gaps[0])
  {
    hide IsSpace, AllSpace;
    assert words[0] in words && gaps[0] in gaps;
    assert forall w <- words[1..] :: w in words;
    assert forall g <- gaps[1..] :: g in gaps;
    assert forall i | 0 <= i < |gaps[1..]| - 1 :: gaps[1..][i] == gaps[i + 1];
  }

  lemma LaterBeginsWithSpace(words: seq<string>, gaps: seq<string>)
    requires AreWords(words, gaps) && words != []
    ensures var later := Spaced(gaps[0], words[1..], gaps[1..]); later != "" ==> IsSpace(later[0])
  {
    hide IsSpace;
    assert gaps[0] in gaps;
    if gaps[0] != "" {
      assert gaps[0][0] in gaps[0];
    }
  }

  /** The offered payload types of a media line are all words behind its kind, its port and its protocol. */
  lemma OfferedAre(lead: string, media: string, port: string, protocol: string, payloads: seq<string>, gaps: seq<string>)
    requires AreWords([media, port, protocol] + payloads, gaps) && AllSpace(lead)
    ensures OfferedPayloads(Spaced(lead, [media, port, protocol] + payloads, gaps)) == payloads
  {
    WordsOfSpaced(lead, [media, port, protocol] + payloads, gaps);
    assert ([media, port, protocol] + payloads)[3..] == payloads;
  }

  /** A section's opus payload types are those that are offered and have such an rtpmap line. */
  lemma {:induction false} OpusPayloadsIff(lines: seq<string>, offered: seq<string>, payload: string)
    ensures payload in OpusPayloads(lines, offered) <==>
            payload in offered && exists line <- lines :: OpusPayload(line) == Some(payload)
  {
    hide OpusPayload;
    if lines != [] {
      OpusPayloadsIff(lines[1..], offered, payload);
      assert forall line :: line in lines <==> line == lines[0] || line in lines[1..];
    }
  }

  /** Only white space goes when a text is trimmed. */
  lemma {:induction false} TrimEndIs(s: string)
    ensures TrimEnd(s) <= s && AllSpace(s[|TrimEnd(s)|..])
    decreases |s|
  {
    hide IsSpace;
    if s != "" && IsSpace(s[|s| - 1]) {
      var front := s[..|s| - 1];
      TrimEndIs(front);
      assert s[|TrimEnd(front)|..] == front[|TrimEnd(front)|..] + [s[|s| - 1]];
    }
  }

  lemma TrimIs(s: string) returns (before: string, after: string)
    ensures s == before + Trim(s) + after && AllSpace(before) && AllSpace(after)
  {
    hide IsSpace, AllSpace, TrimEnd, SpaceRun;
    var rest := s[SpaceRun(s)..];
    before, after := s[..SpaceRun(s)], rest[|TrimEnd(rest)|..];
    RunsAre(s);
    TrimEndIs(rest);
    assert s == before + rest && rest == TrimEnd(rest) + after;
  }

  /** Splitting at the semicolons loses nothing. */
  lemma {:induction false} SplitKeepsAll(s: string)
    ensures JoinParameters(SplitParameters(s)) == s
    decreases |s|
  {
    var n := IndexOf(s, ';');
    if n < |s| {
      SplitKeepsAll(s[n + 1..]);
      var later := SplitParameters(s[n + 1..]);
      assert ([s[..n]] + later)[1..] == later;
      assert s == s[..n] + ";" + s[n + 1..];
    }
  }

  /** The parameters that stay are the trimmed non-empty ones whose name is none of the five. */
  lemma {:induction false} PreservedIff(parameters: seq<string>, p: string)
    ensures p in PreservedOf(parameters) <==>
            exists q <- parameters :: Trim(q) == p && p != "" && Lower(Trim(p[..IndexOf(p, '=')])) !in
              {"minptime", "stereo", "useinbandfec", "maxplaybackrate", "maxaveragebitrate"}
  {
    hide Trim, IndexOf, Lower;
    if parameters != [] {
      PreservedIff(parameters[1..], p);
      assert forall q :: q in parameters <==> q == parameters[0] || q in parameters[1..];
    }
  }

  /** Where the preferences stand: in place of the first fmtp line. */
  lemma PreferencesReplace(lines: seq<string>, payload: string) returns (f: nat)
    requires exists line <- lines :: IsFmtpOf(line, payload)
    ensures f < |lines| && IsFmtpOf(lines[f], payload) && forall i | 0 <= i < f :: !IsFmtpOf(lines[i], payload)
    ensures var out := WithPreferences(lines, payload);
            && |out| == |lines| && out[f] == FmtpLine(payload, FmtpParameters(lines[f], payload).value)
            && forall i | 0 <= i < |lines| && i != f :: out[i] == lines[i]
  {
    hide FmtpParameters, FmtpLine, FirstRtpmap;
    f := FirstFmtp(lines, payload);
  }

  lemma NoFmtpLine(lines: seq<string>, payload: string)
    requires forall line <- lines :: !IsFmtpOf(line, payload)
    ensures FirstFmtp(lines, payload) == |lines|
  {
    hide IsFmtpOf;
    assert forall i | 0 <= i < |lines| :: lines[i] in lines && !FmtpOf(payload)(lines[i]);
  }

  /** Without one, directly behind the first rtpmap line. */
  lemma PreferencesFollow(lines: seq<string>, payload: string) returns (r: nat)
    requires exists line <- lines :: OpusPayload(line) == Some(payload)
    requires forall line <- lines :: !IsFmtpOf(line, payload)
    ensures r < |lines| && OpusPayload(lines[r]) == Some(payload)
    ensures forall i | 0 <= i < r :: OpusPayload(lines[i]) != Some(payload)
    ensures WithPreferences(lines, payload) == lines[..r + 1] + [FmtpLine(payload, "")] + lines[r + 1..]
  {
    hide OpusPayload, IsFmtpOf, FmtpLine;
    NoFmtpLine(lines, payload);
    r := FirstRtpmap(lines, payload);
    var line :| line in lines && OpusPayload(line) == Some(payload);
    var i :| 0 <= i < |lines| && lines[i] == line;
    assert RtpmapOf(payload)(lines[i]);
  }

  /**
   The whole of it for a caller: where an audio section offers a payload type and says that it is opus, its first fmtp
   line afterwards says the five parameters and then those it had.
   */
  lemma OfferedOpusIsPreferred(section: seq<string>, payload: string)
    requires section != [] && IsAudio(section[0]) && payload in OfferedPayloads(section[0])
    requires exists line <- section :: OpusPayload(line) == Some(payload)
    ensures var after := FmtpLines(RewriteSection(section), payload);
            && after != [] && IsFmtpOf(after[0], payload)
            && SplitParameters(FmtpParameters(after[0], payload).value)
               == RECEIVER_PARAMETERS + Preserved(OldParameters(FmtpLines(section, payload), payload))
  {
    hide OpusPayload, FmtpParameters, OfferedPayloads, IsAudio, WithAllPreferences, OpusPayloads, FmtpLines, SplitParameters;
    OpusPayloadsIff(section, OfferedPayloads(section[0]), payload);
    SectionRewritten(section);
    var line :| line in section && OpusPayload(line) == Some(payload);
    OpusPayloadIsPayload(line);
    PreferredLineSays(FmtpLines(section, payload), payload);
  }

  /** The five parameters. */
  lemma ReceiverParametersAre()
    ensures RECEIVER_PARAMETERS ==
            ["minptime=10", "stereo=1", "useinbandfec=1", "maxplaybackrate=48000", "maxaveragebitrate=128000"]
  {
    assert MINPTIME == "minptime=10";
    assert STEREO == "stereo=1";
    assert USEINBANDFEC == "useinbandfec=1";
    assert MAXPLAYBACKRATE == "maxplaybackrate=48000";
    assert MAXAVERAGEBITRATE == "maxaveragebitrate=128000";
  }
}
