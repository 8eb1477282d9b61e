/** The bytes of a FLOW message. */
module FlowWire {
  import opened Wrappers
  import opened Endec
  import opened Text

  const FLOW_HEADER: nat := 9

  const FLAG_OPEN: u8 := 1
  const FLAG_OPENED_OK: u8 := 2
  const FLAG_OPENED_FAIL: u8 := 3
  const FLAG_CLOSE: u8 := 4
  const FLAG_DATA: u8 := 5
  const FLAG_DATAGRAM: u8 := 6

  datatype FlowMsg = FlowMsg(flowId: u32, seqNo: u32, flags: u8, payload: Bytes)

  predicate KnownFlags(flags: u8) { FLAG_OPEN <= flags <= FLAG_DATAGRAM }

  function Encode(m: FlowMsg): Bytes {
    WriteU32Le(m.flowId) + WriteU32Le(m.seqNo) + [m.flags] + m.payload
  }

  function Decode(buf: Bytes): Option<FlowMsg> {
    if |buf| < FLOW_HEADER || !KnownFlags(buf[8]) then None
    else Some(FlowMsg(ReadU32Le(buf), ReadU32Le(buf[4..]), buf[8], buf[9..]))
  }

  /** Flow number, sequence number, flags, payload; nothing shorter than a header or of unknown flags is a message. */
  lemma MessageLayout(m: FlowMsg, buf: Bytes)
    ensures var b := Encode(m);
            && |b| == 9 + |m.payload| && b[..4] == WriteU32Le(m.flowId) && b[4..8] == WriteU32Le(m.seqNo)
            && b[8] == m.flags && b[9..] == m.payload
    ensures Decode(buf).Some? <==> |buf| >= 9 && 1 <= buf[8] <= 6
  {
    var b, id, sq := Encode(m), WriteU32Le(m.flowId), WriteU32Le(m.seqNo);
    assert b[..4] == id && b[4..8] == sq;
  }

  /** Decoding inverts encoding on exactly the known flags. */
  lemma DecodeOfEncode(m: FlowMsg)
    ensures Decode(Encode(m)) == if KnownFlags(m.flags) then Some(m) else None
  {
    var b := Encode(m);
    assert b[..4] == WriteU32Le(m.flowId)[..4];
    assert b[4..][..4] == WriteU32Le(m.seqNo)[..4];
    assert b[9..] == m.payload;
  }

  /** And encoding inverts decoding: the bytes determine the message and nothing is lost. */
  lemma EncodeOfDecode(buf: Bytes)
    requires Decode(buf).Some?
    ensures Encode(Decode(buf).value) == buf
  {
    var id, sq := buf[..4], buf[4..8];
    assert buf[4..][..4] == sq;
    assert ToLe(FromLe(id), 4) == id by { ToLeFromLe(id); }
    assert ToLe(FromLe(sq), 4) == sq by { ToLeFromLe(sq); }
    FourParts(buf);
  }

  lemma FourParts(buf: Bytes)
    requires |buf| >= FLOW_HEADER
    ensures buf == buf[..4] + buf[4..8] + [buf[8]] + buf[9..]
  {
  }
  // ---------- addresses ----------

  const PROTO_TCP: u8 := 1
  const PROTO_UDP: u8 := 2
  const REASON_MAX: nat := 200
  const COLON: u8 := 58
  const U16_MAX: nat := 0xFFFF

  predicate Follows(b: u8) { 0x80 <= b < 0xC0 }

  /** Length of the UTF-8 sequence at `i`, 0 if it is malformed (table 3-7 of the Unicode standard). */
  function SequenceLength(b: Bytes, i: nat): (n: nat)
    requires i < |b|
    ensures i + n <= |b|
  {
    var left, first := |b| - i, b[i];
    if first < 0x80 then 1
    else if left >= 2 && 0xC2 <= first < 0xE0 && Follows(b[i + 1]) then 2
    else if left >= 3 && 0xE0 <= first < 0xF0 && Follows(b[i + 1]) && Follows(b[i + 2])
            && (first == 0xE0 ==> b[i + 1] >= 0xA0) && (first == 0xED ==> b[i + 1] < 0xA0) then 3
    else if left >= 4 && 0xF0 <= first < 0xF5 && Follows(b[i + 1]) && Follows(b[i + 2]) && Follows(b[i + 3])
            && (first == 0xF0 ==> b[i + 1] >= 0x90) && (first == 0xF4 ==> b[i + 1] < 0x90) then 4
    else 0
  }

  predicate Utf8From(b: Bytes, i: nat)
    requires i <= |b|
    decreases |b| - i
  {
    i == |b| || (SequenceLength(b, i) > 0 && Utf8From(b, i + SequenceLength(b, i)))
  }

  predicate Utf8(b: Bytes) { Utf8From(b, 0) }

  /** ASCII text as bytes. */
  function Ascii(s: string): Bytes { seq(|s|, i requires 0 <= i < |s| => s[i] as int % 256) }

  function Chars(b: Bytes): string { seq(|b|, i requires 0 <= i < |b| => b[i] as char) }

  /** What follows the last colon. */
  function LastPart(addr: Bytes): Bytes {
    if addr == [] then []
    else
      var n := |addr| - 1;
      if addr[n] == COLON then [] else LastPart(addr[..n]) + [addr[n]]
  }

  /** A 16-bit number in decimal; one plus sign and zeros may stand in front. */
  function ParseU16(s: string): (r: Option<nat>)
    ensures r.Some? ==> r.value <= U16_MAX
  {
    var digits := if |s| > 1 && s[0] == '+' then s[1..] else s;
    if digits == [] || !AllDigits(digits) || ParseDecimal(digits) > U16_MAX then None
    else Some(ParseDecimal(digits))
  }

  /** One plus sign in front is skipped; any other character that is no digit, or nothing, is no number. */
  lemma NumberText(s: string)
    ensures s != [] ==> ParseU16(['+'] + s) == if AllDigits(s) then ParseU16(s) else None
    ensures s != [] && AllDigits(s) ==> ParseU16(s) == if ParseDecimal(s) <= 0xFFFF then Some(ParseDecimal(s)) else None
    ensures s == [] || (s[0] != '+' && !AllDigits(s)) ==> ParseU16(s) == None
  {
    var signed := ['+'] + s;
    assert signed[1..] == s;
    assert s != [] && AllDigits(s) ==> s[0] in s;
    assert '+' in signed;
  }

  function PortOf(addr: Bytes): Option<nat> { ParseU16(Chars(LastPart(addr))) }

  function Endpoint(host: Bytes, port: nat): Bytes { host + [COLON] + Ascii(Decimal(port, 0)) }

  lemma {:induction false} LastPartAfterColon(host: Bytes, tail: Bytes)
    requires COLON !in tail
    ensures LastPart(host + [COLON] + tail) == tail
  {
    var addr := host + [COLON] + tail;
    if tail != [] {
      var n := |tail| - 1;
      LastPartAfterColon(host, tail[..n]);
      assert addr[..|addr| - 1] == host + [COLON] + tail[..n];
      assert tail[n] in tail;
    }
  }

  lemma AsciiOfDigits(s: string)
    requires AllDigits(s)
    ensures COLON !in Ascii(s) && Chars(Ascii(s)) == s
  {
    forall i | 0 <= i < |s| ensures Ascii(s)[i] != COLON && Chars(Ascii(s))[i] == s[i] {
      assert s[i] in s;
    }
  }

  /** The port comes back from `host:port`, whatever the host is, if and only if it has 16 bits. */
  lemma PortOfEndpoint(host: Bytes, port: nat)
    ensures PortOf(Endpoint(host, port)) == if port <= U16_MAX then Some(port) else None
  {
    var digits := Decimal(port, 0);
    AsciiOfDigits(digits);
    LastPartAfterColon(host, Ascii(digits));
    assert digits[0] in digits;
    ParseOfDecimal(port, 0);
  }

  // ---------- payloads of OPEN, OPENED_FAIL and DATAGRAM ----------

  datatype OpenInfo = OpenInfo(proto: u8, addr: Bytes)

  /** The length byte keeps only the low eight bits of the length. */
  function BuildOpen(proto: u8, addr: Bytes): Bytes { [proto, |addr| % 256] + addr }

  function ParseOpen(payload: Bytes): Option<OpenInfo> {
    if |payload| < 3 then None
    else if payload[0] != PROTO_TCP && payload[0] != PROTO_UDP then None
    else if |payload| - 2 != payload[1] then None
    else if !Utf8(payload[2..]) || COLON !in payload[2..] then None
    else Some(OpenInfo(payload[0], payload[2..]))
  }

  function BuildOpenedFail(reason: Bytes): Bytes {
    var n := if |reason| < REASON_MAX then |reason| else REASON_MAX;
    [n] + reason[..n]
  }

  datatype DatagramInfo = DatagramInfo(addr: Bytes, data: Bytes)

  function BuildDatagram(addr: Bytes, data: Bytes): Bytes { [|addr| % 256] + addr + data }

  function ParseDatagram(payload: Bytes): Option<DatagramInfo> {
    if payload == [] || |payload| - 1 < payload[0] then None
    else
      var size: nat := payload[0];
      var end := size + 1;
      var addr := payload[1..end];
      if !Utf8(addr) || COLON !in addr then None
      else Some(DatagramInfo(addr, payload[end..]))
  }

  /** Protocol, length and address; length, address and data. */
  lemma PayloadLayouts(proto: u8, addr: Bytes, data: Bytes)
    ensures var open, datagram := BuildOpen(proto, addr), BuildDatagram(addr, data);
            && open[0] == proto && open[1] == |addr| % 256 && open[2..] == addr
            && datagram[0] == |addr| % 256 && datagram[1..] == addr + data
  {
  }

  /** An OPEN is understood exactly if its protocol is known and its address has a colon and at most 255 bytes. */
  lemma ParseOfOpen(proto: u8, addr: Bytes)
    requires Utf8(addr)
    ensures ParseOpen(BuildOpen(proto, addr)) ==
            if (proto == PROTO_TCP || proto == PROTO_UDP) && COLON in addr && |addr| <= 255
            then Some(OpenInfo(proto, addr)) else None
  {
    var payload := BuildOpen(proto, addr);
    assert payload[2..] == addr;
    if addr == [] { assert COLON !in addr; }
  }

  lemma OpenOfParse(payload: Bytes)
    requires ParseOpen(payload).Some?
    ensures BuildOpen(ParseOpen(payload).value.proto, ParseOpen(payload).value.addr) == payload
  {
  }

  /** A longer address is cut elsewhere, so that the datagram never comes back as it was. */
  lemma ParseOfDatagram(addr: Bytes, data: Bytes)
    requires Utf8(addr)
    ensures ParseDatagram(BuildDatagram(addr, data)) == Some(DatagramInfo(addr, data))
            <==> COLON in addr && |addr| <= 255
  {
    var payload := BuildDatagram(addr, data);
    var size: nat := payload[0];
    var end := size + 1;
    if |addr| <= 255 {
      assert payload[1..end] == addr && payload[end..] == data;
    }
  }
}
