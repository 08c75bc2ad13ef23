/** The 64-byte test packet of the mirror, its line form in hexadecimal, and the
    receiver that puts a report together from several packets. */
module MirrorPacket {
  import opened Options
  import opened Bits
  import opened ByteBuffers
  import opened Checksum

  const VERSION: Byte := 1
  const PACKET_LEN: nat := 64
  const BODY_LEN: nat := 62
  const PAYLOAD_MAX: nat := 47

  datatype Packet = Packet(
    version: Byte,
    opcode: Byte,
    sequence: U32,
    transfer: U32,
    offset: U32,
    payloadLen: Byte,
    padded: seq<Byte>)

  datatype PacketError = InvalidLength | UnsupportedVersion | PayloadTooLarge | InvalidPayloadLength | InvalidHex | CrcMismatch

  datatype Result<+T> = Success(value: T) | Failure(error: PacketError)

  predicate ZerosFrom(b: seq<Byte>, n: nat) {
    forall i :: n <= i < |b| ==> b[i] == 0
  }

  /** A version-1 packet whose payload is padded with zeros. */
  predicate WellFormed(p: Packet) {
    p.version == VERSION && Shaped(p) && p.payloadLen <= PAYLOAD_MAX && ZerosFrom(p.padded, p.payloadLen)
  }

  predicate Shaped(p: Packet) {
    |p.padded| == PAYLOAD_MAX
  }

  function Payload(p: Packet): seq<Byte>
    requires WellFormed(p)
  {
    p.padded[..p.payloadLen]
  }

  function Make(opcode: Byte, sequence: U32, transfer: U32, offset: U32, payload: seq<Byte>): (r: Result<Packet>)
    ensures r.Success? <==> |payload| <= PAYLOAD_MAX
    ensures r.Success? ==> WellFormed(r.value) && Payload(r.value) == payload
  {
    if |payload| > PAYLOAD_MAX then Failure(PayloadTooLarge)
    else
      var padded := payload + Nulls(PAYLOAD_MAX - |payload|);
      assert padded[..|payload|] == payload;
      Success(Packet(VERSION, opcode, sequence, transfer, offset, |payload|, padded))
  }

  // -------------------------------------------------------------------- codec

  function Body(p: Packet): (b: seq<Byte>)
    requires Shaped(p)
    ensures |b| == BODY_LEN
  {
    [p.version, p.opcode] + U32Bytes(p.sequence) + U32Bytes(p.transfer) + U32Bytes(p.offset) + [p.payloadLen] + p.padded
  }

  function Fields(b: seq<Byte>): (p: Packet)
    requires |b| == BODY_LEN
    ensures Shaped(p)
  {
    Packet(b[0], b[1], ReadU32(b[2..6]), ReadU32(b[6..10]), ReadU32(b[10..14]), b[14], b[15..62])
  }

  function Encode(p: Packet): (b: seq<Byte>)
    requires Shaped(p)
    ensures |b| == PACKET_LEN
  {
    Body(p) + U16Bytes(Crc16CcittFalse(Body(p)))
  }

  /** The two bytes after the body are its checksum. */
  predicate Sealed(body: seq<Byte>, seal: seq<Byte>)
    requires |seal| == 2
  {
    ReadU16(seal) == Crc16CcittFalse(body)
  }

  function Decode(bytes: seq<Byte>): (r: Result<Packet>)
    ensures r.Success? ==> WellFormed(r.value)
  {
    if |bytes| != PACKET_LEN then Failure(InvalidLength)
    else if bytes[0] != VERSION then Failure(UnsupportedVersion)
    else if !Sealed(bytes[..BODY_LEN], bytes[BODY_LEN..]) then Failure(CrcMismatch)
    else
      var p := Fields(bytes[..BODY_LEN]);
      if p.payloadLen > PAYLOAD_MAX || !ZerosFrom(p.padded, p.payloadLen) then Failure(InvalidPayloadLength)
      else Success(p)
  }

  lemma FieldsOfBody(p: Packet)
    requires Shaped(p)
    ensures Fields(Body(p)) == p
  {
    var b := Body(p);
    assert b[2..6] == U32Bytes(p.sequence);
    assert b[6..10] == U32Bytes(p.transfer);
    assert b[10..14] == U32Bytes(p.offset);
    assert b[15..62] == p.padded;
    U32RoundTrip(p.sequence, b[2..6]);
    U32RoundTrip(p.transfer, b[6..10]);
    U32RoundTrip(p.offset, b[10..14]);
  }

  /** Where each field of a packet lies; numbers are little-endian. */
  lemma PacketFields(p: Packet)
    requires Shaped(p)
    ensures var b := Encode(p);
      && b[0] == p.version && b[1] == p.opcode
      && Little(b[2..6]) == p.sequence && Little(b[6..10]) == p.transfer && Little(b[10..14]) == p.offset
      && b[14] == p.payloadLen && b[15..62] == p.padded && Little(b[62..64]) == Crc16CcittFalse(b[..62])
  {
    BodyParts([p.version, p.opcode], U32Bytes(p.sequence), U32Bytes(p.transfer), U32Bytes(p.offset), [p.payloadLen],
              p.padded, Body(p));
    Little32(p.sequence);
    Little32(p.transfer);
    Little32(p.offset);
    Little16(Crc16CcittFalse(Body(p)));
    SealedParts(Body(p), U16Bytes(Crc16CcittFalse(Body(p))), Encode(p));
  }

  lemma SealedParts(body: seq<Byte>, seal: seq<Byte>, b: seq<Byte>)
    requires |body| == 62 && |seal| == 2 && b == body + seal
    ensures b[..62] == body && b[62..64] == seal && b[0] == body[0] && b[1] == body[1] && b[14] == body[14]
    ensures b[2..6] == body[2..6] && b[6..10] == body[6..10] && b[10..14] == body[10..14] && b[15..62] == body[15..62]
  {
  }

  lemma BodyParts(head: seq<Byte>, sequence: seq<Byte>, transfer: seq<Byte>, offset: seq<Byte>, len: seq<Byte>,
                  padded: seq<Byte>, b: seq<Byte>)
    requires |head| == 2 && |sequence| == 4 && |transfer| == 4 && |offset| == 4 && |len| == 1 && |padded| == 47
    requires b == head + sequence + transfer + offset + len + padded
    ensures b[0] == head[0] && b[1] == head[1] && b[2..6] == sequence && b[6..10] == transfer && b[10..14] == offset
    ensures b[14] == len[0] && b[15..62] == padded
  {
  }

  lemma BodyOfFields(b: seq<Byte>)
    requires |b| == BODY_LEN
    ensures Body(Fields(b)) == b
  {
    U32RoundTrip(0, b[2..6]);
    U32RoundTrip(0, b[6..10]);
    U32RoundTrip(0, b[10..14]);
    Pieces(b);
  }

  lemma Pieces(b: seq<Byte>)
    requires |b| == BODY_LEN
    ensures [b[0], b[1]] + b[2..6] + b[6..10] + b[10..14] + [b[14]] + b[15..62] == b
  {
  }

  lemma SealOf(body: seq<Byte>, seal: seq<Byte>)
    requires |seal| == 2
    ensures Sealed(body, seal) <==> seal == U16Bytes(Crc16CcittFalse(body))
  {
    U16RoundTrip(Crc16CcittFalse(body), seal);
  }

  /** Decoding gives back every well-formed packet. */
  lemma DecodeOfEncode(p: Packet)
    requires WellFormed(p)
    ensures Decode(Encode(p)) == Success(p)
  {
    var b := Encode(p);
    var body, seal := b[..BODY_LEN], b[BODY_LEN..];
    assert body == Body(p) && seal == U16Bytes(Crc16CcittFalse(Body(p)));
    SealOf(body, seal);
    FieldsOfBody(p);
  }

  /** Every accepted string is the encoding of the packet it decodes to. */
  lemma EncodeOfDecode(bytes: seq<Byte>)
    requires Decode(bytes).Success?
    ensures Encode(Decode(bytes).value) == bytes
  {
    var body, seal := bytes[..BODY_LEN], bytes[BODY_LEN..];
    BodyOfFields(body);
    SealOf(body, seal);
    Rejoin(bytes);
  }

  lemma Rejoin(bytes: seq<Byte>)
    requires |bytes| == PACKET_LEN
    ensures bytes[..BODY_LEN] + bytes[BODY_LEN..] == bytes
  {
  }

  /** Exactly the encodings of well-formed packets are accepted. */
  lemma AcceptedExactly(bytes: seq<Byte>)
    ensures Decode(bytes).Success? <==> exists p :: WellFormed(p) && Encode(p) == bytes
  {
    if Decode(bytes).Success? {
      EncodeOfDecode(bytes);
    }
    if p :| WellFormed(p) && Encode(p) == bytes {
      DecodeOfEncode(p);
    }
  }

  lemma SplitAt(b: seq<Byte>, i: nat, x: Byte)
    requires i < |b|
    ensures b[..i] + ([b[i]] + b[i + 1..]) == b
    ensures b[..i] + ([x] + b[i + 1..]) == b[i := x]
  {
  }

  lemma BodyChangeSeen(body: seq<Byte>, seal: seq<Byte>, i: nat, x: Byte)
    requires |seal| == 2 && Sealed(body, seal) && i < |body| && x != body[i]
    ensures !Sealed(body[i := x], seal)
  {
    SplitAt(body, i, x);
    Differ(body[i], x);
    Crc16SeesBurst(body[..i], [body[i]], [x], body[i + 1..]);
  }

  lemma Differ(x: Byte, y: Byte)
    requires x != y
    ensures [x] != [y]
  {
    assert [x][0] != [y][0];
  }

  lemma SealChangeSeen(body: seq<Byte>, seal: seq<Byte>, other: seq<Byte>)
    requires |seal| == 2 && |other| == 2 && Sealed(body, seal) && other != seal
    ensures !Sealed(body, other)
  {
    SealOf(body, seal);
    SealOf(body, other);
  }

  /** A change lies in the body or in the seal. */
  lemma ChangedParts(bytes: seq<Byte>, i: nat, x: Byte)
    requires |bytes| == PACKET_LEN && i < PACKET_LEN && x != bytes[i]
    ensures var changed := bytes[i := x];
      if i < BODY_LEN
      then changed[..BODY_LEN] == bytes[..BODY_LEN][i := x] && changed[BODY_LEN..] == bytes[BODY_LEN..]
      else changed[..BODY_LEN] == bytes[..BODY_LEN] && changed[BODY_LEN..] != bytes[BODY_LEN..]
  {
    var changed := bytes[i := x];
    if i >= BODY_LEN {
      assert changed[BODY_LEN..][i - BODY_LEN] == x && bytes[BODY_LEN..][i - BODY_LEN] == bytes[i];
    }
  }

  lemma UnsealedFails(bytes: seq<Byte>)
    requires |bytes| == PACKET_LEN
    ensures Decode(bytes).Success? ==> SealHolds(bytes)
  {
  }

  predicate SealHolds(bytes: seq<Byte>)
    requires |bytes| == PACKET_LEN
  {
    Sealed(bytes[..BODY_LEN], bytes[BODY_LEN..])
  }

  lemma SealLost(bytes: seq<Byte>, i: nat, x: Byte)
    requires |bytes| == PACKET_LEN && SealHolds(bytes) && i < PACKET_LEN && x != bytes[i]
    ensures !SealHolds(bytes[i := x])
  {
    ChangedParts(bytes, i, x);
    if i < BODY_LEN {
      BodyChangeSeen(bytes[..BODY_LEN], bytes[BODY_LEN..], i, x);
    } else {
      SealChangeSeen(bytes[..BODY_LEN], bytes[BODY_LEN..], bytes[i := x][BODY_LEN..]);
    }
  }

  /** Any change of one byte of an accepted string is rejected. */
  lemma SingleByteRejected(bytes: seq<Byte>, i: nat, x: Byte)
    requires Decode(bytes).Success? && i < PACKET_LEN && x != bytes[i]
    ensures Decode(bytes[i := x]).Failure?
  {
    UnsealedFails(bytes);
    UnsealedFails(bytes[i := x]);
    SealLost(bytes, i, x);
  }

  // --------------------------------------------------------------- line form

  const PREFIX: seq<Byte> := [64, 72, 73, 68, 83, 72, 73, 70, 84, 45, 77, 73, 82, 82, 79, 82, 58]
  const LINE_LEN: nat := 145

  function HexDigit(v: Byte): (r: Byte)
    requires v < 16
  {
    if v < 10 then 48 + v else 65 + v - 10
  }

  function HexValue(c: Byte): (r: Option<Byte>)
    ensures r.Some? ==> r.value < 16
  {
    if 48 <= c <= 57 then Some(c - 48)
    else if 97 <= c <= 102 then Some(c - 97 + 10)
    else if 65 <= c <= 70 then Some(c - 65 + 10)
    else None
  }

  function Hex(b: seq<Byte>): (r: seq<Byte>)
    ensures |r| == 2 * |b|
  {
    if b == [] then [] else [HexDigit(b[0] / 16), HexDigit(b[0] % 16)] + Hex(b[1..])
  }

  function Unhex(h: seq<Byte>): (r: Option<seq<Byte>>)
    requires |h| % 2 == 0
    ensures r.Some? ==> 2 * |r.value| == |h|
  {
    if h == [] then Some([])
    else
      var rest := Unhex(h[2..]);
      if HexValue(h[0]).None? || HexValue(h[1]).None? || rest.None? then None
      else Some([16 * HexValue(h[0]).value + HexValue(h[1]).value] + rest.value)
  }

  function Upper(c: Byte): Byte {
    if 97 <= c <= 102 then c - 32 else c
  }

  function AllUpper(h: seq<Byte>): (r: seq<Byte>)
    ensures |r| == |h| && forall i :: 0 <= i < |h| ==> r[i] == Upper(h[i])
  {
    seq(|h|, i requires 0 <= i < |h| => Upper(h[i]))
  }

  lemma ValueOfDigit(v: Byte)
    requires v < 16
    ensures HexValue(HexDigit(v)) == Some(v)
  {
  }

  lemma {:induction false} UnhexOfHex(b: seq<Byte>)
    ensures Unhex(Hex(b)) == Some(b)
  {
    if b != [] {
      var h := Hex(b);
      assert h[0] == HexDigit(b[0] / 16) && h[1] == HexDigit(b[0] % 16) && h[2..] == Hex(b[1..]);
      UnhexOfHex(b[1..]);
      ValueOfDigit(b[0] / 16);
      ValueOfDigit(b[0] % 16);
      assert Unhex(h) == Some([b[0]] + b[1..]);
      assert [b[0]] + b[1..] == b;
    }
  }

  lemma DigitOfValue(c: Byte)
    requires HexValue(c).Some?
    ensures HexDigit(HexValue(c).value) == Upper(c)
  {
  }

  /** The first two digits make the first byte. */
  lemma UnhexFirst(h: seq<Byte>)
    requires |h| % 2 == 0 && h != [] && Unhex(h).Some?
    ensures HexValue(h[0]).Some? && HexValue(h[1]).Some? && Unhex(h[2..]).Some?
    ensures Unhex(h).value == [16 * HexValue(h[0]).value + HexValue(h[1]).value] + Unhex(h[2..]).value
  {
  }

  lemma HexFirst(x: Byte, rest: seq<Byte>)
    ensures Hex([x] + rest) == [HexDigit(x / 16), HexDigit(x % 16)] + Hex(rest)
  {
    assert ([x] + rest)[1..] == rest;
  }

  lemma UpperFirst(h: seq<Byte>)
    requires |h| >= 2
    ensures AllUpper(h) == [Upper(h[0]), Upper(h[1])] + AllUpper(h[2..])
  {
  }

  lemma {:induction false} HexOfUnhex(h: seq<Byte>)
    requires |h| % 2 == 0 && Unhex(h).Some?
    ensures Hex(Unhex(h).value) == AllUpper(h)
    decreases |h|
  {
    if h != [] {
      UnhexFirst(h);
      HexOfUnhex(h[2..]);
      var hi, lo := HexValue(h[0]).value, HexValue(h[1]).value;
      HexFirst(16 * hi + lo, Unhex(h[2..]).value);
      Nibbles(hi, lo);
      DigitOfValue(h[0]);
      DigitOfValue(h[1]);
      UpperFirst(h);
    }
  }

  lemma Nibbles(hi: Byte, lo: Byte)
    requires hi < 16 && lo < 16
    ensures (16 * hi + lo) / 16 == hi && (16 * hi + lo) % 16 == lo
  {
  }

  function EncodeLine(p: Packet): (r: seq<Byte>)
    requires Shaped(p)
    ensures |r| == LINE_LEN
  {
    PREFIX + Hex(Encode(p))
  }

  predicate Framed(line: seq<Byte>) {
    |line| == LINE_LEN && line[..17] == PREFIX
  }

  function DecodeDigits(hex: seq<Byte>): Result<Packet>
    requires |hex| == 128
  {
    var bytes := Unhex(hex);
    if bytes.None? then Failure(InvalidHex) else Decode(bytes.value)
  }

  function DecodeLine(line: seq<Byte>): Result<Packet> {
    if !Framed(line) then Failure(InvalidLength) else DecodeDigits(line[17..])
  }

  lemma LineRoundTrip(p: Packet)
    requires WellFormed(p)
    ensures DecodeLine(EncodeLine(p)) == Success(p)
  {
    var line := EncodeLine(p);
    assert line[..17] == PREFIX && line[17..] == Hex(Encode(p));
    UnhexOfHex(Encode(p));
    DecodeOfEncode(p);
  }

  /** An accepted line is the encoded one, up to the case of its digits. */
  lemma LineIsEncoding(line: seq<Byte>)
    requires DecodeLine(line).Success?
    ensures WellFormed(DecodeLine(line).value) && PREFIX + AllUpper(line[17..]) == EncodeLine(DecodeLine(line).value)
  {
    DigitsAreEncoding(line[17..]);
  }

  lemma DigitsAreEncoding(hex: seq<Byte>)
    requires |hex| == 128 && DecodeDigits(hex).Success?
    ensures WellFormed(DecodeDigits(hex).value) && EncodeLine(DecodeDigits(hex).value) == PREFIX + AllUpper(hex)
  {
    HexOfUnhex(hex);
    EncodedHex(Unhex(hex).value);
  }

  lemma EncodedHex(bytes: seq<Byte>)
    requires Decode(bytes).Success?
    ensures EncodeLine(Decode(bytes).value) == PREFIX + Hex(bytes)
  {
    EncodeOfDecode(bytes);
  }

  // ------------------------------------------------------------------ methods

  method EncodePacket(p: Packet) returns (bytes: array<Byte>)
    requires Shaped(p)
    ensures fresh(bytes) && bytes[..] == Encode(p)
  {
    bytes := new Byte[64](_ => 0);
    var body := Body(p);
    var crc := ComputeCrc16CcittFalse(body);
    CopyInto(bytes, 0, body);
    assert bytes[..62] == body;
    CopyInto(bytes, 62, U16Bytes(crc));
  }

  /** The digits from `index` on complete the bytes read so far. */
  ghost predicate ReadSoFar(hex: seq<Byte>, bytes: seq<Byte>, index: nat)
    requires |hex| == 128 && index <= 64
  {
    var rest := Unhex(hex[2 * index..]);
    Unhex(hex) == if rest.None? then None else Some(bytes + rest.value)
  }

  lemma ReadStep(hex: seq<Byte>, bytes: seq<Byte>, index: nat)
    requires |hex| == 128 && index < 64 && ReadSoFar(hex, bytes, index)
    ensures var high, low := HexValue(hex[index * 2]), HexValue(hex[index * 2 + 1]);
      if high.None? || low.None? then Unhex(hex).None?
      else ReadSoFar(hex, bytes + [16 * high.value + low.value], index + 1)
  {
    var high, low := HexValue(hex[index * 2]), HexValue(hex[index * 2 + 1]);
    var here := hex[2 * index..];
    var rest := Unhex(hex[2 * (index + 1)..]);
    assert here[2..] == hex[2 * (index + 1)..] && here[0] == hex[index * 2] && here[1] == hex[index * 2 + 1];
    if high.Some? && low.Some? && rest.Some? {
      var b := 16 * high.value + low.value;
      assert bytes + ([b] + rest.value) == (bytes + [b]) + rest.value;
    }
  }

  method DecodeHexLine(line: seq<Byte>) returns (r: Result<Packet>)
    ensures r == DecodeLine(line)
  {
    if !Framed(line) {
      return Failure(InvalidLength);
    }
    var bytes := DecodeHexDigits(line[17..]);
    if bytes.None? {
      return Failure(InvalidHex);
    }
    r := Decode(bytes.value);
  }

  method DecodeHexDigits(hex: seq<Byte>) returns (r: Option<seq<Byte>>)
    requires |hex| == 128
    ensures r == Unhex(hex)
  {
    var bytes: seq<Byte> := [];
    var index := 0;
    assert hex[2 * index..] == hex;
    assert Unhex(hex).Some? ==> [] + Unhex(hex).value == Unhex(hex).value;
    while index < 64
      invariant 0 <= index <= 64 && |bytes| == index
      invariant ReadSoFar(hex, bytes, index)
    {
      var high, low := HexValue(hex[index * 2]), HexValue(hex[index * 2 + 1]);
      ReadStep(hex, bytes, index);
      if high.None? || low.None? {
        return None;
      }
      bytes := bytes + [16 * high.value + low.value];
      index := index + 1;
    }
    assert hex[2 * index..] == [];
    assert bytes + [] == bytes;
    r := Some(bytes);
  }

  // ---------------------------------------------------------------- receiver

  const REPORT_MAX: nat := 64

  datatype ReceiveError = InvalidEndpoint | InvalidTotalLength | InvalidOffset | TransferMismatch

  datatype Received =
    | Rejected(error: ReceiveError)
    | Partial
    | Report(endpoint: Byte, data: seq<Byte>)

  /** The endpoint and length of the transfer; `data` is what has arrived. */
  datatype Receiver = Receiver(endpoint: Byte, total: Byte, data: seq<Byte>)

  function Endpoint(p: Packet): Byte {
    p.transfer % 256
  }

  function Total(p: Packet): Byte {
    p.transfer / 256 % 256
  }

  predicate EndpointOk(p: Packet) {
    p.transfer < 0x1_0000 && Endpoint(p) >= 128
  }

  predicate TotalOk(p: Packet) {
    0 < Total(p) <= REPORT_MAX
  }

  /** A packet with offset 0 starts anew, even if it is rejected later on. */
  function Started(r: Receiver, p: Packet): Receiver {
    if p.offset == 0 then Receiver(Endpoint(p), Total(p), []) else r
  }

  predicate Fits(r: Receiver, p: Packet)
    requires WellFormed(p)
  {
    p.offset == |r.data| && |r.data| + |Payload(p)| <= Total(p)
  }

  function Push(r: Receiver, p: Packet): (Receiver, Received)
    requires WellFormed(p)
  {
    if !EndpointOk(p) then (r, Rejected(InvalidEndpoint))
    else if !TotalOk(p) then (r, Rejected(InvalidTotalLength))
    else if p.offset != 0 && (Endpoint(p) != r.endpoint || Total(p) != r.total) then (r, Rejected(TransferMismatch))
    else
      var r1 := Started(r, p);
      if !Fits(r1, p) then (r1, Rejected(InvalidOffset))
      else
        var data := r1.data + Payload(p);
        if |data| != Total(p) then (r1.(data := data), Partial)
        else (r1.(data := []), Report(Endpoint(p), data))
  }

  const EMPTY_RECEIVER := Receiver(0, 0, [])

  function Run(ps: seq<Packet>): Receiver
    requires forall i :: 0 <= i < |ps| ==> WellFormed(ps[i])
  {
    if ps == [] then EMPTY_RECEIVER else Push(Run(ps[..|ps| - 1]), ps[|ps| - 1]).0
  }

  /** The answer to the last packet. */
  function Answer(ps: seq<Packet>): Received
    requires ps != [] && forall i :: 0 <= i < |ps| ==> WellFormed(ps[i])
  {
    Push(Run(ps[..|ps| - 1]), ps[|ps| - 1]).1
  }

  predicate Starts(p: Packet) {
    EndpointOk(p) && TotalOk(p) && p.offset == 0
  }

  /** The payloads accepted since the last packet that starts a transfer. */
  function AcceptedSince(ps: seq<Packet>): seq<Byte>
    requires forall i :: 0 <= i < |ps| ==> WellFormed(ps[i])
  {
    if ps == [] then []
    else
      var last := ps[|ps| - 1];
      var before := if Starts(last) then [] else AcceptedSince(ps[..|ps| - 1]);
      if Answer(ps).Rejected? then before else before + Payload(last)
  }

  /** What is in the buffer was accepted since the start of the transfer; an empty
      buffer takes only a packet that starts one. */
  lemma {:induction false} BufferIsAccepted(ps: seq<Packet>)
    requires forall i :: 0 <= i < |ps| ==> WellFormed(ps[i])
    ensures Run(ps).data == [] || Run(ps).data == AcceptedSince(ps)
    decreases |ps|
  {
    if ps != [] {
      BufferIsAccepted(ps[..|ps| - 1]);
    }
  }

  /** Whatever was rejected in between, a report is made of the payloads accepted
      since the last start, and it has the announced endpoint and length. */
  lemma ReportIsAccepted(ps: seq<Packet>)
    requires ps != [] && forall i :: 0 <= i < |ps| ==> WellFormed(ps[i])
    requires Answer(ps).Report?
    ensures Answer(ps).data == AcceptedSince(ps)
    ensures |Answer(ps).data| == Total(ps[|ps| - 1]) && Answer(ps).endpoint == Endpoint(ps[|ps| - 1])
  {
    var before, last := ps[..|ps| - 1], ps[|ps| - 1];
    BufferIsAccepted(before);
    assert [] + Payload(last) == Payload(last);
  }

  /** The packets carry `data` in order, from position `from` on, to an endpoint. */
  ghost predicate Carry(ps: seq<Packet>, endpoint: Byte, data: seq<Byte>, from: nat)
    decreases |ps|
  {
    if ps == [] then from == |data|
    else
      var p := ps[0];
      && WellFormed(p) && p.transfer == endpoint + 256 * |data| && p.offset == from
      && Payload(p) != [] && from + |Payload(p)| <= |data| && Payload(p) == data[from..from + |Payload(p)|]
      && Carry(ps[1..], endpoint, data, from + |Payload(p)|)
  }

  ghost function PushAll(r: Receiver, ps: seq<Packet>): (answers: seq<Received>)
    requires forall i :: 0 <= i < |ps| ==> WellFormed(ps[i])
    ensures |answers| == |ps|
    decreases |ps|
  {
    if ps == [] then []
    else
      var (r1, answer) := Push(r, ps[0]);
      [answer] + PushAll(r1, ps[1..])
  }

  lemma {:induction false} CarryIsWellFormed(ps: seq<Packet>, endpoint: Byte, data: seq<Byte>, from: nat)
    requires Carry(ps, endpoint, data, from)
    ensures forall i :: 0 <= i < |ps| ==> WellFormed(ps[i])
    decreases |ps|
  {
    if ps != [] {
      CarryIsWellFormed(ps[1..], endpoint, data, from + |Payload(ps[0])|);
    }
  }

  lemma {:induction false} RestArrives(r: Receiver, ps: seq<Packet>, endpoint: Byte, data: seq<Byte>, from: nat)
    requires endpoint >= 128 && 0 < |data| <= REPORT_MAX && from < |data| && Carry(ps, endpoint, data, from)
    requires from > 0 ==> r == Receiver(endpoint, |data|, data[..from])
    ensures forall i :: 0 <= i < |ps| ==> WellFormed(ps[i])
    ensures ps != []
    ensures var answers := PushAll(r, ps);
      && answers[|ps| - 1] == Report(endpoint, data)
      && forall i :: 0 <= i < |ps| - 1 ==> answers[i] == Partial
    decreases |ps|
  {
    CarryIsWellFormed(ps, endpoint, data, from);
    var p, next := ps[0], from + |Payload(ps[0])|;
    var (r1, answer) := Push(r, p);
    assert Endpoint(p) == endpoint && Total(p) == |data|;
    assert Started(r, p) == Receiver(endpoint, |data|, data[..from]);
    assert data[..from] + Payload(p) == data[..next];
    if next == |data| {
      assert data[..next] == data;
      assert ps[1..] == [] by { CarryEnds(ps[1..], endpoint, data); }
    } else {
      RestArrives(r1, ps[1..], endpoint, data, next);
    }
  }

  lemma CarryEnds(ps: seq<Packet>, endpoint: Byte, data: seq<Byte>)
    requires Carry(ps, endpoint, data, |data|)
    ensures ps == []
  {
  }

  /** A report that is sent in order, in packets of any sizes, arrives: whatever the
      receiver was doing, every packet but the last is taken, and the last completes it. */
  lemma TransferArrives(r: Receiver, ps: seq<Packet>, endpoint: Byte, data: seq<Byte>)
    requires endpoint >= 128 && 0 < |data| <= REPORT_MAX && Carry(ps, endpoint, data, 0)
    ensures (forall i :: 0 <= i < |ps| ==> WellFormed(ps[i])) && ps != []
    ensures var answers := PushAll(r, ps);
      && answers[|ps| - 1] == Report(endpoint, data)
      && forall i :: 0 <= i < |ps| - 1 ==> answers[i] == Partial
  {
    RestArrives(r, ps, endpoint, data, 0);
  }

  /** The receiver's fixed buffer, filled in place. */
  class RawInjectionReceiver {
    var endpoint: Byte
    var total: Byte
    var received: nat
    const buffer: array<Byte>

    ghost predicate Valid()
      reads this, buffer
    {
      buffer.Length == 64 && received <= total && total <= 64
    }

    ghost function Value(): Receiver
      requires Valid()
      reads this, buffer
    {
      Receiver(endpoint, total, buffer[..received])
    }

    constructor ()
      ensures Valid() && Value() == EMPTY_RECEIVER && fresh(buffer)
    {
      endpoint, total, received := 0, 0, 0;
      buffer := new Byte[64](_ => 0);
    }

    method Accept(p: Packet) returns (r: Received)
      requires Valid() && WellFormed(p)
      modifies this, buffer
      ensures Valid() && (Value(), r) == Push(old(Value()), p)
    {
      var address, length := Endpoint(p), Total(p);
      if p.transfer >= 0x1_0000 || address < 128 {
        return Rejected(InvalidEndpoint);
      }
      if length == 0 || length > 64 {
        return Rejected(InvalidTotalLength);
      }
      if p.offset == 0 {
        endpoint, total, received := address, length, 0;
      } else if address != endpoint || length != total {
        return Rejected(TransferMismatch);
      }
      assert buffer[..received] == Started(old(Value()), p).data;
      r := Append(p, address, length);
    }

    method Append(p: Packet, address: Byte, length: Byte) returns (r: Received)
      requires Valid() && WellFormed(p) && address == Endpoint(p) == endpoint && length == Total(p) == total
      modifies this, buffer
      ensures Valid() && endpoint == old(endpoint) && total == old(total)
      ensures var v := old(Value());
        var data := v.data + Payload(p);
        if !Fits(v, p) then r == Rejected(InvalidOffset) && Value() == v
        else if |data| != length then r == Partial && Value() == v.(data := data)
        else r == Report(address, data) && Value() == v.(data := [])
    {
      var payload := Payload(p);
      if p.offset != received || received + |payload| > length {
        return Rejected(InvalidOffset);
      }
      CopyInto(buffer, received, payload);
      assert buffer[..received + |payload|] == old(buffer[..received]) + payload;
      received := received + |payload|;
      if received != length {
        return Partial;
      }
      r := Report(address, buffer[..length]);
      received := 0;
    }
  }
}
