/** The wire format of the DPDK client and server: the extra UDP header, and SET and GET requests. */
module Wire {
  import opened Bytes
  import opened BigEndian

  const UDP_HDR: nat := 8
  const REQ_HDR: nat := 24
  const EXTRA_SIZE_FOR_SET: nat := 8
  const MAX_PACKET_SIZE: nat := 1500
  const MAGIC: seq<byte> := [0xaa, 0x33]

  // ----- Headers -----

  function UdpHeader(requestId: uint16, sequenceN: uint16): (h: seq<byte>)
    ensures |h| == UDP_HDR
  {
    Put16(requestId) + Put16(sequenceN) + [0, 1] + MAGIC
  }

  /** request_id and sequence_n. */
  function ParseUdpHeader(h: seq<byte>): (uint16, uint16)
    requires |h| == UDP_HDR
  {
    (Get16(h[..2]), Get16(h[2..4]))
  }

  /** The header of a request whose body has this length. */
  function ReqHeader(opcode: byte, keyLen: uint16, extra: byte, body: uint32): (h: seq<byte>)
    ensures |h| == REQ_HDR
  {
    [0x80, opcode] + Put16(keyLen) + [extra, 0, 0, 0] + Put32(body) + seq(12, _ => 0)
  }

  /** Where a request has its key and its value, counted from the start of the request header. */
  datatype Layout = Layout(key: nat, keyLen: uint16, val: nat, valLen: uint32)

  function ParseSetReqHeader(h: seq<byte>): Layout
    requires |h| == REQ_HDR
  {
    var keyLen := Get16(h[2..4]);
    var extra := h[4];
    var key := REQ_HDR + extra;
    Layout(key, keyLen, key + keyLen, (Get32(h[8..12]) - extra - keyLen) % TWO32)
  }

  function ParseGetReqHeader(h: seq<byte>): Layout
    requires |h| == REQ_HDR
  {
    var key := REQ_HDR + h[4];
    Layout(key, Get16(h[2..4]), key + Get16(h[2..4]), 0)
  }

  lemma {:induction false} ReqHeaderFields(opcode: byte, keyLen: uint16, extra: byte, body: uint32)
    ensures var h := ReqHeader(opcode, keyLen, extra, body);
      h[1] == opcode && Get16(h[2..4]) == keyLen && h[4] == extra && Get32(h[8..12]) == body
  {
    var h := ReqHeader(opcode, keyLen, extra, body);
    assert h[2..4] == Put16(keyLen);
    assert h[8..12] == Put32(body);
    Put16Get16(h[2..4], keyLen);
    Put32Get32(h[8..12], body);
  }

  /** The length fields of a SET survive for all lengths, wrap-around of the body length included. */
  lemma SetLengthsRoundTrip(keyLen: uint16, valLen: uint32)
    ensures var body := (EXTRA_SIZE_FOR_SET + keyLen + valLen) % TWO32;
            ParseSetReqHeader(ReqHeader(1, keyLen, EXTRA_SIZE_FOR_SET, body)) ==
            Layout(REQ_HDR + EXTRA_SIZE_FOR_SET, keyLen, REQ_HDR + EXTRA_SIZE_FOR_SET + keyLen, valLen)
  {
    var body := (EXTRA_SIZE_FOR_SET + keyLen + valLen) % TWO32;
    ReqHeaderFields(1, keyLen, EXTRA_SIZE_FOR_SET, body);
  }

  /** A UDP header is the one that this side forms exactly when it is the only packet of its message and
      carries the magic bytes; its numbers are then the ones that it was formed from. */
  lemma UdpHeaderRoundTrip(h: seq<byte>, requestId: uint16, sequenceN: uint16)
    requires |h| == UDP_HDR
    ensures h == UdpHeader(requestId, sequenceN) <==>
            ParseUdpHeader(h) == (requestId, sequenceN) && h[4..6] == [0, 1] && h[6..] == MAGIC
  {
    Put16Get16(h[..2], requestId);
    Put16Get16(h[2..4], sequenceN);
    assert h == h[..2] + h[2..4] + h[4..6] + h[6..];
  }

  // ----- Packets -----

  function Zeros(n: nat): (z: seq<byte>)
    ensures |z| == n
  {
    seq(n, _ => 0)
  }

  function SetPacket(requestId: uint16, sequenceN: uint16, key: seq<byte>, val: seq<byte>): seq<byte>
    requires |key| < TWO16 && |val| < TWO32
  {
    UdpHeader(requestId, sequenceN)
      + ReqHeader(1, |key|, EXTRA_SIZE_FOR_SET, (EXTRA_SIZE_FOR_SET + |key| + |val|) % TWO32)
      + Zeros(EXTRA_SIZE_FOR_SET) + key + val
  }

  function GetPacket(requestId: uint16, sequenceN: uint16, key: seq<byte>): seq<byte>
    requires |key| < TWO16
  {
    UdpHeader(requestId, sequenceN) + ReqHeader(0, |key|, 0, |key|) + key
  }

  /** What the server takes a packet for.  The places of key and value count from the start of the packet. */
  datatype Request = Unexpected | Other(opcode: byte) | SetReq(at: Layout) | GetReq(at: Layout)

  function Shifted(at: Layout, n: nat): Layout { at.(key := at.key + n, val := at.val + n) }

  function ParseRequest(packet: seq<byte>): Request
    requires |packet| >= UDP_HDR + REQ_HDR
  {
    var h := packet[UDP_HDR..UDP_HDR + REQ_HDR];
    if packet[6..8] != MAGIC then Unexpected
    else if h[1] == 1 then SetReq(Shifted(ParseSetReqHeader(h), UDP_HDR))
    else if h[1] == 0 then GetReq(Shifted(ParseGetReqHeader(h), UDP_HDR))
    else Other(h[1])
  }

  /** The server finds in a SET packet the key and the value that were put in, in adjacent slices the second
      of which ends with the packet. */
  lemma SetRoundTrip(requestId: uint16, sequenceN: uint16, key: seq<byte>, val: seq<byte>)
    requires |key| < TWO16 && |val| < TWO32
    ensures var packet := SetPacket(requestId, sequenceN, key, val);
      && |packet| >= UDP_HDR + REQ_HDR && ParseRequest(packet).SetReq?
      && var at := ParseRequest(packet).at;
      && at.key + at.keyLen == at.val && at.val + at.valLen == |packet|
      && packet[at.key..at.val] == key && packet[at.val..] == val
      && ParseUdpHeader(packet[..UDP_HDR]) == (requestId, sequenceN)
  {
    var packet := SetPacket(requestId, sequenceN, key, val);
    var udp := UdpHeader(requestId, sequenceN);
    var body := (EXTRA_SIZE_FOR_SET + |key| + |val|) % TWO32;
    var h := ReqHeader(1, |key|, EXTRA_SIZE_FOR_SET, body);
    assert packet[..UDP_HDR] == udp && packet[6..8] == udp[6..8];
    assert packet[UDP_HDR..UDP_HDR + REQ_HDR] == h;
    ReqHeaderFields(1, |key|, EXTRA_SIZE_FOR_SET, body);
    SetLengthsRoundTrip(|key|, |val|);
    UdpHeaderRoundTrip(udp, requestId, sequenceN);
  }

  /** The same for a GET packet and its key. */
  lemma GetRoundTrip(requestId: uint16, sequenceN: uint16, key: seq<byte>)
    requires |key| < TWO16
    ensures var packet := GetPacket(requestId, sequenceN, key);
      && |packet| >= UDP_HDR + REQ_HDR && ParseRequest(packet).GetReq?
      && var at := ParseRequest(packet).at;
      && at.key + at.keyLen == |packet| && packet[at.key..] == key
      && ParseUdpHeader(packet[..UDP_HDR]) == (requestId, sequenceN)
  {
    var packet := GetPacket(requestId, sequenceN, key);
    var udp := UdpHeader(requestId, sequenceN);
    assert packet[..UDP_HDR] == udp && packet[6..8] == udp[6..8];
    assert packet[UDP_HDR..UDP_HDR + REQ_HDR] == ReqHeader(0, |key|, 0, |key|);
    ReqHeaderFields(0, |key|, 0, |key|);
    UdpHeaderRoundTrip(udp, requestId, sequenceN);
  }

  // ----- What is on the wire -----

  /** The UDP header byte by byte: two numbers, the count 1, and the magic bytes. */
  lemma UdpHeaderImage(requestId: uint16, sequenceN: uint16)
    ensures var h := UdpHeader(requestId, sequenceN);
      && h[0] as int * 256 + h[1] == requestId && h[2] as int * 256 + h[3] == sequenceN
      && h[4..] == [0, 1, 0xaa, 0x33]
  {
    Put16Get16(Put16(requestId), requestId);
    Put16Get16(Put16(sequenceN), sequenceN);
  }

  /** The request header: magic, opcode, the length of the key, the length of the extras, zeros, the length of the
      body, and zeros. */
  lemma ReqHeaderImage(opcode: byte, keyLen: uint16, extra: byte, body: uint32)
    ensures var h := ReqHeader(opcode, keyLen, extra, body);
      && h[0] == 0x80 && h[1] == opcode && h[2] as int * 256 + h[3] == keyLen && h[4] == extra
      && h[5] == h[6] == h[7] == 0
      && h[8] as int * 0x100_0000 + h[9] as int * 0x1_0000 + h[10] as int * 0x100 + h[11] == body
      && forall i :: 12 <= i < REQ_HDR ==> h[i] == 0
  {
    Put16Get16(Put16(keyLen), keyLen);
    Put32Get32(Put32(body), body);
  }

  /** A SET packet: the headers with opcode 1, 8 bytes of zeros, the key, the value. */
  lemma SetImage(requestId: uint16, sequenceN: uint16, key: seq<byte>, val: seq<byte>)
    requires |key| < TWO16 && |val| < TWO32
    ensures var p := SetPacket(requestId, sequenceN, key, val);
      && |p| == 40 + |key| + |val| && p[..8] == UdpHeader(requestId, sequenceN)
      && p[8..32] == ReqHeader(1, |key|, 8, (8 + |key| + |val|) % TWO32)
      && (forall i :: 32 <= i < 40 ==> p[i] == 0)
      && p[40..40 + |key|] == key && p[40 + |key|..] == val
  {
  }

  /** A GET packet: the headers with opcode 0, and the key. */
  lemma GetImage(requestId: uint16, sequenceN: uint16, key: seq<byte>)
    requires |key| < TWO16
    ensures var p := GetPacket(requestId, sequenceN, key);
      && |p| == 32 + |key| && p[..8] == UdpHeader(requestId, sequenceN)
      && p[8..32] == ReqHeader(0, |key|, 0, |key|) && p[32..] == key
  {
  }

  /** The server goes by the magic bytes and the opcode. */
  lemma RequestKind(packet: seq<byte>)
    requires |packet| >= UDP_HDR + REQ_HDR
    ensures ParseRequest(packet).Unexpected? <==> packet[6] != 0xaa || packet[7] != 0x33
    ensures packet[6] == 0xaa && packet[7] == 0x33 ==>
              && (ParseRequest(packet).GetReq? <==> packet[9] == 0)
              && (ParseRequest(packet).SetReq? <==> packet[9] == 1)
              && (packet[9] > 1 ==> ParseRequest(packet) == Other(packet[9]))
              && (packet[9] <= 1 ==>
                    var at := ParseRequest(packet).at;
                    && at.key == packet[12] as int + 32 && at.keyLen == packet[10] as int * 256 + packet[11] as int
                    && at.val == at.key + at.keyLen)
  {
    assert packet[6..8] == [packet[6], packet[7]];
    var h := packet[UDP_HDR..UDP_HDR + REQ_HDR];
    assert h[1] == packet[9] && h[4] == packet[12] && h[2..4] == [packet[10], packet[11]];
  }

  // ----- Forming packets in place -----

  /** Nothing from position n on has changed. */
  twostate predicate TailKept(buf: array<byte>, n: nat)
    reads buf
  {
    forall i :: n <= i < buf.Length ==> buf[i] == old(buf[i])
  }

  /** memcpy to the place where the packet ends so far. */
  method Append(buf: array<byte>, at: nat, bytes: seq<byte>)
    requires at + |bytes| <= buf.Length
    modifies buf
    ensures buf[..at + |bytes|] == old(buf[..at]) + bytes && TailKept(buf, at + |bytes|)
  {
    for i := 0 to |bytes|
      invariant buf[..at + i] == old(buf[..at]) + bytes[..i] && TailKept(buf, at + i)
    {
      buf[at + i] := bytes[i];
      assert buf[..at + i + 1] == buf[..at + i] + [bytes[i]];
    }
  }

  method HelperFormUdpHeader(buf: array<byte>, requestId: uint16, sequenceN: uint16) returns (size: nat)
    requires buf.Length >= UDP_HDR
    modifies buf
    ensures size == UDP_HDR && buf[..UDP_HDR] == UdpHeader(requestId, sequenceN) && TailKept(buf, UDP_HDR)
  {
    buf[0], buf[1] := requestId / 256 % 256, requestId % 256;
    buf[2], buf[3] := sequenceN / 256 % 256, sequenceN % 256;
    buf[4], buf[5] := 0, 1;
    buf[6], buf[7] := MAGIC[0], MAGIC[1];
    size := UDP_HDR;
  }

  method ClearHeader(buf: array<byte>, at: nat)
    requires at + REQ_HDR <= buf.Length
    modifies buf
    ensures forall i :: at <= i < at + REQ_HDR ==> buf[i] == 0
    ensures buf[..at] == old(buf[..at]) && TailKept(buf, at + REQ_HDR)
  {
    Append(buf, at, Zeros(REQ_HDR));
    assert forall i :: at <= i < at + REQ_HDR ==> buf[i] == (buf[..at + REQ_HDR])[i] == 0;
    assert buf[..at] == buf[..at + REQ_HDR][..at];
  }

  /** Bytes that have been cleared come next. */
  lemma PassZeros(buf: array<byte>, at: nat, n: nat)
    requires at + n <= buf.Length && forall i :: at <= i < at + n ==> buf[i] == 0
    ensures buf[..at + n] == buf[..at] + Zeros(n)
  {
  }

  /** The fields that SET and GET headers have in common, after clearing the header. */
  method FormReqHeader(buf: array<byte>, at: nat, opcode: byte, keyLen: uint16, extra: byte, body: uint32)
    requires at + REQ_HDR <= buf.Length
    modifies buf
    ensures buf[..at + REQ_HDR] == old(buf[..at]) + ReqHeader(opcode, keyLen, extra, body)
    ensures TailKept(buf, at + REQ_HDR)
  {
    ghost var before := buf[..at];
    ClearHeader(buf, at);
    var fields := [0x80, opcode, keyLen / 256 % 256, keyLen % 256, extra];
    var length := [body / 0x100_0000 % 256, body / 0x1_0000 % 256, body / 0x100 % 256, body % 256];
    Append(buf, at, fields);
    PassZeros(buf, at + 5, 3);
    Append(buf, at + 8, length);
    PassZeros(buf, at + 12, 12);
    ReqHeaderIs(before, opcode, keyLen, extra, body, fields, length);
  }

  lemma ReqHeaderIs(before: seq<byte>, opcode: byte, keyLen: uint16, extra: byte, body: uint32,
                    fields: seq<byte>, length: seq<byte>)
    requires fields == [0x80, opcode, keyLen / 256 % 256, keyLen % 256, extra]
    requires length == [body / 0x100_0000 % 256, body / 0x1_0000 % 256, body / 0x100 % 256, body % 256]
    ensures before + fields + Zeros(3) + length + Zeros(12) == before + ReqHeader(opcode, keyLen, extra, body)
  {
    assert fields + Zeros(3) == [0x80, opcode] + Put16(keyLen) + [extra, 0, 0, 0];
    assert length == Put32(body);
    var a, b, c, d, e := before, fields, Zeros(3), length, Zeros(12);
    assert a + b + c + d + e == a + (b + c + d + e);
  }

  method HelperFormSetReqHeader(buf: array<byte>, at: nat, keyLen: uint16, valLen: uint32) returns (size: nat)
    requires at + REQ_HDR <= buf.Length
    modifies buf
    ensures size == REQ_HDR + (EXTRA_SIZE_FOR_SET + keyLen + valLen) % TWO32
    ensures buf[..at + REQ_HDR] == old(buf[..at]) +
            ReqHeader(1, keyLen, EXTRA_SIZE_FOR_SET, (EXTRA_SIZE_FOR_SET + keyLen + valLen) % TWO32)
    ensures TailKept(buf, at + REQ_HDR)
  {
    var totalPayldLength := (EXTRA_SIZE_FOR_SET + keyLen + valLen) % TWO32;
    FormReqHeader(buf, at, 0x01, keyLen, EXTRA_SIZE_FOR_SET, totalPayldLength);
    size := REQ_HDR + totalPayldLength;
  }

  method HelperFormGetReqHeader(buf: array<byte>, at: nat, keyLen: uint16) returns (size: nat)
    requires at + REQ_HDR <= buf.Length
    modifies buf
    ensures size == REQ_HDR + keyLen
    ensures buf[..at + REQ_HDR] == old(buf[..at]) + ReqHeader(0, keyLen, 0, keyLen)
    ensures TailKept(buf, at + REQ_HDR)
  {
    FormReqHeader(buf, at, 0x00, keyLen, 0, keyLen);
    size := REQ_HDR + keyLen;
  }

  /** Both headers, and the size that they announce. */
  method FormSetHeaders(buf: array<byte>, requestId: uint16, sequenceN: uint16, keyLen: uint16, valLen: uint32)
    returns (size: nat)
    requires UDP_HDR + REQ_HDR <= buf.Length
    modifies buf
    ensures var body := (EXTRA_SIZE_FOR_SET + keyLen + valLen) % TWO32;
      && size == UDP_HDR + REQ_HDR + body
      && buf[..UDP_HDR + REQ_HDR] ==
         UdpHeader(requestId, sequenceN) + ReqHeader(1, keyLen, EXTRA_SIZE_FOR_SET, body)
    ensures TailKept(buf, UDP_HDR + REQ_HDR)
  {
    var hSize := HelperFormUdpHeader(buf, requestId, sequenceN);
    var rhSize := HelperFormSetReqHeader(buf, UDP_HDR, keyLen, valLen);
    size := hSize + rhSize;
  }

  lemma LengthWraps(keyLen: uint16, valLen: uint32)
    ensures (UDP_HDR + REQ_HDR + (EXTRA_SIZE_FOR_SET + keyLen + valLen) % TWO32) % TWO32 ==
            (40 + keyLen + valLen) % TWO32
  {
  }

  lemma SetPacketIs(requestId: uint16, sequenceN: uint16, key: seq<byte>, val: seq<byte>, headers: seq<byte>)
    requires |key| < TWO16 && |val| < TWO32
    requires var body := (EXTRA_SIZE_FOR_SET + |key| + |val|) % TWO32;
             headers == UdpHeader(requestId, sequenceN) + ReqHeader(1, |key|, EXTRA_SIZE_FOR_SET, body)
    ensures SetPacket(requestId, sequenceN, key, val) == headers + Zeros(EXTRA_SIZE_FOR_SET) + key + val
    ensures |SetPacket(requestId, sequenceN, key, val)| == 40 + |key| + |val|
  {
  }

  /** Extras, key and value, behind the headers. */
  method FormSetBody(buf: array<byte>, at: nat, key: seq<byte>, val: seq<byte>)
    requires at + EXTRA_SIZE_FOR_SET + |key| + |val| <= buf.Length
    modifies buf
    ensures var end := at + EXTRA_SIZE_FOR_SET + |key| + |val|;
      buf[..end] == old(buf[..at]) + Zeros(EXTRA_SIZE_FOR_SET) + key + val && TailKept(buf, end)
  {
    var end := at;
    Append(buf, end, Zeros(EXTRA_SIZE_FOR_SET));
    end := end + EXTRA_SIZE_FOR_SET;
    Append(buf, end, key);
    end := end + |key|;
    Append(buf, end, val);
  }

  /** Forms a SET packet in a transmit buffer that has room for it.  The size is checked last; -1 says that it
      is too large. */
  method FormSet(buf: array<byte>, requestId: uint16, sequenceN: uint16, key: seq<byte>, val: seq<byte>)
    returns (res: int, length: nat)
    requires |key| < TWO16 && |val| < TWO32
    requires UDP_HDR + REQ_HDR + EXTRA_SIZE_FOR_SET + |key| + |val| <= buf.Length
    modifies buf
    ensures var packet := SetPacket(requestId, sequenceN, key, val);
      |packet| <= buf.Length && buf[..|packet|] == packet && TailKept(buf, |packet|)
    ensures length == |SetPacket(requestId, sequenceN, key, val)| % TWO32
    ensures res == if length > MAX_PACKET_SIZE then -1 else 0
  {
    var size := FormSetHeaders(buf, requestId, sequenceN, |key|, |val|);
    ghost var headers := buf[..UDP_HDR + REQ_HDR];
    SetPacketIs(requestId, sequenceN, key, val, headers);
    FormSetBody(buf, UDP_HDR + REQ_HDR, key, val);
    LengthWraps(|key|, |val|);
    length := size % TWO32;
    res := if length > MAX_PACKET_SIZE then -1 else 0;
  }

  method FormGet(buf: array<byte>, requestId: uint16, sequenceN: uint16, key: seq<byte>)
    returns (res: int, length: nat)
    requires |key| < TWO16 && UDP_HDR + REQ_HDR + |key| <= buf.Length
    modifies buf
    ensures var packet := GetPacket(requestId, sequenceN, key);
      length == |packet| <= buf.Length && buf[..|packet|] == packet && TailKept(buf, |packet|)
    ensures res == if length > MAX_PACKET_SIZE then -1 else 0
  {
    var hSize := HelperFormUdpHeader(buf, requestId, sequenceN);
    var at := UDP_HDR;
    var rhSize := HelperFormGetReqHeader(buf, at, |key|);
    at := at + REQ_HDR;
    Append(buf, at, key);
    length := hSize + rhSize;
    res := if length > MAX_PACKET_SIZE then -1 else 0;
  }

  /** The size check accepts the packets that fit, and those whose length wraps around to one that does. */
  lemma AcceptedIff(requestId: uint16, sequenceN: uint16, key: seq<byte>, val: seq<byte>)
    requires |key| < TWO16 && |val| < TWO32
    ensures var n := |SetPacket(requestId, sequenceN, key, val)|;
      && n == 40 + |key| + |val|
      && (n % TWO32 <= MAX_PACKET_SIZE <==> n <= MAX_PACKET_SIZE || TWO32 <= n <= TWO32 + MAX_PACKET_SIZE)
  {
  }
}
