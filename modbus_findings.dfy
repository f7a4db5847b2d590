/** Six places where `modbus_slave.c` and `modbus_master.c` do not do what the
    surrounding code and the Modbus specifications evidently intend. The engines
    in `ModbusSlave` and `ModbusMaster` keep the behaviour as written; for each
    place this module exhibits an input that shows the discrepancy, and gives a
    corrected definition with the intended property proved about it. */
module Findings {
  import opened Bytes
  import opened Crc16
  import opened ModbusTypes
  import opened ModbusMaster
  import opened ModbusSlave
  import opened SlaveProperties

  // ------------------------------------------- 1. the FC 0x05/0x0F reply trailer

  /** The request of slave 1 switching coil 0 on. */
  const WriteCoilHead: seq<bv8> := [0x01, 0x05, 0x00, 0x00, 0xFF, 0x00]

  /** The register after the bytes 01 05 00 that both frames start with. */
  lemma UpdatesCommonHead()
    ensures Update(0xFFFF, 0x01) == 0x807E && Update(0x807E, 0x05) == 0x23C0 && Update(0x23C0, 0x00) == 0x5023
  {
    assert Steps(0xFFFF, 0x01, 8) == Steps(0x7FFF, 0x00, 7) == Steps(0x9FFE, 0x00, 6) == Steps(0x4FFF, 0x00, 5) == Steps(0x87FE, 0x00, 4);
    assert Steps(0x87FE, 0x00, 4) == Steps(0x43FF, 0x00, 3) == Steps(0x81FE, 0x00, 2) == Steps(0x40FF, 0x00, 1) == Steps(0x807E, 0x00, 0) == 0x807E;
    assert Steps(0x807E, 0x05, 8) == Steps(0xE03E, 0x02, 7) == Steps(0x701F, 0x01, 6) == Steps(0x380F, 0x00, 5) == Steps(0xBC06, 0x00, 4);
    assert Steps(0xBC06, 0x00, 4) == Steps(0x5E03, 0x00, 3) == Steps(0x8F00, 0x00, 2) == Steps(0x4780, 0x00, 1) == Steps(0x23C0, 0x00, 0) == 0x23C0;
    assert Steps(0x23C0, 0x00, 8) == Steps(0x11E0, 0x00, 7) == Steps(0x08F0, 0x00, 6) == Steps(0x0478, 0x00, 5) == Steps(0x023C, 0x00, 4);
    assert Steps(0x023C, 0x00, 4) == Steps(0x011E, 0x00, 3) == Steps(0x008F, 0x00, 2) == Steps(0xA046, 0x00, 1) == Steps(0x5023, 0x00, 0) == 0x5023;
  }

  lemma UpdatesWriteCoilTail()
    ensures Update(0x5023, 0x00) == 0xD911 && Update(0xD911, 0xFF) == 0x4C59 && Update(0x4C59, 0x00) == 0x3A8C
  {
    assert Steps(0x5023, 0x00, 8) == Steps(0x8810, 0x00, 7) == Steps(0x4408, 0x00, 6) == Steps(0x2204, 0x00, 5) == Steps(0x1102, 0x00, 4);
    assert Steps(0x1102, 0x00, 4) == Steps(0x0881, 0x00, 3) == Steps(0xA441, 0x00, 2) == Steps(0xF221, 0x00, 1) == Steps(0xD911, 0x00, 0) == 0xD911;
    assert Steps(0xD911, 0xFF, 8) == Steps(0x6C88, 0x7F, 7) == Steps(0x9645, 0x3F, 6) == Steps(0x4B22, 0x1F, 5) == Steps(0x8590, 0x0F, 4);
    assert Steps(0x8590, 0x0F, 4) == Steps(0xE2C9, 0x07, 3) == Steps(0x7164, 0x03, 2) == Steps(0x98B3, 0x01, 1) == Steps(0x4C59, 0x00, 0) == 0x4C59;
    assert Steps(0x4C59, 0x00, 8) == Steps(0x862D, 0x00, 7) == Steps(0xE317, 0x00, 6) == Steps(0xD18A, 0x00, 5) == Steps(0x68C5, 0x00, 4);
    assert Steps(0x68C5, 0x00, 4) == Steps(0x9463, 0x00, 3) == Steps(0xEA30, 0x00, 2) == Steps(0x7518, 0x00, 1) == Steps(0x3A8C, 0x00, 0) == 0x3A8C;
  }

  lemma UpdatesMisplacedTail()
    ensures Update(0x5023, 0x8C) == 0x7C10 && Update(0x7C10, 0x3A) == 0xDFFD && Update(0xDFFD, 0x00) == 0x811E
  {
    assert Steps(0x5023, 0x8C, 8) == Steps(0x8810, 0x46, 7) == Steps(0x4408, 0x23, 6) == Steps(0x8205, 0x11, 5) == Steps(0x4102, 0x08, 4);
    assert Steps(0x4102, 0x08, 4) == Steps(0x2081, 0x04, 3) == Steps(0xB041, 0x02, 2) == Steps(0xF821, 0x01, 1) == Steps(0x7C10, 0x00, 0) == 0x7C10;
    assert Steps(0x7C10, 0x3A, 8) == Steps(0x3E08, 0x1D, 7) == Steps(0xBF05, 0x0E, 6) == Steps(0xFF83, 0x07, 5) == Steps(0x7FC1, 0x03, 4);
    assert Steps(0x7FC1, 0x03, 4) == Steps(0x3FE0, 0x01, 3) == Steps(0xBFF1, 0x00, 2) == Steps(0xFFF9, 0x00, 1) == Steps(0xDFFD, 0x00, 0) == 0xDFFD;
    assert Steps(0xDFFD, 0x00, 8) == Steps(0xCFFF, 0x00, 7) == Steps(0xC7FE, 0x00, 6) == Steps(0x63FF, 0x00, 5) == Steps(0x91FE, 0x00, 4);
    assert Steps(0x91FE, 0x00, 4) == Steps(0x48FF, 0x00, 3) == Steps(0x847E, 0x00, 2) == Steps(0x423F, 0x00, 1) == Steps(0x811E, 0x00, 0) == 0x811E;
  }

  lemma CrcWriteCoilHead()
    ensures Crc([0x01, 0x05, 0x00, 0x00, 0xFF, 0x00]) == 0x3A8C
  {
    var s: seq<bv8> := [0x01, 0x05, 0x00, 0x00, 0xFF, 0x00];
    UpdatesCommonHead();
    UpdatesWriteCoilTail();
    assert s[6..] == [];
    assert CrcFrom(0xFFFF, s[0..]) == CrcFrom(0x807E, s[1..]) == CrcFrom(0x23C0, s[2..]) == CrcFrom(0x5023, s[3..]);
    assert CrcFrom(0x5023, s[3..]) == CrcFrom(0xD911, s[4..]) == CrcFrom(0x4C59, s[5..]) == CrcFrom(0x3A8C, s[6..]) == 0x3A8C;
  }

  /** The CRC of the first six bytes of the reply as written. */
  lemma CrcMisplacedHead()
    ensures Crc([0x01, 0x05, 0x00, 0x8C, 0x3A, 0x00]) == 0x811E
  {
    var s: seq<bv8> := [0x01, 0x05, 0x00, 0x8C, 0x3A, 0x00];
    UpdatesCommonHead();
    UpdatesMisplacedTail();
    assert s[6..] == [];
    assert CrcFrom(0xFFFF, s[0..]) == CrcFrom(0x807E, s[1..]) == CrcFrom(0x23C0, s[2..]) == CrcFrom(0x5023, s[3..]);
    assert CrcFrom(0x5023, s[3..]) == CrcFrom(0x7C10, s[4..]) == CrcFrom(0xDFFD, s[5..]) == CrcFrom(0x811E, s[6..]) == 0x811E;
  }

  /** As written, the FC 0x05 reply (byte count 0) carries the CRC of the echoed
      bytes over the value field, at bytes 3 and 4, and sends bytes 6 and 7 of the
      response buffer, whatever they held, as its trailer. */
  lemma MisplacedTrailer(head: seq<bv8>, stale: seq<bv8>)
    requires |head| == 6 && |stale| == MaxFrame
    ensures var r := MisplacedCrcResponse(head, 0, stale);
      r[..3] == head[..3] && r[3] == Lo(Crc(head)) && r[4] == Hi(Crc(head)) && r[5] == head[5] &&
      r[6..] == stale[6..8]
  {
    var r := MisplacedCrcResponse(head, 0, stale);
    assert r[6] == stale[6] && r[7] == stale[7];
  }

  /** For slave 1 switching coil 0 on, with a zeroed response buffer, the slave
      sends 01 05 00 8C 3A 00 00 00, which fails the master's CRC check. */
  lemma WriteCoilReplyRejected(stale: seq<bv8>)
    requires |stale| == MaxFrame && stale[6] == 0 && stale[7] == 0
    ensures var r := MisplacedCrcResponse(WriteCoilHead, 0, stale);
      r == [0x01, 0x05, 0x00, 0x8C, 0x3A, 0x00, 0x00, 0x00] && !ResponseAccepted(Rtu, r, 8)
  {
    CrcWriteCoilHead();
    CrcMisplacedHead();
    var r := MisplacedCrcResponse(WriteCoilHead, 0, stale);
    assert r[..6] == [0x01, 0x05, 0x00, 0x8C, 0x3A, 0x00];
  }

  /** The slave engine, given the correctly framed request to switch coil 0 of
      slave 1 on at the start of its receive buffer, switches the coil and
      transmits that rejected reply. */
  lemma WriteCoilServedWithBadReply(t: Tables, buf: seq<bv8>, stale: seq<bv8>)
    requires TablesFit(t) && 1 <= |t.coils| && |stale| == MaxFrame && stale[6] == 0 && stale[7] == 0
    requires |buf| == MaxFrame && buf[..8] == [0x01, 0x05, 0x00, 0x00, 0xFF, 0x00, 0x8C, 0x3A]
    ensures var o := RtuOutcome(t, 0x01, buf, 8, stale);
      o.events == [SingleCoilWritten(0, true), DeTx, Transmit([0x01, 0x05, 0x00, 0x8C, 0x3A, 0x00, 0x00, 0x00])]
  {
    WriteCoilRequestFramed(buf);
    WriteCoilRouted(t, buf, stale);
    WriteCoilReplyRejected(stale);
    WriteCoilEvents(t, buf, stale, RtuOutcome(t, 0x01, buf, 8, stale).events);
  }

  /** Those eight bytes are the request followed by its own CRC. */
  lemma WriteCoilRequestFramed(buf: seq<bv8>)
    requires |buf| == MaxFrame && buf[..8] == [0x01, 0x05, 0x00, 0x00, 0xFF, 0x00, 0x8C, 0x3A]
    ensures buf[..6] == WriteCoilHead && TrailerOk(buf, 8) && WordAt(buf, 2) == 0 && WordAt(buf, 4) == 0xFF00
  {
    assert buf[..6] == buf[..8][..6] == WriteCoilHead;
    assert buf[2] == 0 && buf[3] == 0 && buf[4] == 0xFF && buf[5] == 0 && buf[6] == 0x8C && buf[7] == 0x3A;
    CrcWriteCoilHead();
  }

  /** A correctly framed FC 0x05 request of eight bytes to slave 1 goes to the
      FC 0x05 handler. */
  lemma WriteCoilRouted(t: Tables, buf: seq<bv8>, stale: seq<bv8>)
    requires RtuInput(t, buf, 8, stale) && buf[0] == 0x01 && buf[1] == FcWriteSingleCoil && TrailerOk(buf, 8)
    ensures RtuOutcome(t, 0x01, buf, 8, stale) == RtuWriteCoil(t, buf, stale)
  {
  }

  /** The events of the FC 0x05 handler for a request switching coil 0 on. */
  lemma WriteCoilEvents(t: Tables, buf: seq<bv8>, stale: seq<bv8>, e: seq<Event>)
    requires RtuInput(t, buf, 0, stale) && 1 <= |t.coils| && buf[..6] == WriteCoilHead
    requires WordAt(buf, 2) == 0 && WordAt(buf, 4) == 0xFF00 && e == RtuWriteCoil(t, buf, stale).events
    ensures e == [SingleCoilWritten(0, true)] + Send(MisplacedCrcResponse(WriteCoilHead, 0, stale))
  {
  }

  /** The reply the Modbus over Serial Line Specification V1.02 asks for: the six
      echoed bytes followed by their own CRC. */
  function EchoReply(head: seq<bv8>): (r: seq<bv8>)
    requires |head| == 6
    ensures |r| == 8 && r[..6] == head && Crc(r) == 0
  {
    RtuFrame(head)
  }

  /** The master accepts the corrected reply and reads back the address and the
      value it echoes. */
  lemma EchoReplyParsed(head: seq<bv8>, data: seq<bv8>)
    requires |head| == 6 && (head[1] == FcWriteSingleCoil || head[1] == FcWriteMultipleCoils)
    requires ParseBufferMin <= |data| && data[..8] == EchoReply(head)
    ensures ResponseAccepted(Rtu, data, 8)
    ensures Parse(Rtu, data, 8) == Some(WriteAck(0, head[0], head[1], Word(head[2], head[3]), Word(head[4], head[5])))
  {
    RtuFrameAccepted(head, data);
    assert data[..6] == head;
  }

  // ------------------------------------------- 2. the register count guard

  /** `ModbusParsedResponse_t` holds 64 registers. */
  const RegisterSlots: nat := 64

  /** A TCP reply to FC 0x03 whose byte count is 130: 65 registers. */
  function OverlongRead(): (d: seq<bv8>)
    ensures |d| == ParseBufferMin
  {
    [0x00, 0x00, 0x00, 0x00, 0x00, 0x85, 0x01, 0x03, 0x82] + seq(254, _ => 0)
  }

  /** As written, the guard compares the byte count with 256, which no byte count
      reaches, so a reply announcing 65 registers is parsed into 65 registers,
      one more than the record holds. */
  lemma OverlongReadParsed()
    ensures var r := Parse(Tcp, OverlongRead(), 139);
      r.Some? && r.value.Registers? && |r.value.registers| == 65 > RegisterSlots
  {
    var d := OverlongRead();
    assert WordAt(d, 2) == 0 && WordAt(d, 4) == 133;
  }

  /** The header half of the parser with the lengths the frames evidently mean:
      over RTU the PDU is what lies between the slave id and the CRC trailer;
      over TCP the length field counts the unit id and the PDU and must fit the
      received bytes, in unbounded arithmetic. */
  function EnvelopeFixed(mode: Mode, data: seq<bv8>, len: nat): (e: Option<Envelope>)
    requires len <= |data| && len < 0x1_0000 && ParseBufferMin <= |data|
    ensures e.Some? ==> e.value.start <= 7 && e.value.start + e.value.available + (if mode == Rtu then 2 else 0) <= len
  {
    if mode == Tcp then
      if len < 8 || WordAt(data, 2) != 0 then None
      else
        var lengthField := WordAt(data, 4);
        if lengthField < 2 || len < 6 + lengthField then None
        else Some(Envelope(Word(data[0], data[1]), data[6], 7, lengthField - 1))
    else
      if len < 5 then None
      else Some(Envelope(0, data[0], 1, len - 3))
  }

  /** The parser with both corrections: the fixed envelope, and a byte count
      bounded by the 128 bytes the register record holds. */
  function ParseFixed(mode: Mode, data: seq<bv8>, len: nat): Option<Parsed>
    requires len <= |data| && len < 0x1_0000 && ParseBufferMin <= |data|
  {
    match EnvelopeFixed(mode, data, len)
    case None => None
    case Some(e) => ParsePdu(data, e, 2 * RegisterSlots)
  }

  /** Every register the corrected parser returns has a slot in the record. */
  lemma ParseFixedRegistersFit(mode: Mode, data: seq<bv8>, len: nat)
    requires len <= |data| && len < 0x1_0000 && ParseBufferMin <= |data|
    ensures var r := ParseFixed(mode, data, len);
      r.Some? && r.value.Registers? ==> |r.value.registers| <= RegisterSlots
  {
    var e := EnvelopeFixed(mode, data, len);
    if e.Some? {
      ParseRegistersBound(data, e.value, 2 * RegisterSlots);
    }
  }

  /** The corrected parser refuses the reply announcing 65 registers. */
  lemma OverlongReadRefused()
    ensures ParseFixed(Tcp, OverlongRead(), 139) == None
  {
    var d := OverlongRead();
    assert WordAt(d, 2) == 0 && WordAt(d, 4) == 133;
  }

  // ------------------------------------------- 3. the RTU PDU length

  /** As written, the RTU parser takes `len - 2` bytes from `data[1]` as the PDU,
      which includes the first CRC byte: a correctly framed FC 0x03 reply whose
      byte count 2 announces one register but carries one data byte is accepted,
      and its register is built from that byte and the CRC's low byte. */
  lemma CrcByteReadAsRegister(id: bv8, x: bv8, data: seq<bv8>)
    requires ParseBufferMin <= |data| && data[..6] == RtuFrame([id, FcReadHoldingRegisters, 2, x])
    ensures ResponseAccepted(Rtu, data, 6)
    ensures Parse(Rtu, data, 6) ==
      Some(Registers(0, id, FcReadHoldingRegisters, 2, [Word(x, Lo(Crc([id, FcReadHoldingRegisters, 2, x])))]))
    ensures ParseFixed(Rtu, data, 6) == None
  {
    var body: seq<bv8> := [id, FcReadHoldingRegisters, 2, x];
    RtuFrameAccepted(body, data);
    assert data[3] == x && data[4] == Lo(Crc(body)) by {
      assert data[..6] == body + Trailer(Crc(body));
    }
    assert ReadWords(data, 3, 1) == [Word(data[3], data[4])];
  }

  /** With the corrected parser, the bytes of a register reply or a write
      acknowledgement lie inside the frame: before the CRC trailer over RTU, and
      within the length field over TCP. */
  lemma ParseFixedInsideFrame(mode: Mode, data: seq<bv8>, len: nat)
    requires len <= |data| && len < 0x1_0000 && ParseBufferMin <= |data|
    ensures var r := ParseFixed(mode, data, len);
      var start := if mode == Rtu then 1 else 7;
      var end := if mode == Rtu then len - 2 else 6 + WordAt(data, 4);
      (r.Some? && r.value.Registers? ==> start + 2 + r.value.byteCount as int <= end) &&
      (r.Some? && r.value.WriteAck? ==> start + 5 <= end)
  {
  }

  // ------------------------------------------- 4. the slave's TCP length arithmetic

  /** As written, the PDU length `(uint16_t)(l - 1)` of a length field 0 is
      65535, which passes the `pdu_len < 1` check: a request for holding register
      0 whose length field is 0, announcing neither a unit id nor a PDU, is
      served. */
  lemma EmptyLengthServed(t: Tables, id: bv8, b: seq<bv8>, len: nat)
    requires TablesFit(t) && |t.holding| >= 1 && |b| == MaxFrame && 12 <= len <= MaxFrame
    requires b[2..7] == [0x00, 0x00, 0x00, 0x00, id] && b[7..12] == [FcReadHoldingRegisters, 0x00, 0x00, 0x00, 0x01]
    ensures TcpPduLength(0) == 0xFFFF
    ensures var o := TcpOutcome(t, id, b, len);
      |o.events| >= 1 && o.events[0] == ReadHoldingRegistersRequested(0, 1)
  {
    EmptyLengthTaken(t, id, b, len);
    EmptyLengthRead(t, b[7..]);
  }

  /** A frame whose protocol id and length field are both 0 reaches the PDU
      switch with the PDU length 65535. */
  lemma EmptyLengthTaken(t: Tables, id: bv8, b: seq<bv8>, len: nat)
    requires TablesFit(t) && |b| == MaxFrame && 8 <= len <= MaxFrame
    requires b[2] == 0 && b[3] == 0 && b[4] == 0 && b[5] == 0 && b[6] == id
    ensures var r := TcpPdu(t, b[7..], 0xFFFF);
      TcpOutcome(t, id, b, len) == Outcome(r.tables, r.notify + SendTcp(Word(b[0], b[1]), b[6], r.pdu))
  {
    var l := WordAt(b, 4);
    assert WordAt(b, 2) == 0 && l == 0;
    assert TcpPduLength(l) == 0xFFFF;
    PduLengthBound(l, len);
  }

  /** With that length, the switch reads register 0 and reports the read. */
  lemma EmptyLengthRead(t: Tables, pdu: seq<bv8>)
    requires TablesFit(t) && |t.holding| >= 1 && |pdu| == MaxFrame - 7
    requires pdu[..5] == [FcReadHoldingRegisters, 0x00, 0x00, 0x00, 0x01]
    ensures TcpPdu(t, pdu, 0xFFFF).notify == [ReadHoldingRegistersRequested(0, 1)]
  {
    assert pdu[0] == pdu[..5][0] && pdu[1] == pdu[..5][1] && pdu[2] == pdu[..5][2];
    assert pdu[3] == pdu[..5][3] && pdu[4] == pdu[..5][4];
    assert WordAt(pdu, 1) == 0 && WordAt(pdu, 3) == 1;
  }

  /** The PDU length the checks evidently intend, in unbounded arithmetic: the
      frame must hold `6 + l` bytes and the length field must count the unit id
      and at least the function code. */
  function PduLengthChecked(l: nat, len: nat): (n: Option<nat>)
    ensures n.Some? ==> 1 <= n.value && 7 + n.value <= len
    ensures n.None? ==> l < 2 || len < 6 + l
  {
    if l < 2 || len < 6 + l then None else Some(l - 1)
  }

  /** Where the length field is sound, the checked length is the one the slave
      computes; the checked length refuses a length field of 0. */
  lemma PduLengthCheckedAgrees(l: nat, len: nat)
    requires l < 0x1_0000
    ensures 2 <= l && 6 + l <= len ==> PduLengthChecked(l, len) == Some(TcpPduLength(l))
    ensures PduLengthChecked(0, len) == None
  {
  }

  // ------------------------------------------- 5. the padding bits of FC 0x01/0x02

  /** As written, bits past the last requested coil keep whatever the response
      buffer held: reading one coil that is on, over a buffer whose byte 3 is
      0xFF, answers the data byte 0xFF, reporting eight coils on. */
  lemma PaddingFromStaleBuffer(stale: seq<bv8>)
    requires |stale| == MaxFrame && stale[3] == 0xFF
    ensures ReadBitsResponse(0x01, FcReadCoils, [1], stale)[3] == 0xFF
  {
    var r := ReadBitsResponse(0x01, FcReadCoils, [1], stale);
    forall c | 0 <= c < 8
      ensures Bit(r[3], c) == Bit(0xFF, c)
    {
      ReadBitsResponseBit(0x01, FcReadCoils, [1], stale, 0, c);
    }
    BitsDetermineByte(r[3], 0xFF);
  }

  /** The response with the buffer cleared first, as section 6.1 of the Modbus
      Application Protocol Specification V1.1b3 asks: the unused high bits of
      the last data byte are zero. */
  function ClearedBitsResponse(id: bv8, fc: bv8, bits: seq<bv8>): seq<bv8>
    requires |bits| <= MaxBits
  {
    ReadBitsResponse(id, fc, bits, seq(MaxFrame, _ => 0))
  }

  /** In the corrected response a data bit is set exactly when it stands for a
      requested coil that is on. */
  lemma ClearedPadding(id: bv8, fc: bv8, bits: seq<bv8>, p: nat, c: nat)
    requires |bits| <= MaxBits && p < (|bits| + 7) / 8 && c < 8
    ensures 3 + p < |ClearedBitsResponse(id, fc, bits)|
    ensures Bit(ClearedBitsResponse(id, fc, bits)[3 + p], c) <==> 8 * p + c < |bits| && bits[8 * p + c] != 0
  {
    ReadBitsResponseBit(id, fc, bits, seq(MaxFrame, _ => 0), p, c);
  }

  // ------------------------------------------- 6. the FC 0x0F byte count

  /** As written, the FC 0x0F handler takes `byte_count` from the request
      without checking it and stores the CRC at `response[3 + byte_count]` and
      `response[4 + byte_count]`. A frame that passes the checks and whose range
      fits the coils is served whatever its byte count, so from a byte count of
      252 on the second store (from 253 on, both) lands at index 256 or past it,
      outside the 256-byte buffer, however small the tables are. Neither store
      reaches the eight bytes sent, which are the head and two stale bytes. */
  lemma MisplacedWritePastBuffer(t: Tables, id: bv8, buf: seq<bv8>, len: nat, stale: seq<bv8>)
    requires RtuInput(t, buf, len, stale) && RtuFrameOk(id, buf, len) && buf[1] == FcWriteMultipleCoils
    requires WordAt(buf, 2) + WordAt(buf, 4) <= |t.coils| && 252 <= buf[6] as int
    ensures var q := WordAt(buf, 4);
      RtuOutcome(t, id, buf, len, stale).events ==
        [MultipleCoilsWritten(WordAt(buf, 2), buf[7..7 + (q + 7) / 8], q)] +
        Send([id, FcWriteMultipleCoils] + buf[2..6] + stale[6..8])
    ensures MaxFrame <= 4 + buf[6] as int
  {
    TrailerOkIffResidue(buf, len);
    WriteCoilsSent(t, id, buf, stale);
    var head := [id, FcWriteMultipleCoils] + buf[2..6];
    assert MisplacedCrcResponse(head, buf[6], stale) == head + stale[6..8];
  }

  /** With a table of one coil, the frame 01 0F 00 00 00 01 FF 01 and its CRC
      switches coil 0 on and reaches the stores with byte count 255, at
      `response[258]` and `response[259]`. */
  lemma OneCoilByteCount255(t: Tables, buf: seq<bv8>, stale: seq<bv8>)
    requires TablesFit(t) && |t.coils| == 1 && |stale| == MaxFrame
    requires |buf| == MaxFrame && buf[..8] == [0x01, 0x0F, 0x00, 0x00, 0x00, 0x01, 0xFF, 0x01] && TrailerOk(buf, 10)
    ensures RtuOutcome(t, 0x01, buf, 10, stale).events ==
      [MultipleCoilsWritten(0, [0x01], 1)] + Send([0x01, 0x0F, 0x00, 0x00, 0x00, 0x01] + stale[6..8])
    ensures 3 + buf[6] as int == 258 && 4 + buf[6] as int == 259
  {
    assert buf[0] == 0x01 && buf[1] == 0x0F && buf[2] == 0 && buf[3] == 0 && buf[4] == 0 && buf[5] == 1;
    assert buf[6] == 0xFF && buf[7] == 0x01;
    TrailerOkIffResidue(buf, 10);
    assert WordAt(buf, 2) == 0 && WordAt(buf, 4) == 1;
    MisplacedWritePastBuffer(t, 0x01, buf, 10, stale);
    assert [0x01, FcWriteMultipleCoils] + buf[2..6] == [0x01, 0x0F, 0x00, 0x00, 0x00, 0x01];
    assert buf[7..8] == [0x01];
  }
}
