/** The two ends of one Modbus exchange: the frames the slave engine
    (`modbus_slave.c`) sends are the ones the master engine (`modbus_master.c`)
    accepts and parses back into the values they carry, and a request the master
    frames is served by the slave as the request meant. */
module Exchange {
  import opened Bytes
  import opened Crc16
  import opened ModbusTypes
  import opened ModbusMaster
  import opened ModbusSlave
  import opened SlaveProperties

  /** The PDU half of the parser on a register reply: the function code, the
      byte count of `regs`, then `regs` as big-endian pairs. */
  lemma RegistersPduParsed(data: seq<bv8>, e: Envelope, fc: bv8, regs: seq<bv16>)
    requires fc == FcReadHoldingRegisters || fc == FcReadInputRegisters
    requires e.start <= 7 && ParseBufferMin <= |data| && |regs| <= MaxRegisters
    requires e.available >= 2 + 2 * |regs|
    requires data[e.start] == fc && data[e.start + 1] == Byte(2 * |regs|)
    requires ReadWords(data, e.start + 2, |regs|) == regs
    ensures ParsePdu(data, e, RegistersGuard) == Some(Registers(e.tid, e.slaveId, fc, Byte(2 * |regs|), regs))
  {
    ByteSmall(2 * |regs|);
    assert (2 * |regs|) / 2 == |regs|;
  }

  /** An RTU register reply as the slave frames it for FC 0x03/0x04 passes the
      master's CRC check and parses into the same registers. */
  lemma RtuRegistersParsed(id: bv8, fc: bv8, regs: seq<bv16>, data: seq<bv8>)
    requires fc == FcReadHoldingRegisters || fc == FcReadInputRegisters
    requires |regs| <= MaxRegisters && ParseBufferMin <= |data|
    requires data[..5 + 2 * |regs|] == RegistersResponse(id, fc, regs)
    ensures ResponseAccepted(Rtu, data, 5 + 2 * |regs|)
    ensures Parse(Rtu, data, 5 + 2 * |regs|) == Some(Registers(0, id, fc, Byte(2 * |regs|), regs))
  {
    var n := |regs|;
    RtuFrameAccepted([id, fc, Byte(2 * n)] + Words(regs), data);
    RtuReplyFields(id, fc, regs, data);
    var e := Envelope(0, id, 1, 3 + 2 * n);
    assert ParseEnvelope(Rtu, data, 5 + 2 * n) == Some(e);
    RegistersPduParsed(data, e, fc, regs);
  }

  /** The fields the master reads from a slave's RTU register reply. */
  lemma RtuReplyFields(id: bv8, fc: bv8, regs: seq<bv16>, data: seq<bv8>)
    requires 5 + 2 * |regs| <= |data|
    requires data[..5 + 2 * |regs|] == RegistersResponse(id, fc, regs)
    ensures data[0] == id && data[1] == fc && data[2] == Byte(2 * |regs|)
    ensures ReadWords(data, 3, |regs|) == regs
  {
    var n := |regs|;
    var pre := [id, fc, Byte(2 * n)];
    assert data[..3 + 2 * n] == pre + Words(regs) by {
      assert data[..3 + 2 * n] == data[..5 + 2 * n][..3 + 2 * n];
    }
    ReadWordsPrefix(pre, regs, data);
  }

  /** The fields the master reads from the header of a slave's TCP register
      reply. */
  lemma TcpReplyFields(tid: bv16, uid: bv8, fc: bv8, regs: seq<bv16>, data: seq<bv8>)
    requires |regs| <= MaxRegisters && 9 + 2 * |regs| <= |data|
    requires data[..9 + 2 * |regs|] == TcpFrame(tid, uid, [fc, Byte(2 * |regs|)] + Words(regs))
    ensures Word(data[0], data[1]) == tid && data[6] == uid && data[7] == fc && data[8] == Byte(2 * |regs|)
    ensures WordAt(data, 2) == 0 && WordAt(data, 4) == 3 + 2 * |regs|
  {
    var pdu := [fc, Byte(2 * |regs|)] + Words(regs);
    var f := TcpFrame(tid, uid, pdu);
    TcpFrameHeader(tid, uid, pdu);
    WordOfBytes(tid);
    FramePrefix(f, data, 9);
    assert f[..2][0] == f[0] && f[..2][1] == f[1];
    assert f[7] == pdu[0] && f[8] == pdu[1];
  }

  /** A buffer that starts with frame `f` agrees with it on its first `k` bytes. */
  lemma FramePrefix(f: seq<bv8>, data: seq<bv8>, k: nat)
    requires k <= |f| <= |data| && data[..|f|] == f
    ensures forall i :: 0 <= i < k ==> data[i] == f[i]
  {
    forall i | 0 <= i < k
      ensures data[i] == f[i]
    {
      assert data[..|f|][i] == data[i];
    }
  }

  /** The registers of a slave's TCP register reply sit from byte 9 on. */
  lemma TcpReplyWords(tid: bv16, uid: bv8, fc: bv8, regs: seq<bv16>, data: seq<bv8>)
    requires 9 + 2 * |regs| <= |data|
    requires data[..9 + 2 * |regs|] == TcpFrame(tid, uid, [fc, Byte(2 * |regs|)] + Words(regs))
    ensures ReadWords(data, 9, |regs|) == regs
  {
    var pdu := [fc, Byte(2 * |regs|)] + Words(regs);
    var pre := Mbap(tid, 1 + |pdu|, uid) + [fc, Byte(2 * |regs|)];
    assert TcpFrame(tid, uid, pdu) == pre + Words(regs);
    ReadWordsPrefix(pre, regs, data);
  }

  /** The TCP header checks of the parser on a reply whose length field counts
      the unit id, function code, byte count and `n` registers. */
  lemma TcpEnvelope(data: seq<bv8>, tid: bv16, uid: bv8, n: nat)
    requires ParseBufferMin <= |data| && n <= MaxRegisters
    requires Word(data[0], data[1]) == tid && data[6] == uid
    requires WordAt(data, 2) == 0 && WordAt(data, 4) == 3 + 2 * n
    ensures ParseEnvelope(Tcp, data, 9 + 2 * n) == Some(Envelope(tid, uid, 7, 2 + 2 * n))
  {
  }

  /** A TCP register reply as the slave frames it (the switch's PDU behind the
      MBAP header) is accepted and parses into the same transaction id, unit id
      and registers. */
  lemma TcpRegistersParsed(tid: bv16, uid: bv8, fc: bv8, regs: seq<bv16>, data: seq<bv8>)
    requires fc == FcReadHoldingRegisters || fc == FcReadInputRegisters
    requires |regs| <= MaxRegisters && ParseBufferMin <= |data|
    requires data[..9 + 2 * |regs|] == TcpFrame(tid, uid, [fc, Byte(2 * |regs|)] + Words(regs))
    ensures ResponseAccepted(Tcp, data, 9 + 2 * |regs|)
    ensures Parse(Tcp, data, 9 + 2 * |regs|) == Some(Registers(tid, uid, fc, Byte(2 * |regs|), regs))
  {
    var n := |regs|;
    TcpFrameAccepted(tid, uid, [fc, Byte(2 * n)] + Words(regs), data);
    TcpReplyFields(tid, uid, fc, regs, data);
    TcpReplyWords(tid, uid, fc, regs, data);
    var e := Envelope(tid, uid, 7, 2 + 2 * n);
    TcpEnvelope(data, tid, uid, n);
    RegistersPduParsed(data, e, fc, regs);
  }

  /** An FC 0x06 request the master frames over RTU, served by the slave it is
      addressed to with the address inside the table: the register takes the
      requested value, nothing else changes, and the reply is the request itself. */
  lemma RtuWriteRegisterServed(t: Tables, req: Request, buf: seq<bv8>, stale: seq<bv8>)
    requires TablesFit(t) && |buf| == MaxFrame && |stale| == MaxFrame
    requires req.fc == FcWriteSingleRegister && WriteDataFits(req)
    requires req.addr as int < |t.holding|
    requires buf[..8] == RequestFrame(Rtu, 0, req)
    ensures var o := RtuOutcome(t, req.slaveId, buf, 8, stale);
      o.tables == t.(holding := t.holding[req.addr as int := req.writeData[0]]) &&
      o.events == [SingleRegisterWritten(req.addr as int, req.writeData[0]), DeTx, Transmit(RequestFrame(Rtu, 0, req))]
  {
    RtuRequestFields(req, buf);
    RtuWriteRegisterEchoes(t, req.slaveId, buf, stale);
  }

  /** The slave's view of an eight-byte request the master frames over RTU: the
      slave id, the function code and the two big-endian fields, under a CRC that
      checks. */
  lemma RtuRequestFields(req: Request, buf: seq<bv8>)
    requires WriteDataFits(req) && |buf| == MaxFrame
    requires IsReadFc(req.fc) || req.fc == FcWriteSingleRegister
    requires buf[..8] == RequestFrame(Rtu, 0, req)
    ensures RtuFrameOk(req.slaveId, buf, 8) && TrailerOk(buf, 8) && buf[1] == req.fc
    ensures WordAt(buf, 2) == req.addr as int
    ensures IsReadFc(req.fc) ==> WordAt(buf, 4) == req.quantity as int
    ensures req.fc == FcWriteSingleRegister ==> Word(buf[4], buf[5]) == req.writeData[0]
  {
    var pdu := Pdu(req);
    PduLength(req);
    PduDecodes(req);
    var body := [req.slaveId] + pdu;
    assert buf[..8] == RtuFrame(body);
    RtuFrameTrailerOk(body, buf);
    TrailerOkIffResidue(buf, 8);
    RequestBody(body, buf);
  }

  /** The first six bytes of an RTU frame around a six-byte body are that body. */
  lemma RequestBody(body: seq<bv8>, buf: seq<bv8>)
    requires |body| == 6 && 8 <= |buf| && buf[..8] == RtuFrame(body)
    ensures buf[0] == body[0] && buf[1] == body[1] && buf[2] == body[2]
    ensures buf[3] == body[3] && buf[4] == body[4] && buf[5] == body[5]
  {
    assert buf[..6] == RtuFrame(body)[..6];
  }

  /** What the slave does with an FC 0x03 request for `q` registers from `a`
      that reached it intact: with a nonzero count inside the holding table, the
      callback and a response carrying those registers; otherwise nothing. */
  function HoldingServed(t: Tables, id: bv8, a: nat, q: nat): Outcome {
    if 1 <= q && a + q <= |t.holding| then
      Outcome(t, [ReadHoldingRegistersRequested(a, q)] +
        Send(RegistersResponse(id, FcReadHoldingRegisters, t.holding[a..a + q])))
    else Outcome(t, [])
  }

  /** An FC 0x03 request the master frames over RTU, served by the slave it is
      addressed to, has the outcome `HoldingServed` gives. */
  lemma RtuReadHoldingServed(t: Tables, req: Request, buf: seq<bv8>, stale: seq<bv8>)
    requires TablesFit(t) && |buf| == MaxFrame && |stale| == MaxFrame
    requires req.fc == FcReadHoldingRegisters && WriteDataFits(req)
    requires buf[..8] == RequestFrame(Rtu, 0, req)
    ensures RtuOutcome(t, req.slaveId, buf, 8, stale) ==
      HoldingServed(t, req.slaveId, req.addr as int, req.quantity as int)
  {
    RtuRequestFields(req, buf);
    HoldingServedAt(t, req.slaveId, buf, stale, req.addr as int, req.quantity as int);
  }

  /** The slave's side of `RtuReadHoldingServed`, for an FC 0x03 frame that
      passed its checks and asks for `q` registers from `a`. */
  lemma HoldingServedAt(t: Tables, id: bv8, buf: seq<bv8>, stale: seq<bv8>, a: nat, q: nat)
    requires RtuInput(t, buf, 8, stale) && RtuFrameOk(id, buf, 8) && TrailerOk(buf, 8)
    requires buf[1] == FcReadHoldingRegisters && WordAt(buf, 2) == a && WordAt(buf, 4) == q
    ensures RtuOutcome(t, id, buf, 8, stale) == HoldingServed(t, id, a, q)
  {
    HoldingDispatched(t, id, buf, stale);
  }

  /** An FC 0x03 frame that passed the checks reaches the FC 0x03 handler. */
  lemma HoldingDispatched(t: Tables, id: bv8, buf: seq<bv8>, stale: seq<bv8>)
    requires RtuInput(t, buf, 8, stale) && RtuFrameOk(id, buf, 8) && TrailerOk(buf, 8)
    requires buf[1] == FcReadHoldingRegisters
    ensures RtuOutcome(t, id, buf, 8, stale) == RtuReadHolding(t, id, buf, 8)
  {
    assert RtuOutcome(t, id, buf, 8, stale) == RtuDispatch(t, id, buf, 8, stale);
  }

  /** Read holding registers end to end over RTU: the reply the slave transmits
      to the master's FC 0x03 request, once in the master's receive buffer, is
      accepted and parses into exactly the requested slice of the holding table. */
  lemma RtuReadHoldingRoundTrip(t: Tables, req: Request, buf: seq<bv8>, stale: seq<bv8>, reply: seq<bv8>, data: seq<bv8>)
    requires TablesFit(t) && |buf| == MaxFrame && |stale| == MaxFrame
    requires req.fc == FcReadHoldingRegisters && WriteDataFits(req)
    requires buf[..8] == RequestFrame(Rtu, 0, req)
    requires 1 <= req.quantity as int && req.addr as int + req.quantity as int <= |t.holding|
    requires Transmit(reply) in RtuOutcome(t, req.slaveId, buf, 8, stale).events
    requires ParseBufferMin <= |data| && |reply| <= |data| && data[..|reply|] == reply
    ensures |reply| == 5 + 2 * req.quantity as int
    ensures ResponseAccepted(Rtu, data, |reply|)
    ensures Parse(Rtu, data, |reply|) ==
      Some(Registers(0, req.slaveId, FcReadHoldingRegisters, Byte(2 * req.quantity as int),
        t.holding[req.addr as int..req.addr as int + req.quantity as int]))
  {
    var a, q := req.addr as int, req.quantity as int;
    var regs := t.holding[a..a + q];
    HoldingReplySent(t, req, buf, stale, reply);
    HoldingSlice(t, a, q);
    ReplyParsed(req.slaveId, FcReadHoldingRegisters, regs, reply, data);
  }

  /** A register response the slave sent, once in the master's receive buffer,
      is accepted and parses into its registers. */
  lemma ReplyParsed(id: bv8, fc: bv8, regs: seq<bv16>, reply: seq<bv8>, data: seq<bv8>)
    requires fc == FcReadHoldingRegisters || fc == FcReadInputRegisters
    requires |regs| <= MaxRegisters && reply == RegistersResponse(id, fc, regs)
    requires ParseBufferMin <= |data| && |reply| <= |data| && data[..|reply|] == reply
    ensures |reply| == 5 + 2 * |regs|
    ensures ResponseAccepted(Rtu, data, |reply|)
    ensures Parse(Rtu, data, |reply|) == Some(Registers(0, id, fc, Byte(2 * |regs|), regs))
  {
    ResponseLength(id, fc, regs);
    RtuRegistersParsed(id, fc, regs, data);
  }

  /** The register response is five bytes longer than its register pairs. */
  lemma ResponseLength(id: bv8, fc: bv8, regs: seq<bv16>)
    ensures |RegistersResponse(id, fc, regs)| == 5 + 2 * |regs|
  {
  }

  /** A slice of the holding table holds at most `MaxRegisters` registers. */
  lemma HoldingSlice(t: Tables, a: nat, q: nat)
    requires TablesFit(t) && a + q <= |t.holding|
    ensures |t.holding[a..a + q]| == q <= MaxRegisters
  {
  }

  /** The frame the slave transmits for an in-range FC 0x03 request is the
      register response over the requested slice. */
  lemma HoldingReplySent(t: Tables, req: Request, buf: seq<bv8>, stale: seq<bv8>, reply: seq<bv8>)
    requires TablesFit(t) && |buf| == MaxFrame && |stale| == MaxFrame
    requires req.fc == FcReadHoldingRegisters && WriteDataFits(req)
    requires buf[..8] == RequestFrame(Rtu, 0, req)
    requires 1 <= req.quantity as int && req.addr as int + req.quantity as int <= |t.holding|
    requires Transmit(reply) in RtuOutcome(t, req.slaveId, buf, 8, stale).events
    ensures var a, q := req.addr as int, req.quantity as int;
      reply == RegistersResponse(req.slaveId, FcReadHoldingRegisters, t.holding[a..a + q])
  {
    var a, q := req.addr as int, req.quantity as int;
    RtuReadHoldingServed(t, req, buf, stale);
    var r := RegistersResponse(req.slaveId, FcReadHoldingRegisters, t.holding[a..a + q]);
    var e := HoldingServed(t, req.slaveId, a, q).events;
    assert e == [ReadHoldingRegistersRequested(a, q)] + Send(r);
    OnlyTransmission(e, ReadHoldingRegistersRequested(a, q), r, reply);
  }

  /** A callback followed by one response transmits only that response. */
  lemma OnlyTransmission(e: seq<Event>, notify: Event, r: seq<bv8>, reply: seq<bv8>)
    requires !notify.Transmit? && e == [notify] + Send(r) && Transmit(reply) in e
    ensures reply == r
  {
    assert e == [notify, DeTx, Transmit(r)];
  }
}
