/** Properties of the slave engine (`modbus_slave.c`) over whole frames: which
    frames it acts on, the shape of every reply, the bit layout of the coil
    replies, and the exception codes of the TCP path. */
module SlaveProperties {
  import opened Bytes
  import opened Crc16
  import opened ModbusTypes
  import opened ModbusSlave

  // ---------------------------------------------------------------- RTU

  /** An RTU frame the slave may act on: five bytes or more, addressed to `id`,
      and with a CRC residue of zero over the whole frame. */
  predicate RtuFrameOk(id: bv8, buf: seq<bv8>, len: nat)
    requires len <= |buf|
  {
    5 <= len && buf[0] == id && Crc(buf[..len]) == 0
  }

  /** The RTU path does something (writes a table or sends) only for a frame of
      five or more bytes, addressed to this slave, whose CRC is right. */
  lemma RtuActsOnlyOnValidFrames(t: Tables, id: bv8, buf: seq<bv8>, len: nat, stale: seq<bv8>)
    requires RtuInput(t, buf, len, stale)
    requires RtuOutcome(t, id, buf, len, stale) != Outcome(t, [])
    ensures RtuFrameOk(id, buf, len)
  {
    TrailerOkIffResidue(buf, len);
  }

  /** Packing the coil bits never touches the header bytes nor the bytes past the
      data area. */
  lemma PackBitsKeeps(buf: seq<bv8>, bits: seq<bv8>, n: nat, k: nat)
    requires n <= |bits| && k < |buf|
    requires k < 3 || 3 + (n + 7) / 8 <= k
    ensures PackBits(buf, bits, n)[k] == buf[k]
  {
  }

  /** The FC 0x01/0x02 reply is `5 + byte count` bytes: slave id, function code,
      the byte count `(q + 7) / 8`, the data bytes, and a CRC that checks. */
  lemma ReadBitsResponseHeader(id: bv8, fc: bv8, bits: seq<bv8>, stale: seq<bv8>)
    requires |bits| <= MaxBits && |stale| == MaxFrame
    ensures var r := ReadBitsResponse(id, fc, bits, stale);
      |r| == 5 + (|bits| + 7) / 8 && r[0] == id && r[1] == fc &&
      r[2] as int == (|bits| + 7) / 8 && Crc(r) == 0
  {
    var body := ReadBitsBody(id, fc, bits, stale);
    RtuFrameHead(body);
  }

  /** The bytes in front of the CRC of the FC 0x01/0x02 reply. */
  lemma ReadBitsBody(id: bv8, fc: bv8, bits: seq<bv8>, stale: seq<bv8>) returns (body: seq<bv8>)
    requires |bits| <= MaxBits && |stale| == MaxFrame
    ensures ReadBitsResponse(id, fc, bits, stale) == RtuFrame(body)
    ensures body == PackBits([id, fc, Byte((|bits| + 7) / 8)] + stale[3..], bits, |bits|)[..3 + (|bits| + 7) / 8]
    ensures |body| == 3 + (|bits| + 7) / 8 && body[0] == id && body[1] == fc && body[2] as int == (|bits| + 7) / 8
  {
    var bc := (|bits| + 7) / 8;
    var buf := [id, fc, Byte(bc)] + stale[3..];
    var packed := PackBits(buf, bits, |bits|);
    body := ReadBitsData(id, fc, bits, stale);
    PackBitsKeeps(buf, bits, |bits|, 0);
    PackBitsKeeps(buf, bits, |bits|, 1);
    PackBitsKeeps(buf, bits, |bits|, 2);
    assert body[2] == Byte(bc);
    ByteSmall(bc);
  }

  /** An RTU frame starts with its body. */
  lemma RtuFrameAt(body: seq<bv8>, i: nat)
    requires i < |body|
    ensures RtuFrame(body)[i] == body[i]
  {
    assert RtuFrame(body)[..|body|] == body;
  }

  /** The first three bytes of an RTU frame are those of its body. */
  lemma RtuFrameHead(body: seq<bv8>)
    requires |body| >= 3
    ensures var r := RtuFrame(body);
      |r| == |body| + 2 && r[0] == body[0] && r[1] == body[1] && r[2] == body[2] && Crc(r) == 0
  {
    RtuFrameAt(body, 0);
    RtuFrameAt(body, 1);
    RtuFrameAt(body, 2);
  }

  /** Bit `c` of reply data byte `p` is entry `8 * p + c` of the table slice; the
      padding bits of the last data byte are whatever the response buffer held. */
  lemma ReadBitsResponseBit(id: bv8, fc: bv8, bits: seq<bv8>, stale: seq<bv8>, p: nat, c: nat)
    requires |bits| <= MaxBits && |stale| == MaxFrame && p < (|bits| + 7) / 8 && c < 8
    ensures 3 + p < |ReadBitsResponse(id, fc, bits, stale)|
    ensures Bit(ReadBitsResponse(id, fc, bits, stale)[3 + p], c) ==
      if 8 * p + c < |bits| then bits[8 * p + c] != 0 else Bit(stale[3 + p], c)
  {
    var body := ReadBitsData(id, fc, bits, stale);
    var buf := [id, fc, Byte((|bits| + 7) / 8)] + stale[3..];
    PackBitsBit(buf, bits, |bits|, p, c);
    assert body[3 + p] == PackBits(buf, bits, |bits|)[3 + p];
    RtuFrameAt(body, 3 + p);
  }

  /** A reply of the RTU path: one callback event, the driver enable, then a frame
      of five bytes or more that starts with the slave id and the request's
      function code, a code without the exception bit. */
  predicate RtuReply(events: seq<Event>, id: bv8, fc: bv8) {
    |events| == 3 && events[1] == DeTx && events[2].Transmit? &&
    |events[2].bytes| >= 5 && events[2].bytes[0] == id && events[2].bytes[1] == fc && fc & 0x80 == 0
  }

  /** The RTU path never answers with an exception: a request it refuses leaves
      the tables alone and sends nothing, and every reply it sends carries the
      request's function code. */
  lemma RtuNeverException(t: Tables, id: bv8, buf: seq<bv8>, len: nat, stale: seq<bv8>)
    requires RtuInput(t, buf, len, stale)
    ensures var o := RtuOutcome(t, id, buf, len, stale);
      o == Outcome(t, []) || RtuReply(o.events, id, buf[1])
  {
    if 5 <= len && buf[0] == id && TrailerOk(buf, len) {
      var fc := buf[1];
      if fc == FcReadCoils || fc == FcReadDiscreteInputs {
        ReadBitsReplies(t, id, buf, stale);
      } else if fc == FcReadHoldingRegisters {
        ReadHoldingReplies(t, id, buf, len);
      } else if fc == FcReadInputRegisters {
        ReadInputReplies(t, id, buf);
      } else if fc == FcWriteSingleCoil {
        WriteCoilReplies(t, id, buf, stale);
      } else if fc == FcWriteMultipleCoils {
        WriteCoilsReplies(t, id, buf, stale);
      } else if fc == FcWriteMultipleRegisters {
        WriteRegistersReplies(t, id, buf, len);
      }
    }
  }

  /** A frame of five bytes or more that starts with the slave id and a function
      code without the exception bit, sent after its callback event, is a reply. */
  lemma SentIsReply(notify: Event, frame: seq<bv8>, id: bv8, fc: bv8)
    requires |frame| >= 5 && frame[0] == id && frame[1] == fc && fc & 0x80 == 0
    ensures RtuReply([notify] + Send(frame), id, fc)
  {
  }

  lemma ReadBitsReplies(t: Tables, id: bv8, buf: seq<bv8>, stale: seq<bv8>)
    requires RtuInput(t, buf, 0, stale) && (buf[1] == FcReadCoils || buf[1] == FcReadDiscreteInputs) && buf[0] == id
    ensures var o := RtuReadBits(t, id, buf, stale);
      o == Outcome(t, []) || RtuReply(o.events, id, buf[1])
  {
    var addr, q := WordAt(buf, 2), WordAt(buf, 4);
    var table := if buf[1] == FcReadCoils then t.coils else t.discreteInputs;
    if addr + q <= |table| {
      var notify := if buf[1] == FcReadCoils then ReadCoilsRequested(addr, q) else ReadDiscreteInputsRequested(addr, q);
      var frame := ReadBitsResponse(id, buf[1], table[addr..addr + q], stale);
      ReadBitsSent(t, id, buf, stale);
      ReadBitsResponseHeader(id, buf[1], table[addr..addr + q], stale);
      SentIsReply(notify, frame, id, buf[1]);
    } else {
      ReadBitsDropped(t, id, buf, stale);
    }
  }

  lemma ReadHoldingReplies(t: Tables, id: bv8, buf: seq<bv8>, len: nat)
    requires RtuInput(t, buf, len, buf) && buf[1] == FcReadHoldingRegisters && buf[0] == id
    ensures var o := RtuReadHolding(t, id, buf, len);
      o == Outcome(t, []) || RtuReply(o.events, id, buf[1])
  {
    var addr, count := WordAt(buf, 2), WordAt(buf, 4);
    if len == 8 && addr + count <= |t.holding| && count != 0 {
      var regs := t.holding[addr..addr + count];
      assert RtuReadHolding(t, id, buf, len).events == [ReadHoldingRegistersRequested(addr, count)] + Send(RegistersResponse(id, FcReadHoldingRegisters, regs));
      RegistersResponseHead(id, FcReadHoldingRegisters, regs);
      SentIsReply(ReadHoldingRegistersRequested(addr, count), RegistersResponse(id, FcReadHoldingRegisters, regs), id, buf[1]);
    }
  }

  lemma ReadInputReplies(t: Tables, id: bv8, buf: seq<bv8>)
    requires RtuInput(t, buf, 0, buf) && buf[1] == FcReadInputRegisters && buf[0] == id
    ensures var o := RtuReadInput(t, id, buf);
      o == Outcome(t, []) || RtuReply(o.events, id, buf[1])
  {
    var addr, q := WordAt(buf, 2), WordAt(buf, 4);
    if addr + q <= |t.input| {
      var regs := t.input[addr..addr + q];
      assert RtuReadInput(t, id, buf).events == [ReadInputRegistersRequested(addr, q)] + Send(RegistersResponse(id, FcReadInputRegisters, regs));
      RegistersResponseHead(id, FcReadInputRegisters, regs);
      SentIsReply(ReadInputRegistersRequested(addr, q), RegistersResponse(id, FcReadInputRegisters, regs), id, buf[1]);
    }
  }

  /** The FC 0x03/0x04 reply starts with the slave id and the function code. */
  lemma RegistersResponseHead(id: bv8, fc: bv8, regs: seq<bv16>)
    ensures var r := RegistersResponse(id, fc, regs);
      |r| >= 5 && r[0] == id && r[1] == fc
  {
    RtuFrameHead([id, fc, Byte(2 * |regs|)] + Words(regs));
  }

  lemma WriteCoilReplies(t: Tables, id: bv8, buf: seq<bv8>, stale: seq<bv8>)
    requires RtuInput(t, buf, 0, stale) && buf[1] == FcWriteSingleCoil && buf[0] == id
    ensures var o := RtuWriteCoil(t, buf, stale);
      o == Outcome(t, []) || RtuReply(o.events, id, buf[1])
  {
    assert MisplacedCrcResponse(buf[..6], 0, stale)[..2] == buf[..2];
  }

  lemma WriteCoilsReplies(t: Tables, id: bv8, buf: seq<bv8>, stale: seq<bv8>)
    requires RtuInput(t, buf, 0, stale) && buf[1] == FcWriteMultipleCoils && buf[0] == id
    ensures var o := RtuWriteCoils(t, id, buf, stale);
      o == Outcome(t, []) || RtuReply(o.events, id, buf[1])
  {
    var addr, q := WordAt(buf, 2), WordAt(buf, 4);
    if addr + q <= |t.coils| {
      var head := [id, FcWriteMultipleCoils] + buf[2..6];
      var notify := MultipleCoilsWritten(addr, buf[7..7 + (q + 7) / 8], q);
      WriteCoilsSent(t, id, buf, stale);
      MisplacedHeadReply(notify, head, buf[6], stale, id, buf[1]);
    }
  }

  /** An FC 0x0F request inside the coils is reported, then answered. */
  lemma WriteCoilsSent(t: Tables, id: bv8, buf: seq<bv8>, stale: seq<bv8>)
    requires RtuInput(t, buf, 0, stale) && WordAt(buf, 2) + WordAt(buf, 4) <= |t.coils|
    ensures var q := WordAt(buf, 4);
      RtuWriteCoils(t, id, buf, stale).events ==
        [MultipleCoilsWritten(WordAt(buf, 2), buf[7..7 + (q + 7) / 8], q)] +
        Send(MisplacedCrcResponse([id, FcWriteMultipleCoils] + buf[2..6], buf[6], stale))
  {
  }

  /** A response built over a request head keeps the head's first two bytes. */
  lemma MisplacedHeadReply(notify: Event, head: seq<bv8>, bc: bv8, stale: seq<bv8>, id: bv8, fc: bv8)
    requires |head| == 6 && |stale| == MaxFrame && head[0] == id && head[1] == fc && fc & 0x80 == 0
    ensures RtuReply([notify] + Send(MisplacedCrcResponse(head, bc, stale)), id, fc)
  {
    var r := MisplacedCrcResponse(head, bc, stale);
    assert r[..2] == head[..2];
    SentIsReply(notify, r, id, fc);
  }

  lemma WriteRegistersReplies(t: Tables, id: bv8, buf: seq<bv8>, len: nat)
    requires RtuInput(t, buf, len, buf) && buf[1] == FcWriteMultipleRegisters && buf[0] == id
    ensures var o := RtuWriteRegisters(t, buf, len);
      o == Outcome(t, []) || RtuReply(o.events, id, buf[1])
  {
    RtuFrameHead(buf[..6]);
  }

  /** FC 0x05 writes one coil: it becomes 1 exactly for the value 0xFF00 and 0
      for any other, and no other coil or table changes. */
  lemma RtuWriteCoilSetsOneCoil(t: Tables, id: bv8, buf: seq<bv8>, len: nat, stale: seq<bv8>)
    requires RtuInput(t, buf, len, stale) && RtuFrameOk(id, buf, len) && buf[1] == FcWriteSingleCoil
    ensures var t' := RtuOutcome(t, id, buf, len, stale).tables;
      t'.discreteInputs == t.discreteInputs && t'.holding == t.holding && t'.input == t.input &&
      |t'.coils| == |t.coils| &&
      (forall j :: 0 <= j < |t.coils| && j != WordAt(buf, 2) ==> t'.coils[j] == t.coils[j]) &&
      (WordAt(buf, 2) < |t.coils| ==>
        t'.coils[WordAt(buf, 2)] <= 1 && (t'.coils[WordAt(buf, 2)] == 1 <==> WordAt(buf, 4) == 0xFF00))
  {
    TrailerOkIffResidue(buf, len);
  }

  /** FC 0x06 on an eight-byte frame for an existing register writes that one
      register and echoes the request, itself a frame whose CRC checks. */
  lemma RtuWriteRegisterEchoes(t: Tables, id: bv8, buf: seq<bv8>, stale: seq<bv8>)
    requires RtuInput(t, buf, 8, stale) && RtuFrameOk(id, buf, 8) && buf[1] == FcWriteSingleRegister
    requires WordAt(buf, 2) < |t.holding|
    ensures var o := RtuOutcome(t, id, buf, 8, stale);
      o.tables == t.(holding := t.holding[WordAt(buf, 2) := Word(buf[4], buf[5])]) &&
      o.events == [SingleRegisterWritten(WordAt(buf, 2), Word(buf[4], buf[5])), DeTx, Transmit(buf[..8])] &&
      Crc(o.events[2].bytes) == 0
  {
    TrailerOkIffResidue(buf, 8);
  }

  /** FC 0x10 writes word `i` of the request to register `addr + i`, for every
      `i` below the count, changes no other register or table, and replies with
      the first six request bytes under their own CRC. */
  lemma RtuWriteRegistersWritesWords(t: Tables, id: bv8, buf: seq<bv8>, len: nat, stale: seq<bv8>)
    requires RtuInput(t, buf, len, stale) && RtuFrameOk(id, buf, len) && buf[1] == FcWriteMultipleRegisters
    requires RtuOutcome(t, id, buf, len, stale) != Outcome(t, [])
    ensures var addr, count := WordAt(buf, 2), WordAt(buf, 4);
      var o := RtuOutcome(t, id, buf, len, stale);
      len == 9 + 2 * count && addr + count <= |t.holding| &&
      o.tables.coils == t.coils && o.tables.discreteInputs == t.discreteInputs && o.tables.input == t.input &&
      |o.tables.holding| == |t.holding| &&
      (forall i :: 0 <= i < count ==> o.tables.holding[addr + i] == Word(buf[7 + 2 * i], buf[8 + 2 * i])) &&
      (forall j :: 0 <= j < |t.holding| && !(addr <= j < addr + count) ==> o.tables.holding[j] == t.holding[j]) &&
      o.events[|o.events| - 1] == Transmit(RtuFrame(buf[..6]))
  {
    RtuWriteRegistersRouted(t, id, buf, len, stale);
    HandlerWritesWords(t, buf, len, RtuOutcome(t, id, buf, len, stale));
  }

  /** An FC 0x10 frame that passes the RTU checks goes to the FC 0x10 handler. */
  lemma RtuWriteRegistersRouted(t: Tables, id: bv8, buf: seq<bv8>, len: nat, stale: seq<bv8>)
    requires RtuInput(t, buf, len, stale) && RtuFrameOk(id, buf, len) && buf[1] == FcWriteMultipleRegisters
    ensures RtuOutcome(t, id, buf, len, stale) == RtuWriteRegisters(t, buf, len)
  {
    TrailerOkIffResidue(buf, len);
  }

  /** A request the FC 0x10 handler takes has a consistent length and fits the
      holding registers; the handler replaces the holding registers by the
      written words and ends by sending the echo. */
  lemma WriteRegistersTaken(t: Tables, buf: seq<bv8>, len: nat)
    requires RtuInput(t, buf, len, buf) && RtuWriteRegisters(t, buf, len) != Outcome(t, [])
    ensures var addr, count := WordAt(buf, 2), WordAt(buf, 4);
      var o := RtuWriteRegisters(t, buf, len);
      len == 9 + 2 * count && addr + count <= |t.holding| &&
      o.tables == t.(holding := WriteRegisters(t.holding, addr, ReadWords(buf, 7, count))) &&
      o.events[|o.events| - 1] == Transmit(RtuFrame(buf[..6]))
  {
  }

  /** What the FC 0x10 handler does with a request it takes, stated of its
      outcome `o`. */
  lemma HandlerWritesWords(t: Tables, buf: seq<bv8>, len: nat, o: Outcome)
    requires RtuInput(t, buf, len, buf) && o == RtuWriteRegisters(t, buf, len) && o != Outcome(t, [])
    ensures var addr, count := WordAt(buf, 2), WordAt(buf, 4);
      len == 9 + 2 * count && addr + count <= |t.holding| &&
      o.tables.coils == t.coils && o.tables.discreteInputs == t.discreteInputs && o.tables.input == t.input &&
      |o.tables.holding| == |t.holding| &&
      (forall i :: 0 <= i < count ==> o.tables.holding[addr + i] == Word(buf[7 + 2 * i], buf[8 + 2 * i])) &&
      (forall j :: 0 <= j < |t.holding| && !(addr <= j < addr + count) ==> o.tables.holding[j] == t.holding[j]) &&
      o.events[|o.events| - 1] == Transmit(RtuFrame(buf[..6]))
  {
    WriteRegistersTaken(t, buf, len);
    RegistersWritten(t, buf, WordAt(buf, 2), WordAt(buf, 4));
  }

  /** Writing the request's words changes exactly the registers they address. */
  lemma RegistersWritten(t: Tables, buf: seq<bv8>, addr: nat, count: nat)
    requires 7 + 2 * count <= |buf| && addr + count <= |t.holding|
    ensures var u := t.(holding := WriteRegisters(t.holding, addr, ReadWords(buf, 7, count)));
      u.coils == t.coils && u.discreteInputs == t.discreteInputs && u.input == t.input &&
      |u.holding| == |t.holding| &&
      (forall i :: 0 <= i < count ==> u.holding[addr + i] == Word(buf[7 + 2 * i], buf[8 + 2 * i])) &&
      (forall j :: 0 <= j < |t.holding| && !(addr <= j < addr + count) ==> u.holding[j] == t.holding[j])
  {
    WrittenWords(t.holding, addr, buf, count);
  }

  /** Register `addr + i` receives the word of request bytes `7 + 2i` and `8 + 2i`. */
  lemma WrittenWords(regs: seq<bv16>, addr: nat, buf: seq<bv8>, count: nat)
    requires 7 + 2 * count <= |buf| && addr + count <= |regs|
    ensures var h := WriteRegisters(regs, addr, ReadWords(buf, 7, count));
      forall i :: 0 <= i < count ==> h[addr + i] == Word(buf[7 + 2 * i], buf[8 + 2 * i])
  {
    var words := ReadWords(buf, 7, count);
    var h := WriteRegisters(regs, addr, words);
    forall i | 0 <= i < count
      ensures h[addr + i] == Word(buf[7 + 2 * i], buf[8 + 2 * i])
    {
      assert h[addr + i] == words[i];
      ReadWordsAt(buf, 7, count, i);
    }
  }

  // ---------------------------------------------------------------- TCP

  /** A TCP frame the slave may act on: eight bytes or more, protocol id 0, at
      least `6 + length` bytes (compared in 16 bits), and addressed to `id`. */
  predicate TcpFrameOk(id: bv8, buf: seq<bv8>, len: nat)
    requires 8 <= |buf| && len <= |buf|
  {
    8 <= len && WordAt(buf, 2) == 0 && len >= (6 + WordAt(buf, 4)) % 0x1_0000 && buf[6] == id
  }

  /** The TCP path does something only for a frame that passes the MBAP checks,
      and then it always sends exactly one frame, last. */
  lemma TcpActsOnlyOnValidFrames(t: Tables, id: bv8, buf: seq<bv8>, len: nat)
    requires TablesFit(t) && |buf| == MaxFrame && len <= MaxFrame
    ensures var o := TcpOutcome(t, id, buf, len);
      o == Outcome(t, []) || (TcpFrameOk(id, buf, len) && |o.events| >= 2 &&
        o.events[|o.events| - 2] == DeTx && o.events[|o.events| - 1].Transmit?)
  {
  }

  /** Every TCP reply goes out under the request's MBAP header: the same
      transaction id and unit id, protocol id 0, and a length field counting the
      unit id and the reply PDU, which is the rest of the frame. */
  lemma TcpReplyReusesHeader(t: Tables, id: bv8, buf: seq<bv8>, len: nat)
    requires TablesFit(t) && |buf| == MaxFrame && len <= MaxFrame
    requires TcpOutcome(t, id, buf, len) != Outcome(t, [])
    ensures var e := TcpOutcome(t, id, buf, len).events;
      |e| >= 1 && e[|e| - 1].Transmit? &&
      var f := e[|e| - 1].bytes;
      9 <= |f| <= MaxFrame &&
      f[..2] == buf[..2] && f[2] == 0 && f[3] == 0 && f[6] == buf[6] &&
      WordAt(f, 4) == |f| - 6
  {
    var pduLen := TcpPduLength(WordAt(buf, 4));
    TcpOutcomeTaken(t, id, buf, len);
    var pdu := TcpPdu(t, buf[7..], pduLen).pdu;
    TcpReplyPduBounds(t, buf[7..], pduLen);
    LastFrameHeader(buf, TcpOutcome(t, id, buf, len).events, pdu);
  }

  /** The header facts of a frame built from the request's ids, for an event
      sequence that ends with it. */
  lemma LastFrameHeader(buf: seq<bv8>, e: seq<Event>, pdu: seq<bv8>)
    requires 7 <= |buf| && 2 <= |pdu| <= MaxFrame - 7
    requires |e| >= 1 && e[|e| - 1] == Transmit(TcpFrame(Word(buf[0], buf[1]), buf[6], pdu))
    ensures e[|e| - 1].Transmit? &&
      var f := e[|e| - 1].bytes;
      9 <= |f| <= MaxFrame &&
      f[..2] == buf[..2] && f[2] == 0 && f[3] == 0 && f[6] == buf[6] &&
      WordAt(f, 4) == |f| - 6
  {
    BytesOfWord(buf[0], buf[1]);
    TcpFrameHeader(Word(buf[0], buf[1]), buf[6], pdu);
  }

  /** A TCP frame that is not dropped passed every header check, and its reply
      goes out last. */
  lemma TcpOutcomeTaken(t: Tables, id: bv8, buf: seq<bv8>, len: nat)
    requires TablesFit(t) && |buf| == MaxFrame && len <= MaxFrame
    requires TcpOutcome(t, id, buf, len) != Outcome(t, [])
    ensures var l := WordAt(buf, 4);
      len >= 8 && len >= (6 + l) % 0x1_0000 && TcpPduLength(l) >= 1 &&
      PduLengthReachable(TcpPduLength(l)) &&
      var e := TcpOutcome(t, id, buf, len).events;
      |e| >= 1 && e[|e| - 1] == Transmit(TcpFrame(Word(buf[0], buf[1]), buf[6], TcpPdu(t, buf[7..], TcpPduLength(l)).pdu))
  {
    var l := WordAt(buf, 4);
    PduLengthBound(l, len);
  }

  /** The reply PDU of the TCP switch is two bytes or more and fits a frame. */
  lemma TcpReplyPduBounds(t: Tables, pdu: seq<bv8>, pduLen: nat)
    requires TablesFit(t) && |pdu| == MaxFrame - 7 && PduLengthReachable(pduLen)
    ensures 2 <= |TcpPdu(t, pdu, pduLen).pdu| <= MaxFrame - 7
  {
  }

  /** Section 7 of the Modbus Application Protocol as this slave applies it: 1
      (illegal function) for every code but 0x03, 0x04, 0x06 and 0x10; 3 (illegal
      data value) for a PDU too short to hold its fields and for any refused
      FC 0x10; 2 (illegal data address) for any other refusal. */
  function ExpectedException(fn: bv8, pduLen: nat): bv8 {
    if fn != FcReadHoldingRegisters && fn != FcReadInputRegisters &&
       fn != FcWriteSingleRegister && fn != FcWriteMultipleRegisters then 0x01
    else if fn == FcWriteMultipleRegisters || pduLen < 5 then 0x03
    else 0x02
  }

  /** The TCP switch answers a request either with an exception, which leaves
      the tables alone, runs no callback and carries the code that the function
      code and PDU length alone determine, or with a normal reply that starts
      with the request's function code after exactly one callback. */
  lemma TcpExceptionCodes(t: Tables, pdu: seq<bv8>, pduLen: nat)
    requires TablesFit(t) && |pdu| == MaxFrame - 7 && PduLengthReachable(pduLen)
    ensures var r := TcpPdu(t, pdu, pduLen);
      (r.notify == [] && r.tables == t && r.pdu == ExceptionPdu(pdu[0], ExpectedException(pdu[0], pduLen))) ||
      (|r.notify| == 1 && r.pdu[0] == pdu[0] && pdu[0] & 0x80 == 0 &&
       (pdu[0] == FcWriteSingleRegister || pdu[0] == FcWriteMultipleRegisters ==> r.pdu == pdu[..5]))
  {
  }
}
