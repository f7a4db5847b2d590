/** The Modbus master engine (`modbus_master.c`): PDU construction for function
    codes 0x01-0x06, 0x0F and 0x10 (sections 6.1-6.6, 6.11 and 6.12 of the Modbus
    Application Protocol Specification V1.1b3), RTU or MBAP framing of a request,
    the validity check on a received response and the response parser, including
    exception responses (section 7 of the Application Protocol). */
module ModbusMaster {
  import opened Bytes
  import opened Crc16
  import opened ModbusTypes

  /** `write_data` must hold the words `build_pdu` reads: one for FC 0x05/0x06, one
      per coil or register for FC 0x0F/0x10. */
  predicate WriteDataFits(req: Request) {
    (req.fc == FcWriteSingleCoil || req.fc == FcWriteSingleRegister ==> |req.writeData| >= 1) &&
    (req.fc == FcWriteMultipleCoils || req.fc == FcWriteMultipleRegisters ==>
      |req.writeData| >= req.quantity as int)
  }

  predicate IsReadFc(fc: bv8) {
    fc == FcReadCoils || fc == FcReadDiscreteInputs || fc == FcReadHoldingRegisters || fc == FcReadInputRegisters
  }

  /** The function codes `build_pdu` knows. */
  predicate Supported(fc: bv8) {
    IsReadFc(fc) || fc == FcWriteSingleCoil || fc == FcWriteSingleRegister ||
    fc == FcWriteMultipleCoils || fc == FcWriteMultipleRegisters
  }

  /** The first `n` bits of the FC 0x0F data byte whose bit `b` is coil `base + b`:
      set when that coil is below the quantity and its word is nonzero. */
  function CoilByte(w: seq<bv16>, q: nat, base: nat, n: nat): bv8
    requires n <= 8 && q <= |w|
    decreases n
  {
    if n == 0 then 0
    else
      var x := CoilByte(w, q, base, n - 1);
      if base + (n - 1) < q && w[base + (n - 1)] != 0 then x | Mask(n - 1) else x
  }

  /** The `(q + 7) / 8` packed data bytes of an FC 0x0F request. */
  function CoilBytes(w: seq<bv16>, q: nat): (r: seq<bv8>)
    requires q <= |w|
    ensures |r| == (q + 7) / 8
  {
    seq((q + 7) / 8, i requires 0 <= i < (q + 7) / 8 => CoilByte(w, q, 8 * i, 8))
  }

  /** The PDU `build_pdu` writes; empty when it returns 0 (unsupported code). */
  function Pdu(req: Request): seq<bv8>
    requires WriteDataFits(req)
  {
    var head := [req.fc, Hi(req.addr), Lo(req.addr)];
    var q := req.quantity as int;
    if IsReadFc(req.fc) then
      head + [Hi(req.quantity), Lo(req.quantity)]
    else if req.fc == FcWriteSingleCoil || req.fc == FcWriteSingleRegister then
      head + [Hi(req.writeData[0]), Lo(req.writeData[0])]
    else if req.fc == FcWriteMultipleCoils then
      head + [Hi(req.quantity), Lo(req.quantity), Byte((q + 7) / 8)] + CoilBytes(req.writeData, q)
    else if req.fc == FcWriteMultipleRegisters then
      head + [Hi(req.quantity), Lo(req.quantity), Byte(2 * q)] + Words(req.writeData[..q])
    else
      []
  }

  /** Bytes of framing around the PDU: slave id and CRC, or the MBAP header. */
  function Overhead(mode: Mode): nat {
    if mode == Rtu then 3 else 7
  }

  /** The request frame fits the 256-byte frame buffer of `send_request`. */
  predicate FrameFits(mode: Mode, req: Request)
    requires WriteDataFits(req)
  {
    |Pdu(req)| + Overhead(mode) <= MaxFrame
  }

  /** The transaction id a TCP request goes out with. */
  function TidUsed(req: Request, counter: bv16): bv16 {
    if req.transactionId == 0 then counter else req.transactionId
  }

  /** The frame `send_request` transmits. */
  function RequestFrame(mode: Mode, tid: bv16, req: Request): seq<bv8>
    requires WriteDataFits(req)
  {
    if mode == Rtu then RtuFrame([req.slaveId] + Pdu(req)) else TcpFrame(tid, req.slaveId, Pdu(req))
  }

  /** `build_pdu`: the header, then the fields of the function code appended one byte
      at a time, with the coil bits and register words packed by loops. */
  method BuildPdu(req: Request) returns (pdu: seq<bv8>)
    requires WriteDataFits(req)
    ensures pdu == Pdu(req)
  {
    pdu := [req.fc, Hi(req.addr), Lo(req.addr)];
    var q := req.quantity as int;
    if IsReadFc(req.fc) {
      pdu := pdu + [Hi(req.quantity), Lo(req.quantity)];
    } else if req.fc == FcWriteSingleCoil || req.fc == FcWriteSingleRegister {
      pdu := pdu + [Hi(req.writeData[0]), Lo(req.writeData[0])];
    } else if req.fc == FcWriteMultipleCoils {
      pdu := pdu + [Hi(req.quantity), Lo(req.quantity), Byte((q + 7) / 8)];
      var bytes := PackCoils(req.writeData, q);
      pdu := pdu + bytes;
      PduCoilBytes(req);
    } else if req.fc == FcWriteMultipleRegisters {
      pdu := pdu + [Hi(req.quantity), Lo(req.quantity), Byte(2 * q)];
      var bytes := PackWords(req.writeData[..q]);
      pdu := pdu + bytes;
      PduRegisterWords(req);
    } else {
      pdu := [];
    }
  }

  /** The FC 0x0F loop over the data bytes. */
  method PackCoils(w: seq<bv16>, q: nat) returns (bytes: seq<bv8>)
    requires q <= |w|
    ensures bytes == CoilBytes(w, q)
  {
    var byteCount := (q + 7) / 8;
    bytes := [];
    for i := 0 to byteCount
      invariant bytes == CoilBytes(w, q)[..i]
    {
      var byte := PackCoilByte(w, q, 8 * i);
      bytes := bytes + [byte];
      assert CoilBytes(w, q)[..i + 1] == CoilBytes(w, q)[..i] + [byte];
    }
    assert CoilBytes(w, q)[..byteCount] == CoilBytes(w, q);
  }

  /** The FC 0x0F loop over the eight bits of one data byte. */
  method PackCoilByte(w: seq<bv16>, q: nat, base: nat) returns (byte: bv8)
    requires q <= |w|
    ensures byte == CoilByte(w, q, base, 8)
  {
    byte := 0;
    for b := 0 to 8
      invariant byte == CoilByte(w, q, base, b)
    {
      var bitIndex := base + b;
      if bitIndex < q && w[bitIndex] != 0 {
        byte := byte | Mask(b);
      }
    }
  }

  /** The FC 0x10 loop writing each register high byte first. */
  method PackWords(ws: seq<bv16>) returns (bytes: seq<bv8>)
    ensures bytes == Words(ws)
  {
    bytes := [];
    for i := 0 to |ws|
      invariant bytes == Words(ws[..i])
    {
      var v := ws[i];
      bytes := bytes + [Hi(v), Lo(v)];
      WordsSnoc(ws[..i], v);
      assert ws[..i + 1] == ws[..i] + [v];
    }
    assert ws[..|ws|] == ws;
  }

  /** Bit `c` of a packed coil byte is coil `base + c`, for the bits packed so far. */
  lemma {:induction false} CoilByteBit(w: seq<bv16>, q: nat, base: nat, n: nat, c: nat)
    requires n <= 8 && q <= |w| && c < 8
    ensures Bit(CoilByte(w, q, base, n), c) <==> c < n && base + c < q && w[base + c] != 0
    decreases n
  {
    if n > 0 {
      CoilByteBit(w, q, base, n - 1, c);
      var x := CoilByte(w, q, base, n - 1);
      SetBit(x, n - 1, c);
    }
  }

  /** FC 0x0F: bit `b` of data byte `i` is set iff coil `8i + b` is below the
      quantity and its word is nonzero. */
  lemma PduCoilBit(req: Request, i: nat, b: nat)
    requires WriteDataFits(req) && req.fc == FcWriteMultipleCoils
    requires i < (req.quantity as int + 7) / 8 && b < 8
    ensures 6 + i < |Pdu(req)|
    ensures Bit(Pdu(req)[6 + i], b) <==>
      8 * i + b < req.quantity as int && req.writeData[8 * i + b] != 0
  {
    var q := req.quantity as int;
    var w := req.writeData;
    PduCoilBytes(req);
    var bytes := CoilBytes(w, q);
    assert Pdu(req)[6 + i] == bytes[i];
    CoilBytesBit(w, q, i, b);
  }

  /** Bit `b` of packed data byte `i` is coil `8i + b`. */
  lemma CoilBytesBit(w: seq<bv16>, q: nat, i: nat, b: nat)
    requires q <= |w| && i < (q + 7) / 8 && b < 8
    ensures Bit(CoilBytes(w, q)[i], b) <==> 8 * i + b < q && w[8 * i + b] != 0
  {
    CoilByteBit(w, q, 8 * i, 8, b);
  }

  /** FC 0x10: the six header bytes, then the registers big-endian. */
  lemma PduRegisterWords(req: Request)
    requires WriteDataFits(req) && req.fc == FcWriteMultipleRegisters
    ensures Pdu(req) == [req.fc, Hi(req.addr), Lo(req.addr)] + [Hi(req.quantity), Lo(req.quantity), Byte(2 * req.quantity as int)] + Words(req.writeData[..req.quantity])
  {
  }

  /** FC 0x0F: the six header bytes, then the packed data bytes. */
  lemma PduCoilBytes(req: Request)
    requires WriteDataFits(req) && req.fc == FcWriteMultipleCoils
    ensures Pdu(req) == [req.fc, Hi(req.addr), Lo(req.addr)] + [Hi(req.quantity), Lo(req.quantity), Byte((req.quantity as int + 7) / 8)] + CoilBytes(req.writeData, req.quantity as int)
  {
  }

  /** The length `build_pdu` returns, per function code. */
  lemma PduLength(req: Request)
    requires WriteDataFits(req)
    ensures IsReadFc(req.fc) || req.fc == FcWriteSingleCoil || req.fc == FcWriteSingleRegister ==>
      |Pdu(req)| == 5
    ensures req.fc == FcWriteMultipleCoils ==> |Pdu(req)| == 6 + (req.quantity as int + 7) / 8
    ensures req.fc == FcWriteMultipleRegisters ==> |Pdu(req)| == 6 + 2 * req.quantity as int
    ensures |Pdu(req)| == 0 <==> !Supported(req.fc)
  {
  }

  /** Decoding the PDU gives back the request: function code, start address,
      quantity or written value, the FC 0x0F byte count and the FC 0x10 words. */
  lemma PduDecodes(req: Request)
    requires WriteDataFits(req) && Supported(req.fc)
    ensures |Pdu(req)| >= 5 && Pdu(req)[0] == req.fc && Word(Pdu(req)[1], Pdu(req)[2]) == req.addr
    ensures req.fc != FcWriteSingleCoil && req.fc != FcWriteSingleRegister ==>
      Word(Pdu(req)[3], Pdu(req)[4]) == req.quantity
    ensures req.fc == FcWriteSingleCoil || req.fc == FcWriteSingleRegister ==>
      Word(Pdu(req)[3], Pdu(req)[4]) == req.writeData[0]
    ensures req.fc == FcWriteMultipleCoils ==> Pdu(req)[5] as int == ((req.quantity as int + 7) / 8) % 256
    ensures req.fc == FcWriteMultipleRegisters ==>
      Pdu(req)[5] as int == (2 * req.quantity as int) % 256 &&
      ReadWords(Pdu(req), 6, req.quantity as int) == req.writeData[..req.quantity]
  {
    var p := Pdu(req);
    WordOfBytes(req.addr);
    WordOfBytes(req.quantity);
    if req.fc == FcWriteSingleCoil || req.fc == FcWriteSingleRegister {
      WordOfBytes(req.writeData[0]);
    }
    if req.fc == FcWriteMultipleRegisters {
      PduWordsDecode(req);
    }
  }

  /** FC 0x10: the byte count and the words read back from the PDU. */
  lemma PduWordsDecode(req: Request)
    requires WriteDataFits(req) && req.fc == FcWriteMultipleRegisters
    ensures |Pdu(req)| >= 6 && Pdu(req)[5] as int == (2 * req.quantity as int) % 256
    ensures ReadWords(Pdu(req), 6, req.quantity as int) == req.writeData[..req.quantity]
  {
    var q := req.quantity as int;
    var head := [req.fc, Hi(req.addr), Lo(req.addr), Hi(req.quantity), Lo(req.quantity), Byte(2 * q)];
    assert Pdu(req) == head + Words(req.writeData[..q]) + [];
    ReadWordsOfWords(head, req.writeData[..q], []);
  }

  /** The master's check of a received response (`modbus_master_handle_response`):
      RTU needs five bytes and a matching CRC trailer; TCP needs eight bytes,
      protocol id 0 and at least `6 + length` bytes, compared in 16 bits. */
  predicate ResponseAccepted(mode: Mode, data: seq<bv8>, len: nat)
    requires len <= |data|
  {
    len != 0 &&
    if mode == Rtu then len >= 5 && TrailerOk(data, len)
    else len >= 8 && WordAt(data, 2) == 0 && len >= (6 + WordAt(data, 4)) % 0x1_0000
  }

  /** The RTU check accepts exactly the frames of five or more bytes whose CRC over
      the whole frame is zero. */
  lemma RtuAcceptedIffResidue(data: seq<bv8>, len: nat)
    requires len <= |data|
    ensures ResponseAccepted(Rtu, data, len) <==> len >= 5 && Crc(data[..len]) == 0
  {
    if len >= 5 {
      TrailerOkIffResidue(data, len);
    }
  }

  /** Any RTU frame with at least slave id, function code and one more byte is
      accepted, whatever follows it in the buffer. */
  lemma RtuFrameAccepted(body: seq<bv8>, data: seq<bv8>)
    requires |body| >= 3 && |body| + 2 <= |data| && data[..|body| + 2] == RtuFrame(body)
    ensures ResponseAccepted(Rtu, data, |body| + 2)
  {
    RtuFrameTrailerOk(body, data);
  }

  /** Any TCP frame with a nonempty PDU that fits a frame buffer is accepted. */
  lemma TcpFrameAccepted(tid: bv16, uid: bv8, pdu: seq<bv8>, data: seq<bv8>)
    requires 1 <= |pdu| && 7 + |pdu| <= |data| && 7 + |pdu| <= MaxFrame
    requires data[..7 + |pdu|] == TcpFrame(tid, uid, pdu)
    ensures ResponseAccepted(Tcp, data, 7 + |pdu|)
  {
    TcpFrameHeader(tid, uid, pdu);
    var f := TcpFrame(tid, uid, pdu);
    assert data[..6] == f[..6];
  }

  /** `ModbusParsedResponse_t` after a successful parse: the exception form, the
      register form of FC 0x03/0x04, or the write acknowledgement form. */
  datatype Parsed =
    | Exception(tid: bv16, slaveId: bv8, fc: bv8, code: bv8)
    | Registers(tid: bv16, slaveId: bv8, fc: bv8, byteCount: bv8, registers: seq<bv16>)
    | WriteAck(tid: bv16, slaveId: bv8, fc: bv8, addr: bv16, value: bv16)

  /** The furthest the parser reads is `data[262]`: the last register byte of a
      TCP response with a byte count of 255, which the length checks let through
      when the 16-bit `6 + length` wraps. */
  const ParseBufferMin: nat := 263

  /** Where the PDU starts, and the byte count the parser allows it. */
  datatype Envelope = Envelope(tid: bv16, slaveId: bv8, start: nat, available: nat)

  /** The header half of `modbus_parse_response`. */
  function ParseEnvelope(mode: Mode, data: seq<bv8>, len: nat): (e: Option<Envelope>)
    requires len <= |data| && len < 0x1_0000 && ParseBufferMin <= |data|
    ensures e.Some? ==> e.value.start <= 7 && e.value.available < 0x1_0000
  {
    if mode == Tcp then
      if len < 8 || WordAt(data, 2) != 0 then None
      else
        var lengthField := WordAt(data, 4);
        if len < (6 + lengthField) % 0x1_0000 then None
        else Some(Envelope(Word(data[0], data[1]), data[6], 7, (lengthField - 1) % 0x1_0000))
    else
      if len < 5 then None
      else Some(Envelope(0, data[0], 1, len - 2))
  }

  /** The PDU half of `modbus_parse_response`, from `data[start]` with `available`
      bytes; `maxByteCount` is the bound its byte-count guard compares with. */
  function ParsePdu(data: seq<bv8>, e: Envelope, maxByteCount: nat): Option<Parsed>
    requires e.start <= 7 && ParseBufferMin <= |data|
  {
    var s := e.start;
    if e.available == 0 then None
    else
      var func := data[s];
      if func & 0x80 != 0 then
        Some(Exception(e.tid, e.slaveId, func & 0x7F, data[s + 1]))
      else if func == FcReadHoldingRegisters || func == FcReadInputRegisters then ParseRegisters(data, e, maxByteCount)
      else if func == FcWriteSingleRegister || func == FcWriteSingleCoil ||
              func == FcWriteMultipleRegisters || func == FcWriteMultipleCoils then
        if e.available < 5 then None
        else Some(WriteAck(e.tid, e.slaveId, func, Word(data[s + 1], data[s + 2]), Word(data[s + 3], data[s + 4])))
      else None
  }

  /** The FC 0x03/0x04 branch of the PDU parser: the byte count after the
      function code, then `byte_count / 2` big-endian registers. */
  function ParseRegisters(data: seq<bv8>, e: Envelope, maxByteCount: nat): Option<Parsed>
    requires e.start <= 7 && ParseBufferMin <= |data|
  {
    var s := e.start;
    if e.available < 2 then None
    else
      var byteCount := data[s + 1];
      var n := byteCount as int;
      if n > maxByteCount || e.available < 2 + n then None
      else Some(Registers(e.tid, e.slaveId, data[s], byteCount, ReadWords(data, s + 2, n / 2)))
  }

  /** A parsed register reply holds `byte_count / 2` registers, and its byte count
      passed the bound. */
  lemma ParseRegistersBound(data: seq<bv8>, e: Envelope, maxByteCount: nat)
    requires e.start <= 7 && ParseBufferMin <= |data|
    ensures var r := ParseRegisters(data, e, maxByteCount);
      r.Some? ==>
        r.value.Registers? && r.value.byteCount as int <= maxByteCount &&
        |r.value.registers| == r.value.byteCount as int / 2
  {
  }

  /** `sizeof(out->read.registers) * 2`: the 256 that the byte count is checked
      against, although a byte count is at most 255. */
  const RegistersGuard: nat := 256

  /** `modbus_parse_response` as written. */
  function Parse(mode: Mode, data: seq<bv8>, len: nat): Option<Parsed>
    requires len <= |data| && len < 0x1_0000 && ParseBufferMin <= |data|
  {
    match ParseEnvelope(mode, data, len)
    case None => None
    case Some(e) => ParsePdu(data, e, RegistersGuard)
  }

  /** The RTU half of `send_request`: slave id, PDU, then the CRC low byte and high
      byte; empty when `build_pdu` returns 0. */
  method FrameRtu(req: Request) returns (frame: seq<bv8>)
    requires WriteDataFits(req) && FrameFits(Rtu, req)
    ensures frame == if Supported(req.fc) then RequestFrame(Rtu, 0, req) else []
  {
    PduLength(req);
    frame := [req.slaveId];
    var pdu := BuildPdu(req);
    if |pdu| == 0 {
      return [];
    }
    frame := frame + pdu;
    var crc := ModbusCrc16(frame, |frame|);
    assert frame[..|frame|] == frame;
    frame := frame + [Lo(crc), Hi(crc)];
  }

  /** The TCP half of `send_request` once the transaction id is chosen: the MBAP
      header and the PDU; empty when `build_pdu` returns 0. */
  method FrameTcp(req: Request, tid: bv16) returns (frame: seq<bv8>)
    requires WriteDataFits(req) && FrameFits(Tcp, req)
    ensures frame == if Supported(req.fc) then RequestFrame(Tcp, tid, req) else []
  {
    PduLength(req);
    var pdu := BuildPdu(req);
    if |pdu| == 0 {
      return [];
    }
    var lengthField := 1 + |pdu|;
    frame := [Hi(tid), Lo(tid), 0x00, 0x00, HiByte(lengthField), Byte(lengthField), req.slaveId];
    frame := frame + pdu;
  }

  /** The master's state: `modbus_uart`, `modbus_mode`, `tcp_tid_counter`, and the
      trace of what it drove onto the bus and handed to the response callback. */
  class Master {
    var mode: Mode
    var uart: Uart
    var tidCounter: bv16
    var trace: seq<Event>

    /** The static initialisers: no UART, RTU, transaction ids from 1. */
    constructor ()
      ensures mode == Rtu && uart == NoUart && tidCounter == 1 && trace == []
    {
      mode := Rtu;
      uart := NoUart;
      tidCounter := 1;
      trace := [];
    }

    /** `modbus_master_init`: RTU on the given UART. */
    method Init(huart: Uart)
      modifies this`uart, this`mode
      ensures uart == huart && mode == Rtu
    {
      uart := huart;
      mode := Rtu;
    }

    /** `modbus_master_init_ex`. */
    method InitEx(huart: Uart, m: Mode)
      modifies this`uart, this`mode
      ensures uart == huart && mode == m
    {
      uart := huart;
      mode := m;
    }

    /** `modbus_master_get_mode`. */
    function GetMode(): (m: Mode)
      reads this
      ensures m == mode
    {
      mode
    }

    /** `modbus_master_send_request`: no UART fails at once; in TCP a zero
        transaction id draws the next counter value before the PDU is built; an
        unsupported function code fails without transmitting; otherwise the frame
        goes out between the two driver-enable edges and the result is the UART's
        status `txOk`. */
    method SendRequest(req: Request, txOk: bool) returns (ok: bool)
      requires WriteDataFits(req) && FrameFits(mode, req)
      modifies this`tidCounter, this`trace
      ensures uart == NoUart ==> !ok && tidCounter == old(tidCounter) && trace == old(trace)
      ensures uart != NoUart && mode == Tcp && req.transactionId == 0 ==> tidCounter == old(tidCounter) + 1
      ensures !(uart != NoUart && mode == Tcp && req.transactionId == 0) ==> tidCounter == old(tidCounter)
      ensures uart != NoUart && !Supported(req.fc) ==> !ok && trace == old(trace)
      ensures uart != NoUart && Supported(req.fc) ==>
        ok == txOk &&
        trace == old(trace) + [DeTx, Transmit(RequestFrame(mode, TidUsed(req, old(tidCounter)), req)), DeRx]
    {
      if uart == NoUart {
        return false;
      }
      var frame: seq<bv8>;
      if mode == Rtu {
        frame := FrameRtu(req);
      } else {
        var tid := req.transactionId;
        if tid == 0 {
          tid := tidCounter;
          tidCounter := tidCounter + 1;
        }
        frame := FrameTcp(req, tid);
      }
      if |frame| == 0 {
        return false;
      }
      trace := trace + [DeTx, Transmit(frame), DeRx];
      ok := txOk;
    }

    /** `modbus_master_handle_response`: the callback receives the frame exactly when
        it passes the check of the current mode. */
    method HandleResponse(data: seq<bv8>, len: nat)
      requires len <= |data| && len < 0x1_0000
      modifies this`trace
      ensures trace == old(trace) + if ResponseAccepted(mode, data, len) then [ResponseReceived(data[..len])] else []
    {
      if len == 0 {
        return;
      }
      if mode == Rtu {
        if len < 5 {
          return;
        }
        var crcCalc := ModbusCrc16(data, len - 2);
        var crcRecv := Word(data[len - 1], data[len - 2]);
        if crcCalc != crcRecv {
          return;
        }
      } else {
        if len < 8 {
          return;
        }
        var pid := WordAt(data, 2);
        if pid != 0 {
          return;
        }
        var lengthField := WordAt(data, 4);
        if len < (6 + lengthField) % 0x1_0000 {
          return;
        }
      }
      trace := trace + [ResponseReceived(data[..len])];
    }

    /** `modbus_parse_response`: the header by mode, then the PDU, with the register
        words of FC 0x03/0x04 copied out by a loop. */
    method ParseResponse(data: seq<bv8>, len: nat) returns (r: Option<Parsed>)
      requires len <= |data| && len < 0x1_0000 && ParseBufferMin <= |data|
      ensures r == Parse(mode, data, len)
    {
      var e := ParseEnvelope(mode, data, len);
      if e.None? {
        return None;
      }
      r := ParseBody(data, e.value);
    }
  }

  /** The PDU half of `modbus_parse_response`. */
  method ParseBody(data: seq<bv8>, env: Envelope) returns (r: Option<Parsed>)
    requires env.start <= 7 && ParseBufferMin <= |data|
    ensures r == ParsePdu(data, env, RegistersGuard)
  {
    var s := env.start;
    if env.available == 0 {
      return None;
    }
    var func := data[s];
    if func & 0x80 != 0 {
      return Some(Exception(env.tid, env.slaveId, func & 0x7F, data[s + 1]));
    }
    if func == FcReadHoldingRegisters || func == FcReadInputRegisters {
      r := ParseRegistersBody(data, env);
      return;
    }
    if func == FcWriteSingleRegister || func == FcWriteSingleCoil ||
       func == FcWriteMultipleRegisters || func == FcWriteMultipleCoils {
      if env.available < 5 {
        return None;
      }
      return Some(WriteAck(env.tid, env.slaveId, func, Word(data[s + 1], data[s + 2]), Word(data[s + 3], data[s + 4])));
    }
    return None;
  }

  /** The FC 0x03/0x04 branch of `modbus_parse_response`. */
  method ParseRegistersBody(data: seq<bv8>, env: Envelope) returns (r: Option<Parsed>)
    requires env.start <= 7 && ParseBufferMin <= |data|
    ensures r == ParseRegisters(data, env, RegistersGuard)
  {
    var s := env.start;
    if env.available < 2 {
      return None;
    }
    var byteCount := data[s + 1];
    var n := byteCount as int;
    if n > RegistersGuard || env.available < 2 + n {
      return None;
    }
    PairsFit(n);
    var registers := CopyRegisters(data, s + 2, n / 2);
    return Some(Registers(env.tid, env.slaveId, data[s], byteCount, registers));
  }

  /** The registers of a byte count below 256 fit in the 263-byte buffer. */
  lemma PairsFit(n: nat)
    requires n < 256
    ensures 9 + 2 * (n / 2) <= ParseBufferMin
  {
  }

  /** The loop copying `quantity` big-endian registers out of the response. */
  method CopyRegisters(data: seq<bv8>, start: nat, quantity: nat) returns (registers: seq<bv16>)
    requires start + 2 * quantity <= |data|
    ensures registers == ReadWords(data, start, quantity)
  {
    registers := [];
    for i := 0 to quantity
      invariant registers == ReadWords(data, start, quantity)[..i]
    {
      registers := registers + [Word(data[start + i * 2], data[start + 1 + i * 2])];
    }
  }
}
