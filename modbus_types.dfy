/** Types and wire layouts shared by the Modbus master, the slave and the router
    (`modbus.h`, `modbus_slave.h`): function codes, the request record, the MBAP
    header of the Modbus Messaging on TCP/IP Implementation Guide V1.0b (section
    3.1.3), RTU framing of the Modbus over Serial Line Specification V1.02 (section
    2.5.1), big-endian register words, and the trace of hardware effects. */
module ModbusTypes {
  import opened Bytes
  import opened Crc16

  const FcReadCoils: bv8 := 0x01
  const FcReadDiscreteInputs: bv8 := 0x02
  const FcReadHoldingRegisters: bv8 := 0x03
  const FcReadInputRegisters: bv8 := 0x04
  const FcWriteSingleCoil: bv8 := 0x05
  const FcWriteSingleRegister: bv8 := 0x06
  const FcWriteMultipleCoils: bv8 := 0x0F
  const FcWriteMultipleRegisters: bv8 := 0x10

  /** `MODBUS_MAX_FRAME_SIZE` and the size of every frame buffer in the firmware. */
  const MaxFrame: nat := 256

  datatype Mode = Rtu | Tcp
  datatype Role = Master | Slave

  /** A `UART_HandleTypeDef *`: null, or some peripheral. */
  datatype Uart = NoUart | Port(number: nat)

  /** `ModbusRequest_t`; `writeData` is what `write_data` points to. */
  datatype Request = Request(
    slaveId: bv8,
    transactionId: bv16,
    fc: bv8,
    addr: bv16,
    quantity: bv16,
    writeData: seq<bv16>)

  /** Effects that leave the engines: the RS-485 driver-enable pin, a UART
      transmission, and the user callbacks (which carry no state of the engine). */
  datatype Event =
    | DeTx
    | DeRx
    | Transmit(bytes: seq<bv8>)
    | ResponseReceived(frame: seq<bv8>)
    | ReadCoilsRequested(addr: nat, quantity: nat)
    | ReadDiscreteInputsRequested(addr: nat, quantity: nat)
    | ReadHoldingRegistersRequested(addr: nat, quantity: nat)
    | ReadInputRegistersRequested(addr: nat, quantity: nat)
    | SingleCoilWritten(addr: nat, on: bool)
    | SingleRegisterWritten(addr: nat, value: bv16)
    | MultipleCoilsWritten(addr: nat, packed: seq<bv8>, quantity: nat)
    | MultipleRegistersWritten(addr: nat, values: seq<bv16>)

  /** `(uint16_t)(hi << 8 | lo)` read from two buffer bytes, as a number. */
  function WordAt(buf: seq<bv8>, i: nat): (v: nat)
    requires i + 1 < |buf|
    ensures v < 0x1_0000
  {
    Word(buf[i], buf[i + 1]) as int
  }

  /** Registers as big-endian byte pairs, the register layout of every Modbus PDU. */
  function Words(ws: seq<bv16>): (r: seq<bv8>)
    ensures |r| == 2 * |ws|
  {
    seq(2 * |ws|, k requires 0 <= k < 2 * |ws| => if k % 2 == 0 then Hi(ws[k / 2]) else Lo(ws[k / 2]))
  }

  /** `n` big-endian registers read from `buf` starting at byte `start`. */
  function ReadWords(buf: seq<bv8>, start: nat, n: nat): (r: seq<bv16>)
    requires start + 2 * n <= |buf|
    ensures |r| == n
  {
    seq(n, i requires 0 <= i < n => Word(buf[start + 2 * i], buf[start + 2 * i + 1]))
  }

  /** Register `i` is the word of bytes `start + 2i` and `start + 2i + 1`. */
  lemma ReadWordsAt(buf: seq<bv8>, start: nat, n: nat, i: nat)
    requires start + 2 * n <= |buf| && i < n
    ensures ReadWords(buf, start, n)[i] == Word(buf[start + 2 * i], buf[start + 2 * i + 1])
  {
  }

  /** Appending a register appends its two bytes. */
  lemma WordsSnoc(ws: seq<bv16>, w: bv16)
    ensures Words(ws + [w]) == Words(ws) + [Hi(w), Lo(w)]
  {
    var a, b := Words(ws + [w]), Words(ws) + [Hi(w), Lo(w)];
    forall k | 0 <= k < |a|
      ensures a[k] == b[k]
    {
      if k < 2 * |ws| {
        assert (ws + [w])[k / 2] == ws[k / 2];
      }
    }
  }

  /** Reading back the big-endian bytes of `ws` wherever they sit gives `ws`. */
  lemma ReadWordsOfWords(pre: seq<bv8>, ws: seq<bv16>, post: seq<bv8>)
    ensures ReadWords(pre + Words(ws) + post, |pre|, |ws|) == ws
  {
    var buf := pre + Words(ws) + post;
    forall i | 0 <= i < |ws|
      ensures ReadWords(buf, |pre|, |ws|)[i] == ws[i]
    {
      assert buf[|pre| + 2 * i] == Words(ws)[2 * i];
      assert buf[|pre| + 2 * i + 1] == Words(ws)[2 * i + 1];
      WordOfBytes(ws[i]);
    }
  }

  /** The same, for a buffer that starts with `pre` and the bytes of `ws`. */
  lemma ReadWordsPrefix(pre: seq<bv8>, ws: seq<bv16>, buf: seq<bv8>)
    requires |pre| + 2 * |ws| <= |buf| && buf[..|pre| + 2 * |ws|] == pre + Words(ws)
    ensures ReadWords(buf, |pre|, |ws|) == ws
  {
    var k := |pre| + 2 * |ws|;
    assert buf == pre + Words(ws) + buf[k..] by {
      assert buf == buf[..k] + buf[k..];
    }
    ReadWordsOfWords(pre, ws, buf[k..]);
  }

  /** The MBAP header: transaction id, protocol id 0, the length field (unit id plus
      PDU, truncated to 16 bits) and the unit id. */
  function Mbap(tid: bv16, lengthField: nat, uid: bv8): (h: seq<bv8>)
    ensures |h| == 7
  {
    [Hi(tid), Lo(tid), 0, 0, HiByte(lengthField), Byte(lengthField), uid]
  }

  /** A TCP frame: the MBAP header for `pdu` followed by `pdu`. */
  function TcpFrame(tid: bv16, uid: bv8, pdu: seq<bv8>): (f: seq<bv8>)
    ensures |f| == 7 + |pdu|
  {
    Mbap(tid, 1 + |pdu|, uid) + pdu
  }

  /** The MBAP header of a frame that fits: the transaction id big-endian,
      protocol id 0, the unit id, and a length field counting the rest. */
  lemma TcpFrameHeader(tid: bv16, uid: bv8, pdu: seq<bv8>)
    requires |pdu| < 0x1_0000 - 1
    ensures var f := TcpFrame(tid, uid, pdu);
      f[..2] == [Hi(tid), Lo(tid)] && f[2] == 0 && f[3] == 0 && f[6] == uid && WordAt(f, 4) == |f| - 6
  {
    var f := TcpFrame(tid, uid, pdu);
    LengthFieldValue(f, 1 + |pdu|);
    assert f[..2] == [Hi(tid), Lo(tid)];
  }

  /** A length field written as two truncated bytes reads back as the length. */
  lemma LengthFieldValue(f: seq<bv8>, x: nat)
    requires 6 <= |f| && x < 0x1_0000 && f[4] == HiByte(x) && f[5] == Byte(x)
    ensures WordAt(f, 4) == x
  {
    WordOfInt(x);
    assert Word(f[4], f[5]) == Word(HiByte(x), Byte(x));
  }

  /** An RTU frame: the bytes followed by their CRC, low byte first. */
  function RtuFrame(body: seq<bv8>): (f: seq<bv8>)
    ensures |f| == |body| + 2 && f[..|body|] == body
    ensures Crc(f) == 0
  {
    CrcResidue(body);
    assert (body + Trailer(Crc(body)))[..|body|] == body;
    body + Trailer(Crc(body))
  }

  /** The RTU trailer check of both receivers: the last two of the first `len`
      bytes, read little-endian, equal the CRC of the bytes before them. */
  predicate TrailerOk(buf: seq<bv8>, len: nat)
    requires 2 <= len <= |buf|
  {
    Word(buf[len - 1], buf[len - 2]) == Crc(buf[..len - 2])
  }

  /** The trailer check passes exactly when the CRC of the whole frame is zero. */
  lemma TrailerOkIffResidue(buf: seq<bv8>, len: nat)
    requires 2 <= len <= |buf|
    ensures TrailerOk(buf, len) <==> Crc(buf[..len]) == 0
  {
    assert buf[..len] == buf[..len - 2] + [buf[len - 2], buf[len - 1]];
    TrailerCheck(buf[..len - 2], buf[len - 2], buf[len - 1]);
  }

  /** Every RTU frame, received at the start of a buffer, passes the trailer check. */
  lemma RtuFrameTrailerOk(body: seq<bv8>, buf: seq<bv8>)
    requires |body| + 2 <= |buf| && buf[..|body| + 2] == RtuFrame(body)
    ensures TrailerOk(buf, |body| + 2)
  {
    TrailerOkIffResidue(buf, |body| + 2);
  }
}
