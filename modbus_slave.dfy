/** The Modbus slave engine (`modbus_slave.c`): one received frame is checked, the
    coil and register tables are read or written in place, and a response is
    transmitted. The TCP path answers errors with exception PDUs (section 7 of the
    Modbus Application Protocol V1.1b3); the RTU path drops every bad request
    silently. */
module ModbusSlave {
  import opened Bytes
  import opened Crc16
  import opened ModbusTypes

  /** The largest coil and discrete-input tables for which every access of the
      handler stays inside the 256-byte frame and response buffers (the protocol's
      limit of 1968 coils per write request). */
  const MaxBits: nat := 1968

  /** The largest register tables for which the TCP response to FC 0x03/0x04 fits
      the 256-byte buffer of `send_tcp_response`. */
  const MaxRegisters: nat := 123

  /** The four tables a `modbus_slave_config_t` points to, as values. */
  datatype Tables = Tables(coils: seq<bv8>, discreteInputs: seq<bv8>, holding: seq<bv16>, input: seq<bv16>)

  predicate TablesFit(t: Tables) {
    |t.coils| <= MaxBits && |t.discreteInputs| <= MaxBits &&
    |t.holding| <= MaxRegisters && |t.input| <= MaxRegisters
  }

  /** What handling one frame does: the tables afterwards and the events. */
  datatype Outcome = Outcome(tables: Tables, events: seq<Event>)

  /** `send_response`: driver enable, then the DMA transmission. */
  function Send(bytes: seq<bv8>): seq<Event> {
    [DeTx, Transmit(bytes)]
  }

  /** `send_tcp_response`: the PDU behind an MBAP header with the request's
      transaction and unit ids. */
  function SendTcp(tid: bv16, uid: bv8, pdu: seq<bv8>): seq<Event> {
    Send(TcpFrame(tid, uid, pdu))
  }

  /** `build_exception_pdu`. */
  function ExceptionPdu(fn: bv8, ex: bv8): (p: seq<bv8>)
    ensures |p| == 2 && p[0] & 0x80 == 0x80 && p[0] & 0x7F == fn & 0x7F && p[1] == ex
  {
    [fn | 0x80, ex]
  }

  /** `n` registers from `addr` replaced by `words`; the rest unchanged. */
  function WriteRegisters(regs: seq<bv16>, addr: nat, words: seq<bv16>): (r: seq<bv16>)
    requires addr + |words| <= |regs|
    ensures |r| == |regs|
    ensures forall j :: 0 <= j < |r| ==> r[j] == if addr <= j < addr + |words| then words[j - addr] else regs[j]
  {
    regs[..addr] + words + regs[addr + |words|..]
  }

  // ---------------------------------------------------------------- RTU

  /** Bit `c` of response data byte `p`, which held `x`, once the first `n`
      entries are packed: the entry (nonzero meaning set) when it is one of
      those `n`, the byte's own bit otherwise. */
  function PackedBit(x: bv8, bits: seq<bv8>, n: nat, p: nat, c: nat): bool
    requires n <= |bits| && c < 8
  {
    if 8 * p + c < n then bits[8 * p + c] != 0 else Bit(x, c)
  }

  /** Bits `c` to 7 of that byte, the lower ones clear. */
  function PackedByte(x: bv8, bits: seq<bv8>, n: nat, p: nat, c: nat): bv8
    requires n <= |bits| && c <= 8
    decreases 8 - c
  {
    if c == 8 then 0
    else (if PackedBit(x, bits, n, p, c) then Mask(c) else 0) | PackedByte(x, bits, n, p, c + 1)
  }

  /** Bit `d` of `PackedByte` from bit `c` up is the packed bit, at and above `c`. */
  lemma {:induction false} PackedByteBit(x: bv8, bits: seq<bv8>, n: nat, p: nat, c: nat, d: nat)
    requires n <= |bits| && c <= 8 && d < 8
    ensures Bit(PackedByte(x, bits, n, p, c), d) == (c <= d && PackedBit(x, bits, n, p, d))
    decreases 8 - c
  {
    MaskBit(0, d);
    if c < 8 {
      PackedByteBit(x, bits, n, p, c + 1, d);
      MaskBit(c, d);
      OrBit(if PackedBit(x, bits, n, p, c) then Mask(c) else 0, PackedByte(x, bits, n, p, c + 1), d);
    }
  }

  /** The response buffer after the read-bits loop of FC 0x01/0x02 has packed
      its first `n` entries: entry `i` is bit `i % 8` of byte `3 + i / 8`; the
      header bytes and the bytes the loop has not reached are the buffer's. */
  function PackBits(buf: seq<bv8>, bits: seq<bv8>, n: nat): (r: seq<bv8>)
    requires n <= |bits|
    ensures |r| == |buf|
  {
    seq(|buf|, j requires 0 <= j < |buf| =>
      if j < 3 || n <= 8 * (j - 3) then buf[j] else PackedByte(buf[j], bits, n, j - 3, 0))
  }

  /** After packing `n` entries, bit `c` of data byte `p` is set exactly when
      entry `8 * p + c` is nonzero, for an entry below `n`; every later bit is
      the buffer's. */
  lemma PackBitsBit(buf: seq<bv8>, bits: seq<bv8>, n: nat, p: nat, c: nat)
    requires n <= |bits| && 3 + p < |buf| && c < 8
    ensures Bit(PackBits(buf, bits, n)[3 + p], c) ==
      if 8 * p + c < n then bits[8 * p + c] != 0 else Bit(buf[3 + p], c)
  {
    if 8 * p < n {
      PackedByteBit(buf[3 + p], bits, n, p, 0, c);
    }
  }

  /** Packing entry `i` assigns bit `i % 8` of byte `3 + i / 8`, the way the loop
      body does, and changes nothing else. */
  lemma PackBitsStep(buf: seq<bv8>, bits: seq<bv8>, i: nat)
    requires i < |bits| && 3 + i / 8 < |buf|
    ensures var r, k := PackBits(buf, bits, i), 3 + i / 8;
      PackBits(buf, bits, i + 1) == r[k := AssignBit(r[k], i % 8, bits[i] != 0)]
  {
    var r, k := PackBits(buf, bits, i), 3 + i / 8;
    var a, s := PackBits(buf, bits, i + 1), r[k := AssignBit(r[k], i % 8, bits[i] != 0)];
    forall j | 0 <= j < |buf|
      ensures a[j] == s[j]
    {
      if j >= 3 {
        PackBitsStepAt(buf, bits, i, j - 3);
      } else {
        PackBitsHeader(buf, bits, i + 1, j);
        PackBitsHeader(buf, bits, i, j);
      }
    }
  }

  /** The header bytes are never packed into. */
  lemma PackBitsHeader(buf: seq<bv8>, bits: seq<bv8>, n: nat, j: nat)
    requires n <= |bits| && j < 3 && j < |buf|
    ensures PackBits(buf, bits, n)[j] == buf[j]
  {
  }

  /** One byte of `PackBitsStep`. */
  lemma PackBitsStepAt(buf: seq<bv8>, bits: seq<bv8>, i: nat, p: nat)
    requires i < |bits| && 3 + i / 8 < |buf| && 3 + p < |buf|
    ensures var r, k := PackBits(buf, bits, i), 3 + i / 8;
      PackBits(buf, bits, i + 1)[3 + p] == r[k := AssignBit(r[k], i % 8, bits[i] != 0)][3 + p]
  {
    var r, k := PackBits(buf, bits, i), 3 + i / 8;
    var x, y := PackBits(buf, bits, i + 1)[3 + p], r[k := AssignBit(r[k], i % 8, bits[i] != 0)][3 + p];
    forall c | 0 <= c < 8
      ensures Bit(x, c) == Bit(y, c)
    {
      PackBitsStepBit(buf, bits, i, p, c);
    }
    BitsDetermineByte(x, y);
  }

  /** One bit of `PackBitsStep`. */
  lemma PackBitsStepBit(buf: seq<bv8>, bits: seq<bv8>, i: nat, p: nat, c: nat)
    requires i < |bits| && 3 + i / 8 < |buf| && 3 + p < |buf| && c < 8
    ensures var r, k := PackBits(buf, bits, i), 3 + i / 8;
      Bit(PackBits(buf, bits, i + 1)[3 + p], c) == Bit(r[k := AssignBit(r[k], i % 8, bits[i] != 0)][3 + p], c)
  {
    var r, k := PackBits(buf, bits, i), 3 + i / 8;
    if 3 + p == k {
      PackBitsStepHere(buf, bits, i, c);
    } else {
      assert r[k := AssignBit(r[k], i % 8, bits[i] != 0)][3 + p] == r[3 + p];
      PackBitsStepElsewhere(buf, bits, i, p, c);
    }
  }

  /** The byte the step writes: bit `i % 8` takes entry `i`, the others stay. */
  lemma PackBitsStepHere(buf: seq<bv8>, bits: seq<bv8>, i: nat, c: nat)
    requires i < |bits| && 3 + i / 8 < |buf| && c < 8
    ensures var x := PackBits(buf, bits, i)[3 + i / 8];
      Bit(PackBits(buf, bits, i + 1)[3 + i / 8], c) == Bit(AssignBit(x, i % 8, bits[i] != 0), c)
  {
    var p := i / 8;
    PackBitsBit(buf, bits, i + 1, p, c);
    PackBitsBit(buf, bits, i, p, c);
    EntryPosition(i, p, c);
    AssignedBit(PackBits(buf, bits, i)[3 + p], i % 8, bits[i] != 0, c);
  }

  /** Every other byte is the same after the step. */
  lemma PackBitsStepElsewhere(buf: seq<bv8>, bits: seq<bv8>, i: nat, p: nat, c: nat)
    requires i < |bits| && 3 + p < |buf| && p != i / 8 && c < 8
    ensures Bit(PackBits(buf, bits, i + 1)[3 + p], c) == Bit(PackBits(buf, bits, i)[3 + p], c)
  {
    PackBitsBit(buf, bits, i + 1, p, c);
    PackBitsBit(buf, bits, i, p, c);
    EntryPosition(i, p, c);
  }

  /** Entry `i` lands in bit `c` of data byte `p` exactly when `i` is `8 * p + c`. */
  lemma EntryPosition(i: nat, p: nat, c: nat)
    requires c < 8
    ensures (i / 8 == p && i % 8 == c) <==> i == 8 * p + c
  {
  }

  /** The bytes of the RTU FC 0x01/0x02 response in front of its CRC: id, function
      code and byte count written over the uninitialised response buffer `stale`,
      and the bits packed into it. */
  function ReadBitsData(id: bv8, fc: bv8, bits: seq<bv8>, stale: seq<bv8>): seq<bv8>
    requires |bits| <= MaxBits && |stale| == MaxFrame
  {
    var bc := (|bits| + 7) / 8;
    PackBits([id, fc, Byte(bc)] + stale[3..], bits, |bits|)[..3 + bc]
  }

  /** The RTU FC 0x01/0x02 response: its data, then the CRC of the first
      `3 + byte_count` bytes. */
  function ReadBitsResponse(id: bv8, fc: bv8, bits: seq<bv8>, stale: seq<bv8>): seq<bv8>
    requires |bits| <= MaxBits && |stale| == MaxFrame
  {
    RtuFrame(ReadBitsData(id, fc, bits, stale))
  }

  /** The response is the buffer holding the header over `stale`, packed and
      closed after its data bytes. */
  lemma ReadBitsResponsePacked(id: bv8, fc: bv8, bits: seq<bv8>, stale: seq<bv8>, init: seq<bv8>, packed: seq<bv8>, frame: seq<bv8>)
    requires |bits| <= MaxBits && |stale| == MaxFrame
    requires init == [id, fc, Byte((|bits| + 7) / 8)] + stale[3..]
    requires packed == PackBits(init, bits, |bits|)
    requires frame == RtuFrame(packed[..3 + (|bits| + 7) / 8])
    ensures frame == ReadBitsResponse(id, fc, bits, stale)
  {
  }

  /** The RTU FC 0x05/0x0F response as written: the first six bytes echo the
      request, the CRC of those six bytes goes to positions `3 + bc` and `4 + bc`
      of the response buffer (with `bc` 0 for FC 0x05 and the request's byte count
      for FC 0x0F), and eight bytes are sent. */
  function MisplacedCrcResponse(head: seq<bv8>, bc: bv8, stale: seq<bv8>): (r: seq<bv8>)
    requires |head| == 6 && |stale| == MaxFrame
    ensures |r| == 8
  {
    var c := Crc(head);
    var r0 := head + stale[6..];
    var r1 := if 3 + bc as int < MaxFrame then r0[3 + bc as int := Lo(c)] else r0;
    var r2 := if 4 + bc as int < MaxFrame then r1[4 + bc as int := Hi(c)] else r1;
    r2[..8]
  }

  /** The coils after an FC 0x0F request: coil `addr + i` takes bit `i % 8` of
      request byte `7 + i / 8`, as 0 or 1. */
  function UnpackCoils(coils: seq<bv8>, addr: nat, q: nat, buf: seq<bv8>): (r: seq<bv8>)
    requires addr + q <= |coils| && 7 + (q + 7) / 8 <= |buf|
    ensures |r| == |coils|
  {
    seq(|coils|, j requires 0 <= j < |coils| =>
      if addr <= j < addr + q then (if Bit(buf[7 + (j - addr) / 8], (j - addr) % 8) then 1 else 0)
      else coils[j])
  }

  /** The preconditions every handler shares: a full receive buffer holding `len`
      valid bytes, tables within bounds, and the 256-byte response buffer. */
  predicate RtuInput(t: Tables, buf: seq<bv8>, len: nat, stale: seq<bv8>) {
    TablesFit(t) && |buf| == MaxFrame && len <= MaxFrame && |stale| == MaxFrame
  }

  /** FC 0x01/0x02: out-of-range requests are dropped; otherwise the callback, then
      the response. */
  function RtuReadBits(t: Tables, id: bv8, buf: seq<bv8>, stale: seq<bv8>): Outcome
    requires RtuInput(t, buf, 0, stale) && (buf[1] == FcReadCoils || buf[1] == FcReadDiscreteInputs)
  {
    var addr := WordAt(buf, 2);
    var q := WordAt(buf, 4);
    var table := if buf[1] == FcReadCoils then t.coils else t.discreteInputs;
    if addr + q > |table| then Outcome(t, [])
    else
      var notify := if buf[1] == FcReadCoils then ReadCoilsRequested(addr, q) else ReadDiscreteInputsRequested(addr, q);
      Outcome(t, [notify] + Send(ReadBitsResponse(id, buf[1], table[addr..addr + q], stale)))
  }

  /** The RTU response of FC 0x03/0x04: id, function code, byte count, the
      registers big-endian, then the CRC. */
  function RegistersResponse(id: bv8, fc: bv8, regs: seq<bv16>): seq<bv8> {
    RtuFrame([id, fc, Byte(2 * |regs|)] + Words(regs))
  }

  /** An FC 0x01/0x02 request within the table: the callback, then the response. */
  lemma ReadBitsSent(t: Tables, id: bv8, buf: seq<bv8>, stale: seq<bv8>)
    requires RtuInput(t, buf, 0, stale) && (buf[1] == FcReadCoils || buf[1] == FcReadDiscreteInputs)
    requires WordAt(buf, 2) + WordAt(buf, 4) <= |if buf[1] == FcReadCoils then t.coils else t.discreteInputs|
    ensures var addr, q := WordAt(buf, 2), WordAt(buf, 4);
      var table := if buf[1] == FcReadCoils then t.coils else t.discreteInputs;
      var notify := if buf[1] == FcReadCoils then ReadCoilsRequested(addr, q) else ReadDiscreteInputsRequested(addr, q);
      RtuReadBits(t, id, buf, stale) == Outcome(t, [notify] + Send(ReadBitsResponse(id, buf[1], table[addr..addr + q], stale)))
  {
  }

  lemma ReadBitsDropped(t: Tables, id: bv8, buf: seq<bv8>, stale: seq<bv8>)
    requires RtuInput(t, buf, 0, stale) && (buf[1] == FcReadCoils || buf[1] == FcReadDiscreteInputs)
    requires WordAt(buf, 2) + WordAt(buf, 4) > |if buf[1] == FcReadCoils then t.coils else t.discreteInputs|
    ensures RtuReadBits(t, id, buf, stale) == Outcome(t, [])
  {
  }

  /** FC 0x03: needs an 8-byte frame and `1 <= count`, `addr + count <= holding`. */
  function RtuReadHolding(t: Tables, id: bv8, buf: seq<bv8>, len: nat): Outcome
    requires RtuInput(t, buf, len, buf)
  {
    var addr := WordAt(buf, 2);
    var count := WordAt(buf, 4);
    if len != 8 || addr + count > |t.holding| || count == 0 then Outcome(t, [])
    else
      Outcome(t, [ReadHoldingRegistersRequested(addr, count)] +
        Send(RegistersResponse(id, FcReadHoldingRegisters, t.holding[addr..addr + count])))
  }

  /** FC 0x04: only `addr + quantity <= input` is checked. */
  function RtuReadInput(t: Tables, id: bv8, buf: seq<bv8>): Outcome
    requires RtuInput(t, buf, 0, buf)
  {
    var addr := WordAt(buf, 2);
    var q := WordAt(buf, 4);
    if addr + q > |t.input| then Outcome(t, [])
    else
      Outcome(t, [ReadInputRegistersRequested(addr, q)] +
        Send(RegistersResponse(id, FcReadInputRegisters, t.input[addr..addr + q])))
  }

  /** FC 0x05: coil `addr` becomes 1 for the value 0xFF00 and 0 for any other. */
  function RtuWriteCoil(t: Tables, buf: seq<bv8>, stale: seq<bv8>): Outcome
    requires RtuInput(t, buf, 0, stale)
  {
    var addr := WordAt(buf, 2);
    if addr >= |t.coils| then Outcome(t, [])
    else
      var on := WordAt(buf, 4) == 0xFF00;
      Outcome(t.(coils := t.coils[addr := if on then 1 else 0]),
        [SingleCoilWritten(addr, on)] + Send(MisplacedCrcResponse(buf[..6], 0, stale)))
  }

  /** FC 0x06: needs an 8-byte frame and `addr < holding`; echoes the request. */
  function RtuWriteRegister(t: Tables, buf: seq<bv8>, len: nat): Outcome
    requires RtuInput(t, buf, len, buf)
  {
    var addr := WordAt(buf, 2);
    if len != 8 || addr >= |t.holding| then Outcome(t, [])
    else
      var v := Word(buf[4], buf[5]);
      Outcome(t.(holding := t.holding[addr := v]), [SingleRegisterWritten(addr, v)] + Send(buf[..len]))
  }

  /** FC 0x0F: only `addr + quantity <= coils` is checked; the byte count is not. */
  function RtuWriteCoils(t: Tables, id: bv8, buf: seq<bv8>, stale: seq<bv8>): Outcome
    requires RtuInput(t, buf, 0, stale)
  {
    var addr := WordAt(buf, 2);
    var q := WordAt(buf, 4);
    if addr + q > |t.coils| then Outcome(t, [])
    else
      Outcome(t.(coils := UnpackCoils(t.coils, addr, q, buf)),
        [MultipleCoilsWritten(addr, buf[7..7 + (q + 7) / 8], q)] +
        Send(MisplacedCrcResponse([id, FcWriteMultipleCoils] + buf[2..6], buf[6], stale)))
  }

  /** FC 0x10: needs `len >= 9`, `addr + count <= holding`, a byte count of
      `2 * count` and `len == 9 + byte count`; replies with the first six request
      bytes and their CRC. */
  function RtuWriteRegisters(t: Tables, buf: seq<bv8>, len: nat): Outcome
    requires RtuInput(t, buf, len, buf)
  {
    var addr := WordAt(buf, 2);
    var count := WordAt(buf, 4);
    if len < 9 || addr + count > |t.holding| || buf[6] as int != 2 * count || len != 9 + buf[6] as int then
      Outcome(t, [])
    else
      var words := ReadWords(buf, 7, count);
      Outcome(t.(holding := WriteRegisters(t.holding, addr, words)),
        [MultipleRegistersWritten(addr, words)] + Send(RtuFrame(buf[..6])))
  }

  /** The switch of the RTU path; unknown function codes are dropped. */
  function RtuDispatch(t: Tables, id: bv8, buf: seq<bv8>, len: nat, stale: seq<bv8>): Outcome
    requires RtuInput(t, buf, len, stale)
  {
    var fc := buf[1];
    if fc == FcReadCoils || fc == FcReadDiscreteInputs then RtuReadBits(t, id, buf, stale)
    else if fc == FcReadHoldingRegisters then RtuReadHolding(t, id, buf, len)
    else if fc == FcReadInputRegisters then RtuReadInput(t, id, buf)
    else if fc == FcWriteSingleCoil then RtuWriteCoil(t, buf, stale)
    else if fc == FcWriteSingleRegister then RtuWriteRegister(t, buf, len)
    else if fc == FcWriteMultipleCoils then RtuWriteCoils(t, id, buf, stale)
    else if fc == FcWriteMultipleRegisters then RtuWriteRegisters(t, buf, len)
    else Outcome(t, [])
  }

  /** The RTU path of `modbus_slave_handle_frame`: frames shorter than five bytes,
      for another slave, or with a bad CRC are dropped; the rest go to the switch. */
  function RtuOutcome(t: Tables, id: bv8, buf: seq<bv8>, len: nat, stale: seq<bv8>): Outcome
    requires RtuInput(t, buf, len, stale)
  {
    if len < 5 || buf[0] != id || !TrailerOk(buf, len) then Outcome(t, [])
    else RtuDispatch(t, id, buf, len, stale)
  }

  // ---------------------------------------------------------------- TCP

  /** The PDU length as written: `(uint16_t)(l - 1)`, which wraps to 65535 for a
      length field of 0. */
  function TcpPduLength(l: nat): (n: nat)
    requires l < 0x1_0000
    ensures n < 0x1_0000
  {
    (l - 1) % 0x1_0000
  }

  /** The PDU lengths the TCP path can reach: the length field minus one for a frame
      that fits, or a value the 16-bit arithmetic wrapped. */
  predicate PduLengthReachable(pduLen: nat) {
    pduLen <= MaxFrame - 7 || pduLen >= 0x1_0000 - 7
  }

  /** What the switch of the TCP path produces: the tables afterwards, the callback
      events, and the response PDU that `send_tcp_response` then frames. */
  datatype TcpReply = TcpReply(tables: Tables, notify: seq<Event>, pdu: seq<bv8>)

  /** A length field that passed the `len >= 6 + l` check leaves a PDU length
      inside the received frame, or one the subtraction wrapped. */
  lemma PduLengthBound(l: nat, len: nat)
    requires l < 0x1_0000 && len <= MaxFrame && len >= (6 + l) % 0x1_0000
    ensures PduLengthReachable(TcpPduLength(l))
    ensures TcpPduLength(l) <= MaxFrame - 7 ==> 7 + TcpPduLength(l) <= len
  {
  }

  /** FC 0x03/0x04 over TCP: exception 3 for a short PDU, exception 2 for count 0
      or a range past the table. */
  function TcpRead(t: Tables, pdu: seq<bv8>, pduLen: nat): TcpReply
    requires TablesFit(t) && |pdu| == MaxFrame - 7
    requires pdu[0] == FcReadHoldingRegisters || pdu[0] == FcReadInputRegisters
  {
    var fn := pdu[0];
    if pduLen < 5 then TcpReply(t, [], ExceptionPdu(fn, 0x03))
    else
      var addr := WordAt(pdu, 1);
      var count := WordAt(pdu, 3);
      var table := if fn == FcReadHoldingRegisters then t.holding else t.input;
      if count == 0 || addr + count > |table| then TcpReply(t, [], ExceptionPdu(fn, 0x02))
      else
        var notify := if fn == FcReadHoldingRegisters then ReadHoldingRegistersRequested(addr, count)
                      else ReadInputRegistersRequested(addr, count);
        TcpReply(t, [notify], [fn, Byte(2 * count)] + Words(table[addr..addr + count]))
  }

  /** FC 0x06 over TCP: exception 3 for a short PDU, 2 for an address past the
      table; otherwise the write and an echo of the first five PDU bytes. */
  function TcpWriteRegister(t: Tables, pdu: seq<bv8>, pduLen: nat): TcpReply
    requires TablesFit(t) && |pdu| == MaxFrame - 7
  {
    var fn := pdu[0];
    if pduLen < 5 then TcpReply(t, [], ExceptionPdu(fn, 0x03))
    else
      var addr := WordAt(pdu, 1);
      var v := Word(pdu[3], pdu[4]);
      if addr >= |t.holding| then TcpReply(t, [], ExceptionPdu(fn, 0x02))
      else TcpReply(t.(holding := t.holding[addr := v]), [SingleRegisterWritten(addr, v)], pdu[..5])
  }

  /** FC 0x10 over TCP: exception 3 for a short PDU, for a byte count other than
      `2 * count`, for a PDU length other than `6 + byte count`, or for a range
      past the table. */
  function TcpWriteRegisters(t: Tables, pdu: seq<bv8>, pduLen: nat): TcpReply
    requires TablesFit(t) && |pdu| == MaxFrame - 7 && PduLengthReachable(pduLen)
  {
    var fn := pdu[0];
    if pduLen < 6 then TcpReply(t, [], ExceptionPdu(fn, 0x03))
    else
      var addr := WordAt(pdu, 1);
      var count := WordAt(pdu, 3);
      var bc := pdu[5];
      if bc as int != 2 * count || pduLen != 6 + bc as int || addr + count > |t.holding| then
        TcpReply(t, [], ExceptionPdu(fn, 0x03))
      else
        var words := ReadWords(pdu, 6, count);
        TcpReply(t.(holding := WriteRegisters(t.holding, addr, words)), [MultipleRegistersWritten(addr, words)], pdu[..5])
  }

  /** The switch of the TCP path; any other function code, the coil codes
      included, gets exception 1. */
  function TcpPdu(t: Tables, pdu: seq<bv8>, pduLen: nat): TcpReply
    requires TablesFit(t) && |pdu| == MaxFrame - 7 && PduLengthReachable(pduLen)
  {
    var fn := pdu[0];
    if fn == FcReadHoldingRegisters || fn == FcReadInputRegisters then TcpRead(t, pdu, pduLen)
    else if fn == FcWriteSingleRegister then TcpWriteRegister(t, pdu, pduLen)
    else if fn == FcWriteMultipleRegisters then TcpWriteRegisters(t, pdu, pduLen)
    else TcpReply(t, [], ExceptionPdu(fn, 0x01))
  }

  /** The TCP path of `modbus_slave_handle_frame`: frames shorter than eight bytes,
      with a nonzero protocol id, shorter than `6 + length` (in 16 bits), for
      another unit, or with a PDU length below 1 are dropped; otherwise the reply
      PDU goes out under the request's transaction and unit ids. */
  function TcpOutcome(t: Tables, id: bv8, buf: seq<bv8>, len: nat): Outcome
    requires TablesFit(t) && |buf| == MaxFrame && len <= MaxFrame
  {
    if len < 8 || WordAt(buf, 2) != 0 then Outcome(t, [])
    else
      var l := WordAt(buf, 4);
      if len < (6 + l) % 0x1_0000 || buf[6] != id then Outcome(t, [])
      else
        var pduLen := TcpPduLength(l);
        if pduLen < 1 then Outcome(t, [])
        else
          PduLengthBound(l, len);
          var r := TcpPdu(t, buf[7..], pduLen);
          Outcome(r.tables, r.notify + SendTcp(Word(buf[0], buf[1]), buf[6], r.pdu))
  }

  /** `modbus_slave_handle_frame`. */
  function Handle(mode: Mode, t: Tables, id: bv8, buf: seq<bv8>, len: nat, stale: seq<bv8>): Outcome
    requires RtuInput(t, buf, len, stale)
  {
    if len == 0 then Outcome(t, [])
    else if mode == Tcp then TcpOutcome(t, id, buf, len)
    else RtuOutcome(t, id, buf, len, stale)
  }

  // ---------------------------------------------------------------- the engine

  /** `modbus_slave_config_t` without its callbacks: the slave id and the four
      tables, whose lengths stand for the `*_count` fields. */
  datatype Config = Config(
    id: bv8,
    coils: array<bv8>,
    discreteInputs: array<bv8>,
    holding: array<bv16>,
    input: array<bv16>)

  /** The tables are within the bounds every handler needs and do not overlap. */
  predicate ConfigFits(c: Config) {
    c.coils.Length <= MaxBits && c.discreteInputs.Length <= MaxBits &&
    c.holding.Length <= MaxRegisters && c.input.Length <= MaxRegisters &&
    c.coils != c.discreteInputs && c.holding != c.input
  }

  /** The loop of FC 0x01/0x02: entry `addr + i` of `table` goes into bit `i % 8` of
      `response[3 + i / 8]`. */
  method PackBitsInto(response: array<bv8>, table: array<bv8>, addr: nat, q: nat)
    requires response != table && addr + q <= table.Length && 3 + (q + 7) / 8 <= response.Length
    modifies response
    ensures response[..] == PackBits(old(response[..]), table[addr..addr + q], q)
  {
    ghost var bits, init := table[addr..addr + q], response[..];
    for i := 0 to q
      invariant response[..] == PackBits(init, bits, i)
    {
      PackBitAt(response, table, addr, q, init, bits, i);
    }
  }

  /** One pass of the packing loop: entry `i` goes into its bit. */
  method PackBitAt(response: array<bv8>, table: array<bv8>, addr: nat, q: nat, ghost init: seq<bv8>, ghost bits: seq<bv8>, i: nat)
    requires response != table && addr + q <= table.Length && 3 + (q + 7) / 8 <= response.Length
    requires bits == table[addr..addr + q] && |init| == response.Length && i < q
    requires response[..] == PackBits(init, bits, i)
    modifies response
    ensures response[..] == PackBits(init, bits, i + 1)
  {
    assert bits[i] == table[addr + i];
    EntryByteFits(i, q);
    PackBitsStep(init, bits, i);
    AssignBitAt(response, 3 + i / 8, i % 8, table[addr + i] != 0);
  }

  /** Entry `i` of `q` falls in one of the `(q + 7) / 8` data bytes. */
  lemma EntryByteFits(i: nat, q: nat)
    requires i < q
    ensures i / 8 < (q + 7) / 8
  {
  }

  /** `response[k] |= (1 << b)` when `on`, `response[k] &= ~(1 << b)` otherwise. */
  method AssignBitAt(response: array<bv8>, k: nat, b: nat, on: bool)
    requires k < response.Length && b < 8
    modifies response
    ensures response[..] == old(response[..])[k := AssignBit(old(response[..])[k], b, on)]
  {
    response[k] := AssignBit(response[k], b, on);
  }

  /** The loop of FC 0x0F: coil `addr + i` takes `(frame[7 + i / 8] >> (i % 8)) & 1`. */
  method UnpackCoilsInto(coils: array<bv8>, addr: nat, q: nat, buf: seq<bv8>)
    requires addr + q <= coils.Length && 7 + (q + 7) / 8 <= |buf|
    modifies coils
    ensures coils[..] == UnpackCoils(old(coils[..]), addr, q, buf)
  {
    for i := 0 to q
      invariant forall j :: 0 <= j < coils.Length ==>
        coils[j] == (if addr <= j < addr + i then (if Bit(buf[7 + (j - addr) / 8], (j - addr) % 8) then 1 else 0)
                     else old(coils[j]))
    {
      ShiftedBit(buf[7 + i / 8], i % 8);
      var bit := (buf[7 + i / 8] >> (i % 8)) & 0x01;
      coils[addr + i] := bit;
    }
  }

  /** The loops writing `count` big-endian words of `src`, from byte `start`, into
      registers `addr` onwards. */
  method WriteRegistersFrom(regs: array<bv16>, addr: nat, src: seq<bv8>, start: nat, count: nat)
    requires addr + count <= regs.Length && start + 2 * count <= |src|
    modifies regs
    ensures regs[..] == WriteRegisters(old(regs[..]), addr, ReadWords(src, start, count))
  {
    for i := 0 to count
      invariant forall j :: 0 <= j < regs.Length ==>
        regs[j] == (if addr <= j < addr + i then Word(src[start + 2 * (j - addr)], src[start + 2 * (j - addr) + 1])
                    else old(regs[j]))
    {
      regs[addr + i] := Word(src[start + 2 * i], src[start + 2 * i + 1]);
    }
  }

  /** The loops copying `count` registers from `addr` into a response, big-endian. */
  method RegisterBytes(regs: array<bv16>, addr: nat, count: nat) returns (bytes: seq<bv8>)
    requires addr + count <= regs.Length
    ensures bytes == Words(regs[addr..addr + count])
  {
    bytes := [];
    for i := 0 to count
      invariant bytes == Words(regs[addr..addr + i])
    {
      var v := regs[addr + i];
      assert regs[addr..addr + i + 1] == regs[addr..addr + i] + [v];
      WordsSnoc(regs[addr..addr + i], v);
      bytes := bytes + [Hi(v), Lo(v)];
    }
  }

  /** The response of FC 0x01/0x02 built in a fresh buffer holding `stale`. */
  method ReadBitsFrame(id: bv8, fc: bv8, table: array<bv8>, addr: nat, q: nat, stale: seq<bv8>) returns (frame: seq<bv8>)
    requires addr + q <= table.Length && q <= MaxBits && |stale| == MaxFrame
    ensures frame == ReadBitsResponse(id, fc, table[addr..addr + q], stale)
  {
    var byteCount := (q + 7) / 8;
    ghost var bits := table[addr..addr + q];
    var response := ResponseBuffer(stale, [id, fc, Byte(byteCount)]);
    ghost var init := response[..];
    assert |bits| == q && init == [id, fc, Byte(byteCount)] + stale[3..];
    PackBitsInto(response, table, addr, q);
    ghost var packed := response[..];
    assert response[..3 + byteCount] == packed[..3 + byteCount];
    frame := CloseRtu(response, 3 + byteCount);
    ReadBitsResponsePacked(id, fc, bits, stale, init, packed, frame);
  }

  /** The events of FC 0x01/0x02 over RTU, reading the bits from `table`, the
      coils or the discrete inputs as the function code says. */
  method ReadBitsEvents(ghost t: Tables, id: bv8, buf: seq<bv8>, stale: seq<bv8>, table: array<bv8>) returns (events: seq<Event>)
    requires RtuInput(t, buf, 0, stale) && (buf[1] == FcReadCoils || buf[1] == FcReadDiscreteInputs)
    requires table[..] == if buf[1] == FcReadCoils then t.coils else t.discreteInputs
    ensures events == RtuReadBits(t, id, buf, stale).events
  {
    var addr := WordAt(buf, 2);
    var q := WordAt(buf, 4);
    if addr + q > table.Length {
      ReadBitsDropped(t, id, buf, stale);
      return [];
    }
    var frame := ReadBitsFrame(id, buf[1], table, addr, q, stale);
    var notify := if buf[1] == FcReadCoils then ReadCoilsRequested(addr, q) else ReadDiscreteInputsRequested(addr, q);
    ghost var bits := (if buf[1] == FcReadCoils then t.coils else t.discreteInputs)[addr..addr + q];
    assert table[addr..addr + q] == bits;
    assert frame == ReadBitsResponse(id, buf[1], bits, stale);
    events := [notify] + Send(frame);
    ReadBitsSent(t, id, buf, stale);
  }

  /** FC 0x0F over RTU on the coils array: the coils afterwards and the events. */
  method WriteCoilsEvents(ghost t: Tables, id: bv8, buf: seq<bv8>, stale: seq<bv8>, coils: array<bv8>) returns (events: seq<Event>)
    requires RtuInput(t, buf, 0, stale) && coils[..] == t.coils
    modifies coils
    ensures coils[..] == RtuWriteCoils(t, id, buf, stale).tables.coils
    ensures events == RtuWriteCoils(t, id, buf, stale).events
  {
    var addr := WordAt(buf, 2);
    var q := WordAt(buf, 4);
    var byteCount := buf[6];
    if addr + q > coils.Length {
      return [];
    }
    UnpackCoilsInto(coils, addr, q, buf);
    var frame := MisplacedFrame([id, FcWriteMultipleCoils] + buf[2..6], byteCount, stale);
    events := [MultipleCoilsWritten(addr, buf[7..7 + (q + 7) / 8], q)] + Send(frame);
  }

  /** FC 0x03/0x04 over TCP on `table`, the holding or the input registers as
      the function code says. */
  method TcpReadReply(ghost t: Tables, pdu: seq<bv8>, pduLen: nat, table: array<bv16>) returns (resp: seq<bv8>, notify: seq<Event>)
    requires TablesFit(t) && |pdu| == MaxFrame - 7
    requires pdu[0] == FcReadHoldingRegisters || pdu[0] == FcReadInputRegisters
    requires table[..] == if pdu[0] == FcReadHoldingRegisters then t.holding else t.input
    ensures resp == TcpRead(t, pdu, pduLen).pdu && notify == TcpRead(t, pdu, pduLen).notify
  {
    var fn := pdu[0];
    if pduLen < 5 {
      return ExceptionPdu(fn, 0x03), [];
    }
    var addr := WordAt(pdu, 1);
    var count := WordAt(pdu, 3);
    if count == 0 || addr + count > table.Length {
      return ExceptionPdu(fn, 0x02), [];
    }
    if fn == FcReadHoldingRegisters {
      notify := [ReadHoldingRegistersRequested(addr, count)];
    } else {
      notify := [ReadInputRegistersRequested(addr, count)];
    }
    var words := RegisterBytes(table, addr, count);
    assert table[addr..addr + count] == table[..][addr..addr + count];
    resp := [fn, Byte(2 * count)] + words;
    TcpReadServed(t, pdu, pduLen);
  }

  /** FC 0x03/0x04 over TCP, for a request in range: the callback and the
      registers behind the byte count. */
  lemma TcpReadServed(t: Tables, pdu: seq<bv8>, pduLen: nat)
    requires TablesFit(t) && |pdu| == MaxFrame - 7
    requires pdu[0] == FcReadHoldingRegisters || pdu[0] == FcReadInputRegisters
    requires pduLen >= 5
    requires var addr, count := WordAt(pdu, 1), WordAt(pdu, 3);
      var table := if pdu[0] == FcReadHoldingRegisters then t.holding else t.input;
      count != 0 && addr + count <= |table|
    ensures var addr, count := WordAt(pdu, 1), WordAt(pdu, 3);
      var table := if pdu[0] == FcReadHoldingRegisters then t.holding else t.input;
      TcpRead(t, pdu, pduLen).pdu == [pdu[0], Byte(2 * count)] + Words(table[addr..addr + count]) &&
      TcpRead(t, pdu, pduLen).notify ==
        [if pdu[0] == FcReadHoldingRegisters then ReadHoldingRegistersRequested(addr, count)
         else ReadInputRegistersRequested(addr, count)]
  {
  }

  /** FC 0x03 over RTU, reading the holding registers from `holding`. */
  method ReadHoldingEvents(ghost t: Tables, id: bv8, buf: seq<bv8>, len: nat, holding: array<bv16>) returns (events: seq<Event>)
    requires RtuInput(t, buf, len, buf) && holding[..] == t.holding
    ensures events == RtuReadHolding(t, id, buf, len).events
  {
    if len != 8 {
      return [];
    }
    var addr := WordAt(buf, 2);
    var count := WordAt(buf, 4);
    if addr + count > holding.Length || count == 0 {
      return [];
    }
    var frame := RegistersFrame(id, FcReadHoldingRegisters, holding, addr, count);
    events := [ReadHoldingRegistersRequested(addr, count)] + Send(frame);
  }

  /** FC 0x04 over RTU, reading the input registers from `input`. */
  method ReadInputEvents(ghost t: Tables, id: bv8, buf: seq<bv8>, input: array<bv16>) returns (events: seq<Event>)
    requires RtuInput(t, buf, 0, buf) && input[..] == t.input
    ensures events == RtuReadInput(t, id, buf).events
  {
    var addr := WordAt(buf, 2);
    var q := WordAt(buf, 4);
    if addr + q > input.Length {
      return [];
    }
    var frame := RegistersFrame(id, FcReadInputRegisters, input, addr, q);
    events := [ReadInputRegistersRequested(addr, q)] + Send(frame);
  }

  /** The 256-byte response buffer: `stale` with `head` written over its start. */
  method ResponseBuffer(stale: seq<bv8>, head: seq<bv8>) returns (response: array<bv8>)
    requires |stale| == MaxFrame && |head| <= MaxFrame
    ensures fresh(response) && response.Length == MaxFrame
    ensures response[..] == head + stale[|head|..]
  {
    response := new bv8[MaxFrame](i requires 0 <= i < MaxFrame => if i < |head| then head[i] else stale[i]);
  }

  /** The CRC of the first `n` response bytes, low byte then high byte, after them;
      the frame is the `n + 2` bytes. */
  method CloseRtu(response: array<bv8>, n: nat) returns (frame: seq<bv8>)
    requires n + 2 <= response.Length && n < 0x1_0000
    modifies response
    ensures frame == RtuFrame(old(response[..n]))
  {
    var crc := ModbusCrc16(response[..], n);
    response[n] := Lo(crc);
    response[n + 1] := Hi(crc);
    frame := response[..n + 2];
    assert frame == old(response[..n]) + Trailer(crc);
  }

  /** The trailer of the FC 0x05/0x0F responses as written: the CRC of the first six
      bytes goes to `3 + bc` and `4 + bc`, where they fit, and eight bytes are sent. */
  method CloseMisplaced(response: array<bv8>, bc: bv8) returns (frame: seq<bv8>)
    requires response.Length == MaxFrame
    modifies response
    ensures frame == MisplacedCrcResponse(old(response[..6]), bc, old(response[..]))
  {
    assert old(response[..]) == old(response[..6]) + old(response[..])[6..];
    var crc := ModbusCrc16(response[..], 6);
    if 3 + bc as int < MaxFrame {
      response[3 + bc as int] := Lo(crc);
    }
    if 4 + bc as int < MaxFrame {
      response[4 + bc as int] := Hi(crc);
    }
    frame := response[..8];
  }

  /** `bytes` followed by their CRC, low byte first. */
  method FrameWithCrc(bytes: seq<bv8>) returns (frame: seq<bv8>)
    requires |bytes| < 0x1_0000
    ensures frame == RtuFrame(bytes)
  {
    var crc := ModbusCrc16(bytes, |bytes|);
    assert bytes[..|bytes|] == bytes;
    frame := bytes + [Lo(crc), Hi(crc)];
  }

  /** The RTU response of FC 0x03/0x04 for `count` registers from `addr`. */
  method RegistersFrame(id: bv8, fc: bv8, regs: array<bv16>, addr: nat, count: nat) returns (frame: seq<bv8>)
    requires addr + count <= regs.Length && count <= MaxRegisters
    ensures frame == RegistersResponse(id, fc, regs[addr..addr + count])
  {
    var words := RegisterBytes(regs, addr, count);
    frame := FrameWithCrc([id, fc, Byte(2 * count)] + words);
  }

  /** The FC 0x05/0x0F response built in a buffer holding `stale`, with `head`
      copied to its first six bytes. */
  method MisplacedFrame(head: seq<bv8>, bc: bv8, stale: seq<bv8>) returns (frame: seq<bv8>)
    requires |head| == 6 && |stale| == MaxFrame
    ensures frame == MisplacedCrcResponse(head, bc, stale)
  {
    var response := ResponseBuffer(stale, head);
    assert response[..6] == head;
    frame := CloseMisplaced(response, bc);
  }

  /** `send_tcp_response`'s buffer: the MBAP header, then the PDU. */
  method TcpResponseFrame(tid: bv16, uid: bv8, pdu: seq<bv8>) returns (frame: seq<bv8>)
    ensures frame == TcpFrame(tid, uid, pdu)
  {
    var lengthField := 1 + |pdu|;
    frame := [Hi(tid), Lo(tid), 0x00, 0x00, HiByte(lengthField), Byte(lengthField), uid] + pdu;
  }

  /** The slave's state: `slave_cfg`, `modbus_uart`, `slave_mode`, and the trace of
      what it drove onto the bus and reported to the callbacks. The tables are
      arrays the handler writes in place. */
  class Slave {
    var id: bv8
    var mode: Mode
    var uart: Uart
    var coils: array<bv8>
    var discreteInputs: array<bv8>
    var holding: array<bv16>
    var input: array<bv16>
    var trace: seq<Event>

    ghost predicate Valid()
      reads this`id, this`coils, this`discreteInputs, this`holding, this`input
    {
      ConfigFits(Config(id, coils, discreteInputs, holding, input))
    }

    /** The tables as values. */
    function Maps(): (t: Tables)
      reads this`id, this`coils, this`discreteInputs, this`holding, this`input, coils, discreteInputs, holding, input
      requires Valid()
      ensures TablesFit(t)
    {
      Tables(coils[..], discreteInputs[..], holding[..], input[..])
    }

    /** The static initialisers: a zeroed configuration, no UART, RTU. */
    constructor ()
      ensures Valid() && id == 0 && mode == Rtu && uart == NoUart && trace == []
      ensures Maps() == Tables([], [], [], [])
    {
      id := 0;
      mode := Rtu;
      uart := NoUart;
      coils := new bv8[0];
      discreteInputs := new bv8[0];
      holding := new bv16[0];
      input := new bv16[0];
      trace := [];
    }

    /** `modbus_slave_init`: the UART and a copy of the configuration; the mode is
        kept. */
    method Init(huart: Uart, cfg: Config)
      requires ConfigFits(cfg)
      modifies this`uart, this`id, this`coils, this`discreteInputs, this`holding, this`input
      ensures Valid() && uart == huart && mode == old(mode)
      ensures Config(id, coils, discreteInputs, holding, input) == cfg
    {
      uart := huart;
      id, coils, discreteInputs, holding, input := cfg.id, cfg.coils, cfg.discreteInputs, cfg.holding, cfg.input;
    }

    /** `modbus_slave_init_ex`: as `Init`, and the mode too. */
    method InitEx(huart: Uart, cfg: Config, m: Mode)
      requires ConfigFits(cfg)
      modifies this`uart, this`id, this`coils, this`discreteInputs, this`holding, this`input, this`mode
      ensures Valid() && uart == huart && mode == m
      ensures Config(id, coils, discreteInputs, holding, input) == cfg
    {
      uart := huart;
      id, coils, discreteInputs, holding, input := cfg.id, cfg.coils, cfg.discreteInputs, cfg.holding, cfg.input;
      mode := m;
    }

    /** `modbus_slave_get_mode`. */
    function GetMode(): (m: Mode)
      reads this
      ensures m == mode
    {
      mode
    }

    /** `modbus_slave_handle_frame`: the frame is the receive buffer and its length;
        `stale` is what the uninitialised RTU response buffer holds. */
    method HandleFrame(buf: seq<bv8>, len: nat, stale: seq<bv8>)
      requires Valid() && |buf| == MaxFrame && len <= MaxFrame && |stale| == MaxFrame
      modifies this`trace, coils, holding
      ensures Valid()
      ensures Maps() == Handle(mode, old(Maps()), id, buf, len, stale).tables
      ensures trace == old(trace) + Handle(mode, old(Maps()), id, buf, len, stale).events
    {
      if len == 0 {
        return;
      }
      if mode == Tcp {
        HandleTcp(buf, len);
      } else {
        HandleRtu(buf, len, stale);
      }
    }

    /** The TCP path: the MBAP checks, the switch, then one response. */
    method HandleTcp(buf: seq<bv8>, len: nat)
      requires Valid() && |buf| == MaxFrame && len <= MaxFrame
      modifies this`trace, holding
      ensures Maps() == TcpOutcome(old(Maps()), id, buf, len).tables
      ensures trace == old(trace) + TcpOutcome(old(Maps()), id, buf, len).events
    {
      if len < 8 {
        return;
      }
      var tid := Word(buf[0], buf[1]);
      var pid := WordAt(buf, 2);
      if pid != 0 {
        return;
      }
      var l := WordAt(buf, 4);
      if len < (6 + l) % 0x1_0000 {
        return;
      }
      var uid := buf[6];
      if uid != id {
        return;
      }
      var pduLen := TcpPduLength(l);
      if pduLen < 1 {
        return;
      }
      PduLengthBound(l, len);
      var resp, notify := DispatchTcp(buf[7..], pduLen);
      var frame := TcpResponseFrame(tid, uid, resp);
      trace := trace + (notify + [DeTx, Transmit(frame)]);
    }

    /** The switch of the TCP path: the response PDU and the callbacks it ran. */
    method DispatchTcp(pdu: seq<bv8>, pduLen: nat) returns (resp: seq<bv8>, notify: seq<Event>)
      requires Valid() && |pdu| == MaxFrame - 7 && PduLengthReachable(pduLen)
      modifies holding
      ensures Maps() == TcpPdu(old(Maps()), pdu, pduLen).tables
      ensures resp == TcpPdu(old(Maps()), pdu, pduLen).pdu && notify == TcpPdu(old(Maps()), pdu, pduLen).notify
    {
      var fn := pdu[0];
      if fn == FcReadHoldingRegisters || fn == FcReadInputRegisters {
        resp, notify := ServeTcpRead(pdu, pduLen);
      } else if fn == FcWriteSingleRegister {
        resp, notify := ServeTcpWriteRegister(pdu, pduLen);
      } else if fn == FcWriteMultipleRegisters {
        resp, notify := ServeTcpWriteRegisters(pdu, pduLen);
      } else {
        resp, notify := ExceptionPdu(fn, 0x01), [];
      }
    }

    /** FC 0x03/0x04 over TCP. */
    method ServeTcpRead(pdu: seq<bv8>, pduLen: nat) returns (resp: seq<bv8>, notify: seq<Event>)
      requires Valid() && |pdu| == MaxFrame - 7
      requires pdu[0] == FcReadHoldingRegisters || pdu[0] == FcReadInputRegisters
      ensures resp == TcpRead(Maps(), pdu, pduLen).pdu && notify == TcpRead(Maps(), pdu, pduLen).notify
    {
      var table := if pdu[0] == FcReadHoldingRegisters then holding else input;
      resp, notify := TcpReadReply(Maps(), pdu, pduLen, table);
    }

    /** FC 0x06 over TCP. */
    method ServeTcpWriteRegister(pdu: seq<bv8>, pduLen: nat) returns (resp: seq<bv8>, notify: seq<Event>)
      requires Valid() && |pdu| == MaxFrame - 7
      modifies holding
      ensures Maps() == TcpWriteRegister(old(Maps()), pdu, pduLen).tables
      ensures resp == TcpWriteRegister(old(Maps()), pdu, pduLen).pdu
      ensures notify == TcpWriteRegister(old(Maps()), pdu, pduLen).notify
    {
      var fn := pdu[0];
      if pduLen < 5 {
        return ExceptionPdu(fn, 0x03), [];
      }
      var addr := WordAt(pdu, 1);
      var v := Word(pdu[3], pdu[4]);
      if addr >= holding.Length {
        return ExceptionPdu(fn, 0x02), [];
      }
      holding[addr] := v;
      notify := [SingleRegisterWritten(addr, v)];
      resp := [fn, pdu[1], pdu[2], pdu[3], pdu[4]];
      assert resp == pdu[..5];
    }

    /** FC 0x10 over TCP. */
    method ServeTcpWriteRegisters(pdu: seq<bv8>, pduLen: nat) returns (resp: seq<bv8>, notify: seq<Event>)
      requires Valid() && |pdu| == MaxFrame - 7 && PduLengthReachable(pduLen)
      modifies holding
      ensures Maps() == TcpWriteRegisters(old(Maps()), pdu, pduLen).tables
      ensures resp == TcpWriteRegisters(old(Maps()), pdu, pduLen).pdu
      ensures notify == TcpWriteRegisters(old(Maps()), pdu, pduLen).notify
    {
      var fn := pdu[0];
      if pduLen < 6 {
        return ExceptionPdu(fn, 0x03), [];
      }
      var addr := WordAt(pdu, 1);
      var count := WordAt(pdu, 3);
      var byteCount := pdu[5];
      if byteCount as int != 2 * count || pduLen != 6 + byteCount as int || addr + count > holding.Length {
        return ExceptionPdu(fn, 0x03), [];
      }
      WriteRegistersFrom(holding, addr, pdu, 6, count);
      notify := [MultipleRegistersWritten(addr, ReadWords(pdu, 6, count))];
      resp := [fn, pdu[1], pdu[2], pdu[3], pdu[4]];
      assert resp == pdu[..5];
    }

    /** The RTU path: length, slave id and CRC checks, then the switch. */
    method HandleRtu(buf: seq<bv8>, len: nat, stale: seq<bv8>)
      requires Valid() && |buf| == MaxFrame && len <= MaxFrame && |stale| == MaxFrame
      modifies this`trace, coils, holding
      ensures Maps() == RtuOutcome(old(Maps()), id, buf, len, stale).tables
      ensures trace == old(trace) + RtuOutcome(old(Maps()), id, buf, len, stale).events
    {
      ghost var t := Maps();
      if len < 5 || buf[0] != id {
        assert RtuOutcome(t, id, buf, len, stale) == Outcome(t, []);
        return;
      }
      var crcRecv := Word(buf[len - 1], buf[len - 2]);
      var crcCalc := ModbusCrc16(buf, len - 2);
      if crcRecv != crcCalc {
        assert RtuOutcome(t, id, buf, len, stale) == Outcome(t, []);
        return;
      }
      assert RtuOutcome(t, id, buf, len, stale) == RtuDispatch(t, id, buf, len, stale);
      DispatchRtu(buf, len, stale);
    }

    /** The switch of the RTU path. */
    method DispatchRtu(buf: seq<bv8>, len: nat, stale: seq<bv8>)
      requires Valid() && |buf| == MaxFrame && len <= MaxFrame && |stale| == MaxFrame
      modifies this`trace, coils, holding
      ensures Maps() == RtuDispatch(old(Maps()), id, buf, len, stale).tables
      ensures trace == old(trace) + RtuDispatch(old(Maps()), id, buf, len, stale).events
    {
      var fc := buf[1];
      if fc == FcReadCoils || fc == FcReadDiscreteInputs {
        ServeReadBits(buf, stale);
      } else if fc == FcReadHoldingRegisters {
        ServeReadHolding(buf, len);
      } else if fc == FcReadInputRegisters {
        ServeReadInput(buf);
      } else if fc == FcWriteSingleCoil {
        ServeWriteCoil(buf, stale);
      } else if fc == FcWriteSingleRegister {
        ServeWriteRegister(buf, len);
      } else if fc == FcWriteMultipleCoils {
        ServeWriteCoils(buf, stale);
      } else if fc == FcWriteMultipleRegisters {
        ServeWriteRegisters(buf, len);
      }
    }

    /** FC 0x01/0x02 over RTU. */
    method ServeReadBits(buf: seq<bv8>, stale: seq<bv8>)
      requires Valid() && |buf| == MaxFrame && |stale| == MaxFrame && (buf[1] == FcReadCoils || buf[1] == FcReadDiscreteInputs)
      modifies this`trace
      ensures trace == old(trace) + RtuReadBits(Maps(), id, buf, stale).events
    {
      ghost var t := Maps();
      var events;
      if buf[1] == FcReadCoils {
        events := ReadBitsEvents(t, id, buf, stale, coils);
      } else {
        events := ReadBitsEvents(t, id, buf, stale, discreteInputs);
      }
      trace := trace + events;
      assert Maps() == t;
    }

    /** FC 0x03 over RTU. */
    method ServeReadHolding(buf: seq<bv8>, len: nat)
      requires Valid() && |buf| == MaxFrame && len <= MaxFrame
      modifies this`trace
      ensures trace == old(trace) + RtuReadHolding(Maps(), id, buf, len).events
    {
      var events := ReadHoldingEvents(Maps(), id, buf, len, holding);
      trace := trace + events;
    }

    /** FC 0x04 over RTU. */
    method ServeReadInput(buf: seq<bv8>)
      requires Valid() && |buf| == MaxFrame
      modifies this`trace
      ensures trace == old(trace) + RtuReadInput(Maps(), id, buf).events
    {
      var events := ReadInputEvents(Maps(), id, buf, input);
      trace := trace + events;
    }

    /** FC 0x05 over RTU. */
    method ServeWriteCoil(buf: seq<bv8>, stale: seq<bv8>)
      requires Valid() && |buf| == MaxFrame && |stale| == MaxFrame
      modifies this`trace, coils
      ensures Maps() == RtuWriteCoil(old(Maps()), buf, stale).tables
      ensures trace == old(trace) + RtuWriteCoil(old(Maps()), buf, stale).events
    {
      var addr := WordAt(buf, 2);
      var value := WordAt(buf, 4);
      if addr >= coils.Length {
        return;
      }
      coils[addr] := if value == 0xFF00 then 1 else 0;
      var frame := MisplacedFrame(buf[..6], 0, stale);
      trace := trace + ([SingleCoilWritten(addr, coils[addr] != 0)] + Send(frame));
    }

    /** FC 0x06 over RTU. */
    method ServeWriteRegister(buf: seq<bv8>, len: nat)
      requires Valid() && |buf| == MaxFrame && len <= MaxFrame
      modifies this`trace, holding
      ensures Maps() == RtuWriteRegister(old(Maps()), buf, len).tables
      ensures trace == old(trace) + RtuWriteRegister(old(Maps()), buf, len).events
    {
      if len != 8 {
        return;
      }
      var addr := WordAt(buf, 2);
      var v := Word(buf[4], buf[5]);
      if addr >= holding.Length {
        return;
      }
      holding[addr] := v;
      trace := trace + ([SingleRegisterWritten(addr, v)] + Send(buf[..len]));
    }

    /** FC 0x0F over RTU. */
    method ServeWriteCoils(buf: seq<bv8>, stale: seq<bv8>)
      requires Valid() && |buf| == MaxFrame && |stale| == MaxFrame
      modifies this`trace, coils
      ensures Maps() == RtuWriteCoils(old(Maps()), id, buf, stale).tables
      ensures trace == old(trace) + RtuWriteCoils(old(Maps()), id, buf, stale).events
    {
      ghost var t := Maps();
      var events := WriteCoilsEvents(t, id, buf, stale, coils);
      trace := trace + events;
      assert Maps() == t.(coils := coils[..]);
    }

    /** FC 0x10 over RTU. */
    method ServeWriteRegisters(buf: seq<bv8>, len: nat)
      requires Valid() && |buf| == MaxFrame && len <= MaxFrame
      modifies this`trace, holding
      ensures Maps() == RtuWriteRegisters(old(Maps()), buf, len).tables
      ensures trace == old(trace) + RtuWriteRegisters(old(Maps()), buf, len).events
    {
      if len < 9 {
        return;
      }
      var addr := WordAt(buf, 2);
      var count := WordAt(buf, 4);
      var byteCount := buf[6];
      if addr + count > holding.Length {
        return;
      }
      if byteCount as int != 2 * count || len != 9 + byteCount as int {
        return;
      }
      WriteRegistersFrom(holding, addr, buf, 7, count);
      var frame := FrameWithCrc(buf[..6]);
      trace := trace + ([MultipleRegistersWritten(addr, ReadWords(buf, 7, count))] + Send(frame));
    }
  }
}
