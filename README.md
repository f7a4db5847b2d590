# Proximity RPM counter firmware with Modbus RTU/TCP: a Dafny model

The firmware runs on an STM32F103. It measures the rotational speed of a
shaft from the pulses of a proximity sensor. It keeps its settings in
flash and talks Modbus over an RS-485 UART, as master or as slave, in RTU
framing or with an MBAP header (Modbus TCP framing carried over the
serial line). This project models the core of that firmware in Dafny and
proves properties of the model:

- `crc16.dfy` (module `Crc16`) models the Modbus CRC-16, the reflected polynomial 0xA001 with an initial value of 0xFFFF. The bit loop is proved equal to a left fold. The fold is proved compositional, and the RTU trailer is proved to leave a zero residue.
- `queue.dfy` (module `FrameQueue`) models the single-producer / single-consumer ring of eight received frames. Its push and pop are proved against the list of queued frames. One slot always stays free, so the ring holds at most seven frames.
- `modbus_types.dfy` (module `ModbusTypes`) holds the shared Modbus types. These are requests, parsed responses, events, and big-endian words. It also has the RTU and MBAP frame builders and their decoding lemmas.
- `modbus_master.dfy` (module `ModbusMaster`) models `modbus_master.c`: building the PDU, framing a request, accepting a response, and parsing a response.
- `modbus_slave.dfy` (module `ModbusSlave`) models `modbus_slave.c`: the RTU and TCP frame handlers over the four data tables. `modbus_slave_props.dfy` (module `SlaveProperties`) holds the properties of those handlers.
- `exchange.dfy` (module `Exchange`) connects the two engines. A request framed by the master is served by the slave. The slave's reply then parses back on the master into exactly the registers that were read.
- `modbus.dfy` (module `ModbusRouter`) models the role router of `modbus.c`.
- `proximity_counter.dfy` (module `Proximity`) models the pulse-measurement engine. That covers capture, timer overflow, averaging, the no-pulse timeout, the hysteresis filter, and the insertion-sorted hysteresis table.
- `nvs.dfy` (module `Storage`) models the flash word store under the settings. `my_flash.dfy` (module `MyFlash`) models saving and loading of each settings group, and the bit packing of the Modbus configuration.

How the hardware and the environment are represented:

- Everything the firmware does to the outside world becomes an event in a trace:
  - setting the RS-485 driver-enable pin;
  - starting a UART transmission;
  - calling a user callback.
- Results the model cannot know are parameters:
  - the status the HAL returns for a transmission, an erase or a program;
  - the tick count;
  - the reading derived from the timer clock.
- The slave builds its RTU responses in an uninitialised stack buffer. In the model that buffer's prior content is a parameter, `stale`.
- C's fixed widths are written out as arithmetic:
  - bytes are `bv8`;
  - register values and transaction ids are `bv16`;
  - flash words are `bv32`;
  - counters wrap explicitly (`% 0x1_0000_0000`, `% 256`);
  - C's truncating division is modelled by `Proximity.Quarter`.

The engines follow the code as written, including the defects listed
under "## Findings". For each defect, the corrected definition and the
property it was evidently meant to have are in module `Findings`
(`modbus_findings.dfy`).

## Model

| member | source | states |
|---|---|---|
| Crc16.Update | Core/myLib/modbus/crc16/crc16.c:9-18 | the register after one byte: xor the byte in, then eight shift/xor steps with 0xA001; UpdateIsTextbook, TrailerClears and UpdateTwoInjective state its properties |
| Crc16.Crc | Core/myLib/modbus/crc16/crc16.c:19-27 | the CRC of a byte string: the fold of `Update` from 0xFFFF; CrcEmpty, CrcAppend and CrcResidue state its properties |
| Crc16.UpdateByte | Core/myLib/modbus/crc16/crc16.c:9-18 | the eight-iteration shift/xor loop computes `Update(crc, a)`, the per-byte step of the CRC |
| Crc16.ModbusCrc16 | Core/myLib/modbus/crc16/crc16.c:19-27 | the loop over the first `len` bytes, starting from 0xFFFF, returns `Crc(data[..len])` |
| Crc16.CrcEmpty | Core/myLib/modbus/crc16/crc16.c:20 | the CRC of no bytes is the initial value 0xFFFF |
| Crc16.CrcAppend | Core/myLib/modbus/crc16/crc16.c:19-27 | the CRC of `a + b` continues from the CRC of `a`, so a frame's CRC can be computed piecewise |
| Crc16.UpdateIsTextbook | Core/myLib/modbus/crc16/crc16.c:9-18 | the per-bit loop equals xoring the byte into the register and then shifting eight times with polynomial 0xA001 |
| Crc16.TrailerClears | Core/myLib/modbus/crc16/crc16.c:9-18 | feeding the register its own low byte and then its high byte leaves 0 |
| Crc16.CrcResidue | Core/myLib/modbus/crc16/crc16.c:19-27 | a frame followed by its CRC, low byte first, has CRC 0 |
| Crc16.TrailerCheck | Core/myLib/modbus/modbus_master/modbus_master.c:139-153 | the received trailer equals the computed CRC exactly when the CRC over body plus trailer is 0 (both directions) |
| Crc16.UpdateTwoInjective | Core/myLib/modbus/crc16/crc16.c:9-18 | the only two bytes that bring a register to 0 are its own low and high bytes |
| FrameQueue.Count | Core/myLib/queue/queue.c:20-37 | the number of queued frames is below 8, and `tail` plus that count is `head` modulo 8 |
| FrameQueue.PushRing | Core/myLib/queue/queue.c:20-28 | writing the head slot and advancing the head appends the frame to the queued sequence |
| FrameQueue.PopRing | Core/myLib/queue/queue.c:30-37 | the frame at the tail is the first queued one, and advancing the tail leaves the rest in order |
| FrameQueue.FullIffSeven | Core/myLib/queue/queue.c:22-23 | the full test `(head + 1) % 8 == tail` holds exactly when seven frames are queued |
| FrameQueue.SeventhPushFills | Core/myLib/queue/queue.c:22-23 | from an empty ring, the ring reports full after seven pushes |
| FrameQueue.Queue.Contents | Core/myLib/queue/queue.h:14 | the queued frames, fewer than `QUEUE_SIZE` |
| FrameQueue.Queue.constructor | Core/myLib/queue/queue.c:14-18 | a new queue is empty with both indices 0 |
| FrameQueue.Queue.Init | Core/myLib/queue/queue.c:14-18 | `queue_init` resets both indices and empties the queue |
| FrameQueue.Queue.Push | Core/myLib/queue/queue.c:20-28 | succeeds exactly when fewer than seven frames are queued; then the frame is appended and the tail is untouched; on failure nothing changes |
| FrameQueue.Queue.Pop | Core/myLib/queue/queue.c:30-37 | fails exactly on an empty queue; otherwise returns the oldest frame (FIFO) and leaves the rest queued; the head is never touched |
| FrameQueue.Queue.IsEmpty | Core/myLib/queue/queue.c:39-42 | true exactly when no frame is queued |
| ModbusTypes.ReadWordsOfWords | Core/myLib/modbus/modbus_master/modbus_master.c:205-209 | big-endian words written into a buffer read back as the same words at any offset |
| ModbusTypes.WordsSnoc | Core/myLib/modbus/modbus_master/modbus_master.c:67-75 | serialising one more word appends its high byte, then its low byte |
| ModbusTypes.TcpFrameHeader | Core/myLib/modbus/modbus_slave/modbus_slave.c:33-50 | an MBAP frame carries the transaction id, protocol id 0, a length field equal to the frame length minus 6, and the unit id |
| ModbusTypes.LengthFieldValue | Core/myLib/modbus/modbus_slave/modbus_slave.c:41-43 | a length written high byte first reads back as the same value |
| ModbusTypes.RtuFrame | Core/myLib/modbus/modbus_master/modbus_master.c:88-95 | an RTU frame is the body followed by two bytes and has CRC residue 0 |
| ModbusTypes.TrailerOkIffResidue | Core/myLib/modbus/modbus_slave/modbus_slave.c:176-178 | the slave's trailer comparison holds exactly when the CRC over the whole frame is 0 |
| ModbusTypes.RtuFrameTrailerOk | Core/myLib/modbus/modbus_slave/modbus_slave.c:176-178 | every RTU-framed body passes the slave's trailer check |
| ModbusMaster.Pdu | Core/myLib/modbus/modbus_master/modbus_master.c:32-80 | the request PDU for each supported function code, and nothing otherwise; PduLength, PduDecodes, PduWordsDecode and PduCoilBit state its contents |
| ModbusMaster.RequestFrame | Core/myLib/modbus/modbus_master/modbus_master.c:88-116 | the request as sent: the RTU frame of the slave id and the PDU, or the MBAP frame of the PDU; FrameRtu, FrameTcp, Exchange.RtuRequestFields and Exchange.RtuReadHoldingRoundTrip state its properties |
| ModbusMaster.ResponseAccepted | Core/myLib/modbus/modbus_master/modbus_master.c:139-162 | the master's acceptance test: a nonempty response of at least 5 bytes with a matching CRC in RTU, or in TCP one of at least 8 bytes with protocol id 0 and at least `6 + length` bytes, compared in 16 bits; RtuAcceptedIffResidue, RtuFrameAccepted and TcpFrameAccepted state it |
| ModbusMaster.ParsePdu | Core/myLib/modbus/modbus_master/modbus_master.c:188-224 | the switch on the function code: an exception, a register list, a write acknowledgement, or failure; ParseRegistersBound and Exchange.RegistersPduParsed state its results |
| ModbusMaster.Parse | Core/myLib/modbus/modbus_master/modbus_master.c:164-225 | the response located by its envelope and parsed by `ParsePdu`; Exchange.RtuRegistersParsed and Exchange.TcpRegistersParsed state its round trip with the slave |
| ModbusMaster.BuildPdu | Core/myLib/modbus/modbus_master/modbus_master.c:32-80 | the switch on the function code produces `Pdu(req)`, the PDU described by PduDecodes and PduCoilBit |
| ModbusMaster.PackCoils | Core/myLib/modbus/modbus_master/modbus_master.c:51-66 | the FC 0x0F packing loop produces `(q + 7) / 8` data bytes, as CoilBytes |
| ModbusMaster.PackCoilByte | Core/myLib/modbus/modbus_master/modbus_master.c:55-63 | the inner loop builds the data byte whose bit `b` is coil `base + b` |
| ModbusMaster.PackWords | Core/myLib/modbus/modbus_master/modbus_master.c:70-74 | the FC 0x10 loop serialises each word high byte first |
| ModbusMaster.CoilBytes | Core/myLib/modbus/modbus_master/modbus_master.c:53 | there are `(q + 7) / 8` coil bytes |
| ModbusMaster.CoilByteBit | Core/myLib/modbus/modbus_master/modbus_master.c:55-63 | bit `c` of a partial coil byte is set exactly when the coil lies below the quantity and its word is nonzero |
| ModbusMaster.PduCoilBit | Core/myLib/modbus/modbus_master/modbus_master.c:51-66 | bit `b` of FC 0x0F data byte `i` is set exactly when `8i + b` is below the quantity and that coil's word is nonzero |
| ModbusMaster.PduLength | Core/myLib/modbus/modbus_master/modbus_master.c:32-80 | the PDU length is 5 for reads and single writes, `6 + (q+7)/8` for FC 0x0F, `6 + 2q` for FC 0x10, and 0 exactly for unsupported codes |
| ModbusMaster.PduDecodes | Core/myLib/modbus/modbus_master/modbus_master.c:32-80 | the PDU holds the function code, the address, the quantity or the single value, the byte count, and words that read back as the request's write data |
| ModbusMaster.PduWordsDecode | Core/myLib/modbus/modbus_master/modbus_master.c:67-75 | the FC 0x10 byte count is `2q` modulo 256 and the words read back as the first `q` values to write |
| ModbusMaster.RtuAcceptedIffResidue | Core/myLib/modbus/modbus_master/modbus_master.c:139-153 | an RTU response is accepted exactly when it is at least 5 bytes long and has CRC residue 0 |
| ModbusMaster.RtuFrameAccepted | Core/myLib/modbus/modbus_master/modbus_master.c:139-153 | every RTU-framed body of at least 3 bytes is accepted |
| ModbusMaster.TcpFrameAccepted | Core/myLib/modbus/modbus_master/modbus_master.c:154-162 | every MBAP frame with a nonempty PDU that fits 256 bytes is accepted |
| ModbusMaster.ParseEnvelope | Core/myLib/modbus/modbus_master/modbus_master.c:168-186 | a located PDU starts at byte 1 (RTU) or 7 (TCP), and its claimed length fits 16 bits |
| ModbusMaster.ParseRegistersBound | Core/myLib/modbus/modbus_master/modbus_master.c:200-212 | a parsed register response holds `byte_count / 2` registers, and the byte count passed the guard |
| ModbusMaster.FrameRtu | Core/myLib/modbus/modbus_master/modbus_master.c:88-95 | the RTU request is the slave id, the PDU and the CRC, or nothing for an unsupported code |
| ModbusMaster.FrameTcp | Core/myLib/modbus/modbus_master/modbus_master.c:96-116 | the TCP request is the MBAP header with the given transaction id and length `1 + |PDU|`, then the PDU |
| ModbusMaster.Master.constructor | Core/myLib/modbus/modbus_master/modbus_master.c:13-16 | the statics start in RTU mode, with no UART and transaction counter 1 |
| ModbusMaster.Master.Init | Core/myLib/modbus/modbus_master/modbus_master.c:18-21 | sets the UART and RTU mode |
| ModbusMaster.Master.InitEx | Core/myLib/modbus/modbus_master/modbus_master.c:23-26 | sets the UART and the given mode |
| ModbusMaster.Master.GetMode | Core/myLib/modbus/modbus_master/modbus_master.c:28-30 | returns the current mode |
| ModbusMaster.Master.SendRequest | Core/myLib/modbus/modbus_master/modbus_master.c:82-131 | with no UART or an unsupported code, returns false and sends nothing. Otherwise it drives DE high, transmits the framed request, drives DE low, and returns the transmit status. The counter advances only for a TCP request with transaction id 0, which takes the counter's old value |
| ModbusMaster.Master.HandleResponse | Core/myLib/modbus/modbus_master/modbus_master.c:133-163 | the response callback runs with the frame exactly when the frame is accepted |
| ModbusMaster.Master.ParseResponse | Core/myLib/modbus/modbus_master/modbus_master.c:164-225 | the parse follows `Parse`; its results are pinned down by ParseRegistersBound, Exchange.RtuRegistersParsed and Exchange.TcpRegistersParsed |
| ModbusMaster.ParseBody | Core/myLib/modbus/modbus_master/modbus_master.c:188-224 | the switch on the function code computes `ParsePdu`: exception, registers, write acknowledgement, or failure |
| ModbusMaster.ParseRegistersBody | Core/myLib/modbus/modbus_master/modbus_master.c:200-212 | the register branch computes `ParseRegisters` |
| ModbusMaster.CopyRegisters | Core/myLib/modbus/modbus_master/modbus_master.c:206-209 | the copy loop reads `quantity` big-endian words starting at `start` |
| ModbusSlave.ExceptionPdu | Core/myLib/modbus/modbus_slave/modbus_slave.c:52-56 | an exception PDU is two bytes: the function code with its top bit set, then the exception code |
| ModbusSlave.WriteRegisters | Core/myLib/modbus/modbus_slave/modbus_slave.c:117-139 | registers `addr .. addr+n-1` take the written words and every other register keeps its value |
| ModbusSlave.PackedByteBit | Core/myLib/modbus/modbus_slave/modbus_slave.c:201-206 | a partially packed byte has exactly the bits it has packed so far |
| ModbusSlave.PackBitsBit | Core/myLib/modbus/modbus_slave/modbus_slave.c:201-206 | after packing, bit `c` of data byte `p` is table entry `8p + c` when that entry is inside the quantity, otherwise the buffer's earlier bit |
| ModbusSlave.RtuReadBits | Core/myLib/modbus/modbus_slave/modbus_slave.c:188-247 | FC 0x01/0x02: a request past the table's end is dropped; otherwise the callback, then the packed response; ReadBitsSent, ReadBitsDropped and SlaveProperties.ReadBitsReplies state it |
| ModbusSlave.RtuReadHolding | Core/myLib/modbus/modbus_slave/modbus_slave.c:248-273 | FC 0x03: a request of 8 bytes with a nonempty range inside the holding registers runs the callback and sends the registers; otherwise nothing; Exchange.RtuReadHoldingServed and SlaveProperties.ReadHoldingReplies state it |
| ModbusSlave.RtuReadInput | Core/myLib/modbus/modbus_slave/modbus_slave.c:274-301 | FC 0x04: a range inside the input registers runs the callback and sends the registers; otherwise nothing; SlaveProperties.ReadInputReplies states it |
| ModbusSlave.RtuWriteCoil | Core/myLib/modbus/modbus_slave/modbus_slave.c:302-320 | FC 0x05: an address inside the coils sets that coil from the value, runs the callback and sends the reply as written; SlaveProperties.RtuWriteCoilSetsOneCoil and Findings.WriteCoilServedWithBadReply state it |
| ModbusSlave.RtuWriteRegister | Core/myLib/modbus/modbus_slave/modbus_slave.c:322-338 | FC 0x06: an 8-byte frame with an address inside the holding registers writes it, runs the callback and echoes the frame; SlaveProperties.RtuWriteRegisterEchoes states it |
| ModbusSlave.RtuWriteCoils | Core/myLib/modbus/modbus_slave/modbus_slave.c:339-369 | FC 0x0F: a range inside the coils unpacks the data, runs the callback and sends the reply as written, whatever the byte count; SlaveProperties.WriteCoilsSent and Findings.MisplacedWritePastBuffer state it |
| ModbusSlave.RtuWriteRegisters | Core/myLib/modbus/modbus_slave/modbus_slave.c:370-400 | FC 0x10: a consistent length, byte count and range writes the words, runs the callback and sends the framed first six bytes; SlaveProperties.RtuWriteRegistersWritesWords states it |
| ModbusSlave.RtuDispatch | Core/myLib/modbus/modbus_slave/modbus_slave.c:186-404 | the RTU switch: each supported function code goes to its handler, any other is dropped; SlaveProperties.RtuNeverException states it |
| ModbusSlave.RtuOutcome | Core/myLib/modbus/modbus_slave/modbus_slave.c:168-405 | the RTU path: frames shorter than 5 bytes, for another slave or with a bad CRC are dropped, the rest go to the switch; SlaveProperties.RtuActsOnlyOnValidFrames states it |
| ModbusSlave.TcpRead | Core/myLib/modbus/modbus_slave/modbus_slave.c:78-99 | TCP FC 0x03/0x04: exception 0x03 for a PDU shorter than 5 bytes, exception 0x02 for a count of 0 or a range past the table; otherwise the callback and the registers; SlaveProperties.TcpExceptionCodes states it |
| ModbusSlave.TcpWriteRegister | Core/myLib/modbus/modbus_slave/modbus_slave.c:100-116 | TCP FC 0x06: exceptions 0x03 and 0x02 for a short PDU or an address outside the table; otherwise the write, the callback and the echo; SlaveProperties.TcpExceptionCodes states it |
| ModbusSlave.TcpWriteRegisters | Core/myLib/modbus/modbus_slave/modbus_slave.c:117-139 | TCP FC 0x10: exception 0x03 for a PDU shorter than 6 bytes, a byte count other than twice the count, a PDU length other than `6 +` the byte count, or a range past the table; otherwise the write, the callback and the echo; SlaveProperties.TcpExceptionCodes states it |
| ModbusSlave.TcpPdu | Core/myLib/modbus/modbus_slave/modbus_slave.c:76-162 | the TCP switch: each supported code to its handler, exception 0x01 for the rest; SlaveProperties.TcpReplyPduBounds and SlaveProperties.TcpExceptionCodes state it |
| ModbusSlave.TcpOutcome | Core/myLib/modbus/modbus_slave/modbus_slave.c:58-167 | the TCP path: the length, protocol id, unit id and PDU length checks, then the switch and the MBAP reply under the request's ids; SlaveProperties.TcpActsOnlyOnValidFrames, TcpReplyReusesHeader and TcpOutcomeTaken state it |
| ModbusSlave.Handle | Core/myLib/modbus/modbus_slave/modbus_slave.c:58-405 | an empty frame is ignored; otherwise the TCP or the RTU path as the mode says; Slave.HandleFrame is proved against it |
| ModbusSlave.ReadBitsSent | Core/myLib/modbus/modbus_slave/modbus_slave.c:188-218 | an FC 0x01/0x02 request within the table runs the callback and sends the packed response, leaving the tables alone |
| ModbusSlave.ReadBitsDropped | Core/myLib/modbus/modbus_slave/modbus_slave.c:193-194 | an FC 0x01/0x02 request past the table's end is dropped silently |
| ModbusSlave.TcpPduLength | Core/myLib/modbus/modbus_slave/modbus_slave.c:70 | the PDU length is the length field minus 1, in 16 bits |
| ModbusSlave.PduLengthBound | Core/myLib/modbus/modbus_slave/modbus_slave.c:66-70 | after the length check, the PDU lies inside the received frame unless the subtraction wrapped |
| ModbusSlave.UnpackCoils | Core/myLib/modbus/modbus_slave/modbus_slave.c:347-350 | unpacking FC 0x0F data keeps the length of the coil table |
| ModbusSlave.MisplacedCrcResponse | Core/myLib/modbus/modbus_slave/modbus_slave.c:314-316 | the FC 0x05/0x0F reply as the code builds it is eight bytes long |
| ModbusSlave.PackBitsInto | Core/myLib/modbus/modbus_slave/modbus_slave.c:201-206 | the in-place packing loop leaves `PackBits` of the buffer's earlier content |
| ModbusSlave.UnpackCoilsInto | Core/myLib/modbus/modbus_slave/modbus_slave.c:347-350 | the in-place unpacking loop leaves `UnpackCoils` of the old table |
| ModbusSlave.WriteRegistersFrom | Core/myLib/modbus/modbus_slave/modbus_slave.c:382-385 | the in-place register loop writes the big-endian words of the request |
| ModbusSlave.RegisterBytes | Core/myLib/modbus/modbus_slave/modbus_slave.c:262-265 | the response loop serialises the requested registers high byte first |
| ModbusSlave.ReadBitsFrame | Core/myLib/modbus/modbus_slave/modbus_slave.c:196-215 | the FC 0x01/0x02 response is the packed bits over the stale buffer, closed with a CRC |
| ModbusSlave.ReadBitsEvents | Core/myLib/modbus/modbus_slave/modbus_slave.c:188-247 | the read-bits handler produces the events of `RtuReadBits` |
| ModbusSlave.WriteCoilsEvents | Core/myLib/modbus/modbus_slave/modbus_slave.c:339-369 | the FC 0x0F handler updates the coils and produces the events of `RtuWriteCoils` |
| ModbusSlave.TcpReadReply | Core/myLib/modbus/modbus_slave/modbus_slave.c:78-99 | the TCP read handler computes the reply PDU and the callback of `TcpRead` |
| ModbusSlave.ReadHoldingEvents | Core/myLib/modbus/modbus_slave/modbus_slave.c:248-273 | the FC 0x03 handler produces the events of `RtuReadHolding` |
| ModbusSlave.ReadInputEvents | Core/myLib/modbus/modbus_slave/modbus_slave.c:274-301 | the FC 0x04 handler produces the events of `RtuReadInput` |
| ModbusSlave.ResponseBuffer | Core/myLib/modbus/modbus_slave/modbus_slave.c:185-199 | the response buffer holds the bytes written so far over its earlier content |
| ModbusSlave.CloseRtu | Core/myLib/modbus/modbus_slave/modbus_slave.c:211-213 | appending the CRC low byte first turns the first `n` bytes into an RTU frame |
| ModbusSlave.CloseMisplaced | Core/myLib/modbus/modbus_slave/modbus_slave.c:362-364 | the FC 0x05/0x0F close computes the CRC over the six header bytes and stores it at `3 + byte_count`, as the code does |
| ModbusSlave.FrameWithCrc | Core/myLib/modbus/modbus_slave/modbus_slave.c:267-269 | a byte string closed with its CRC is an RTU frame |
| ModbusSlave.RegistersFrame | Core/myLib/modbus/modbus_slave/modbus_slave.c:258-271 | the register response is the id, the code, the byte count `2n` and the words, then the CRC |
| ModbusSlave.MisplacedFrame | Core/myLib/modbus/modbus_slave/modbus_slave.c:313-318 | the FC 0x05 reply as the code builds it |
| ModbusSlave.TcpResponseFrame | Core/myLib/modbus/modbus_slave/modbus_slave.c:33-50 | the TCP reply is the MBAP header followed by the PDU |
| ModbusSlave.Slave.Maps | Core/myLib/modbus/modbus_slave/modbus_slave.h:33-41 | the four tables fit the response buffer bounds |
| ModbusSlave.Slave.constructor | Core/myLib/modbus/modbus_slave/modbus_slave.c:7-9 | the statics start in RTU mode with no UART and empty tables |
| ModbusSlave.Slave.Init | Core/myLib/modbus/modbus_slave/modbus_slave.c:11-14 | the configuration is stored field for field and the mode is kept |
| ModbusSlave.Slave.InitEx | Core/myLib/modbus/modbus_slave/modbus_slave.c:16-20 | the configuration and the mode are stored |
| ModbusSlave.Slave.GetMode | Core/myLib/modbus/modbus_slave/modbus_slave.c:22-24 | returns the current mode |
| ModbusSlave.Slave.HandleFrame | Core/myLib/modbus/modbus_slave/modbus_slave.c:58-405 | the tables and the event trace change exactly as `Handle` says for the current mode |
| ModbusSlave.Slave.HandleTcp | Core/myLib/modbus/modbus_slave/modbus_slave.c:58-167 | the TCP path changes the tables and the trace as `TcpOutcome` says |
| ModbusSlave.Slave.DispatchTcp | Core/myLib/modbus/modbus_slave/modbus_slave.c:76-162 | the TCP switch computes `TcpPdu` |
| ModbusSlave.Slave.ServeTcpRead | Core/myLib/modbus/modbus_slave/modbus_slave.c:78-99 | TCP FC 0x03/0x04 follows `TcpRead` |
| ModbusSlave.Slave.ServeTcpWriteRegister | Core/myLib/modbus/modbus_slave/modbus_slave.c:100-116 | TCP FC 0x06 follows `TcpWriteRegister` |
| ModbusSlave.Slave.ServeTcpWriteRegisters | Core/myLib/modbus/modbus_slave/modbus_slave.c:117-139 | TCP FC 0x10 follows `TcpWriteRegisters` |
| ModbusSlave.Slave.HandleRtu | Core/myLib/modbus/modbus_slave/modbus_slave.c:168-405 | the RTU path changes the tables and the trace as `RtuOutcome` says |
| ModbusSlave.Slave.DispatchRtu | Core/myLib/modbus/modbus_slave/modbus_slave.c:186-404 | the RTU switch computes `RtuDispatch` |
| ModbusSlave.Slave.ServeReadBits | Core/myLib/modbus/modbus_slave/modbus_slave.c:188-247 | RTU FC 0x01/0x02 |
| ModbusSlave.Slave.ServeReadHolding | Core/myLib/modbus/modbus_slave/modbus_slave.c:248-273 | RTU FC 0x03 |
| ModbusSlave.Slave.ServeReadInput | Core/myLib/modbus/modbus_slave/modbus_slave.c:274-301 | RTU FC 0x04 |
| ModbusSlave.Slave.ServeWriteCoil | Core/myLib/modbus/modbus_slave/modbus_slave.c:302-320 | RTU FC 0x05 |
| ModbusSlave.Slave.ServeWriteRegister | Core/myLib/modbus/modbus_slave/modbus_slave.c:322-338 | RTU FC 0x06 |
| ModbusSlave.Slave.ServeWriteCoils | Core/myLib/modbus/modbus_slave/modbus_slave.c:339-369 | RTU FC 0x0F |
| ModbusSlave.Slave.ServeWriteRegisters | Core/myLib/modbus/modbus_slave/modbus_slave.c:370-400 | RTU FC 0x10 |
| SlaveProperties.RtuActsOnlyOnValidFrames | Core/myLib/modbus/modbus_slave/modbus_slave.c:169-179 | an RTU frame changes something only if it is at least 5 bytes long, addressed to this slave, and passes the CRC check |
| SlaveProperties.RtuNeverException | Core/myLib/modbus/modbus_slave/modbus_slave.c:186-404 | the RTU path either does nothing, or runs one callback and sends one reply that starts with the slave id and the request's own function code; it never sends an exception |
| SlaveProperties.ReadBitsReplies | Core/myLib/modbus/modbus_slave/modbus_slave.c:188-247 | FC 0x01/0x02 either does nothing or sends a normal reply |
| SlaveProperties.ReadHoldingReplies | Core/myLib/modbus/modbus_slave/modbus_slave.c:248-273 | FC 0x03 either does nothing or sends a normal reply |
| SlaveProperties.ReadInputReplies | Core/myLib/modbus/modbus_slave/modbus_slave.c:274-301 | FC 0x04 either does nothing or sends a normal reply |
| SlaveProperties.WriteCoilReplies | Core/myLib/modbus/modbus_slave/modbus_slave.c:302-320 | FC 0x05 either does nothing or sends a normal reply |
| SlaveProperties.WriteCoilsReplies | Core/myLib/modbus/modbus_slave/modbus_slave.c:339-369 | FC 0x0F either does nothing or sends a normal reply |
| SlaveProperties.WriteRegistersReplies | Core/myLib/modbus/modbus_slave/modbus_slave.c:370-400 | FC 0x10 either does nothing or sends a normal reply |
| SlaveProperties.PackBitsKeeps | Core/myLib/modbus/modbus_slave/modbus_slave.c:201-206 | packing touches only the data bytes `3 .. 3 + (n+7)/8 - 1` |
| SlaveProperties.ReadBitsResponseHeader | Core/myLib/modbus/modbus_slave/modbus_slave.c:196-216 | the read-bits reply is `5 + (n+7)/8` bytes: id, code, byte count `(n+7)/8`, data, and a CRC with residue 0 |
| SlaveProperties.ReadBitsBody | Core/myLib/modbus/modbus_slave/modbus_slave.c:196-216 | the read-bits reply is the RTU frame of the header followed by the packed data bytes |
| SlaveProperties.ReadBitsResponseBit | Core/myLib/modbus/modbus_slave/modbus_slave.c:201-206 | reply bit `c` of data byte `p` is entry `8p + c` inside the quantity, and otherwise the stale buffer's bit (see Findings) |
| SlaveProperties.WriteCoilsSent | Core/myLib/modbus/modbus_slave/modbus_slave.c:339-369 | an FC 0x0F request within the table runs the callback with the address, the data bytes and the quantity, then sends the code's reply |
| SlaveProperties.RtuWriteCoilSetsOneCoil | Core/myLib/modbus/modbus_slave/modbus_slave.c:302-320 | a valid FC 0x05 frame changes only the addressed coil. That coil becomes 1 exactly when the value is 0xFF00, and 0 otherwise |
| SlaveProperties.RtuWriteRegisterEchoes | Core/myLib/modbus/modbus_slave/modbus_slave.c:322-338 | a valid 8-byte FC 0x06 frame writes the register, runs the callback, and echoes the request, which is a well-formed RTU frame |
| SlaveProperties.RtuWriteRegistersWritesWords | Core/myLib/modbus/modbus_slave/modbus_slave.c:370-400 | an FC 0x10 frame that is acted on has length `9 + 2n` and a range inside the table. Exactly the registers in the range take the request's words, and the reply is the CRC-framed first six bytes |
| SlaveProperties.RtuWriteRegistersRouted | Core/myLib/modbus/modbus_slave/modbus_slave.c:370 | a valid FC 0x10 frame reaches the FC 0x10 handler |
| SlaveProperties.WriteRegistersTaken | Core/myLib/modbus/modbus_slave/modbus_slave.c:372-400 | when the FC 0x10 handler acts, the tables are the holding registers overwritten by `WriteRegisters` |
| SlaveProperties.TcpActsOnlyOnValidFrames | Core/myLib/modbus/modbus_slave/modbus_slave.c:59-71 | a TCP frame changes something only if it passes the length, protocol id and unit id checks, and then a reply is transmitted |
| SlaveProperties.TcpReplyReusesHeader | Core/myLib/modbus/modbus_slave/modbus_slave.c:163-165 | the TCP reply reuses the request's transaction and unit ids, has protocol id 0 and a length field equal to its length minus 6, and fits 256 bytes |
| SlaveProperties.TcpOutcomeTaken | Core/myLib/modbus/modbus_slave/modbus_slave.c:59-71 | a TCP frame that is acted on passed the checks, and its reply frames the switch's PDU |
| SlaveProperties.TcpReplyPduBounds | Core/myLib/modbus/modbus_slave/modbus_slave.c:76-162 | every TCP reply PDU is 2 to 249 bytes long |
| SlaveProperties.TcpExceptionCodes | Core/myLib/modbus/modbus_slave/modbus_slave.c:76-162 | a TCP request gets one of two answers. One is an exception with code 0x01 (unknown function), 0x03 (bad length, or any FC 0x10 refusal) or 0x02 (range), with no state change and no callback. The other is a normal reply carrying the request's code after one callback; FC 0x06/0x10 echo the first five PDU bytes |
| Exchange.RegistersPduParsed | Core/myLib/modbus/modbus_master/modbus_master.c:200-212 | a register PDU with a matching byte count parses to exactly its registers |
| Exchange.RtuRegistersParsed | Core/myLib/modbus/modbus_master/modbus_master.c:164-212 | the slave's RTU register response is accepted by the master and parses back to the same id, code and registers |
| Exchange.TcpRegistersParsed | Core/myLib/modbus/modbus_master/modbus_master.c:154-212 | the slave's TCP register reply is accepted by the master and parses back to the same transaction id, unit id, code and registers |
| Exchange.RtuRequestFields | Core/myLib/modbus/modbus_slave/modbus_slave.c:170-186 | a master RTU request passes the slave's frame checks, and the slave reads back the master's address, quantity and value |
| Exchange.RtuWriteRegisterServed | Core/myLib/modbus/modbus_slave/modbus_slave.c:322-338 | a master FC 0x06 request, served by the slave, writes exactly that register and echoes the request |
| Exchange.RtuReadHoldingServed | Core/myLib/modbus/modbus_slave/modbus_slave.c:248-273 | a master FC 0x03 request is answered with the requested holding registers when the range is nonempty and inside the table, and is dropped otherwise |
| Exchange.RtuReadHoldingRoundTrip | Core/myLib/modbus/modbus_master/modbus_master.c:164-212 | the reply the slave sends to an FC 0x03 request is accepted by the master and parses to exactly the registers requested |
| ModbusRouter.Router.constructor | Core/myLib/modbus/modbus.c:14-16 | the router starts in master role, RTU mode, with no UART |
| ModbusRouter.Router.InitMaster | Core/myLib/modbus/modbus.c:18-24 | master role, and the master engine set up on the same UART and mode |
| ModbusRouter.Router.InitSlave | Core/myLib/modbus/modbus.c:26-54 | slave role, and the slave engine set up with every field of the configuration as given |
| ModbusRouter.Router.SendRequest | Core/myLib/modbus/modbus.c:57-63 | refused with no effect outside the master role; otherwise exactly the master engine's send |
| ModbusRouter.Router.HandleResponse | Core/myLib/modbus/modbus.c:65-71 | ignored outside the master role |
| ModbusRouter.Router.HandleFrame | Core/myLib/modbus/modbus.c:76-82 | ignored outside the slave role; otherwise exactly the slave engine's handling |
| ModbusRouter.Router.GetRole | Core/myLib/modbus/modbus.c:84-87 | returns the role |
| ModbusRouter.Router.GetMode | Core/myLib/modbus/modbus.c:89-92 | returns the router's mode |
| Proximity.Quarter | Core/myLib/myEncoder/proximity_counter.c:59 | C's `/ 4` on `int` truncates toward zero: the remainder has the sign of the dividend and is below 4 in size |
| Proximity.Threshold | Core/myLib/myEncoder/proximity_counter.c:42-50 | the hysteresis of the entry the downward scan finds, or 50 when it finds none; LastReached, SortedThreshold and DefaultThresholds state it |
| Proximity.Filter | Core/myLib/myEncoder/proximity_counter.c:52-65 | the filter step: within the threshold the counter is incremented modulo 256 and the value moves a quarter of the way from the tenth reading on; outside it the new reading is taken; FilterBetween and FilterStability state it |
| Proximity.Account | Core/myLib/myEncoder/proximity_counter.c:298-316 | the first period is taken alone; later periods are summed until the window fills, then averaged; SecondEdgeMeasures and AveragingWindow state it |
| Proximity.Capture | Core/myLib/myEncoder/proximity_counter.c:283-321 | the first edge arms the capture; a later edge measures the tick distance, accounts the period, and restarts from this edge; FirstEdgeArms, SecondEdgeMeasures and CaptureFits state it |
| Proximity.Timeout | Core/myLib/myEncoder/proximity_counter.c:159-178 | with no edge for longer than the timeout, measured as a 32-bit tick difference, the reading, the averaging and the filter history are cleared and the capture is disarmed; TimeoutRestarts states it |
| Proximity.Process | Core/myLib/myEncoder/proximity_counter.c:133-154 | a ready capture with a positive period runs the reading through the filter and stores its output; a ready capture with a zero period only clears the ready flag; ProcessConsumes and ProcessFits state it |
| Proximity.LastReached | Core/myLib/myEncoder/proximity_counter.c:45-50 | the downward scan stops at the last entry whose threshold the reading reaches; when it finds none, no entry is reached |
| Proximity.SortedThreshold | Core/myLib/myEncoder/proximity_counter.c:42-50 | on a sorted table, the entry found has the highest threshold the reading reaches |
| Proximity.DefaultThresholds | Core/myLib/myEncoder/proximity_counter.c:424-437 | with the default table the hysteresis is 5, 10, 20, 30 and 50 over the bands 0, 100, 500, 800 and 1100 rpm, and 50 for a negative reading |
| Proximity.FilterBetween | Core/myLib/myEncoder/proximity_counter.c:52-65 | the filtered value lies between the previous and the new reading, and within the threshold it moves by at most a quarter of the distance |
| Proximity.FilterStability | Core/myLib/myEncoder/proximity_counter.c:52-65 | within the threshold the 8-bit counter is incremented modulo 256, and the value holds until the tenth reading; outside it the new reading is taken and the counter is cleared |
| Proximity.ResetState | Core/myLib/myEncoder/proximity_counter.c:233-258 | a reset disarms the capture, clears the ready flag, and marks the next period as a first measurement |
| Proximity.Distance | Core/myLib/myEncoder/proximity_counter.c:294-296 | the tick distance is computed modulo 2^32 and is exact when the true distance fits 32 bits |
| Proximity.DistanceExample | Core/myLib/myEncoder/proximity_counter.c:294-296 | two overflows between captures 60000 and 1000 are 72072 ticks |
| Proximity.CaptureFits | Core/myLib/myEncoder/proximity_counter.c:278-323 | a capture keeps every runtime field within its C width |
| Proximity.ProcessFits | Core/myLib/myEncoder/proximity_counter.c:133-154 | processing keeps every runtime field within its C width |
| Proximity.FirstEdgeArms | Core/myLib/myEncoder/proximity_counter.c:284-289 | the first edge arms the measurement and produces no reading; overflows are counted only while armed |
| Proximity.SecondEdgeMeasures | Core/myLib/myEncoder/proximity_counter.c:290-320 | the first period after arming measures the true tick distance and marks a reading ready; the next period starts at this edge |
| Proximity.AveragingWindow | Core/myLib/myEncoder/proximity_counter.c:302-316 | later periods are summed until the count reaches the window; then the reading is their truncated mean and the window restarts |
| Proximity.PeriodCountBelowWindow | Core/myLib/myEncoder/proximity_counter.c:302-316 | with a window of 1 to 255, every handler keeps the period count below the window |
| Proximity.TimeoutRestarts | Core/myLib/myEncoder/proximity_counter.c:159-178 | a timeout clears the reading, the averaging and the filter history and disarms the capture; a second check at the same tick changes nothing |
| Proximity.ProcessConsumes | Core/myLib/myEncoder/proximity_counter.c:133-154 | processing clears the ready flag; a new reading sets the value and the filter history to the filter's output |
| Proximity.InsertAfterPermutes | Core/myLib/myEncoder/proximity_counter.c:396-403 | moving one entry down is a permutation that leaves the tail alone |
| Proximity.InsertAfterSorts | Core/myLib/myEncoder/proximity_counter.c:396-403 | inserting the key after the last smaller-or-equal entry extends the sorted prefix |
| Proximity.InsertAfterKeepsTies | Core/myLib/myEncoder/proximity_counter.c:396-403 | moving an entry down past entries of greater threshold keeps, for every threshold, the entries with that threshold in the same order |
| Proximity.Insert | Core/myLib/myEncoder/proximity_counter.c:396-403 | one pass of the outer loop sorts one more entry, permutes the array, keeps entries of equal threshold in their order, and leaves the tail alone |
| Proximity.InsertionSort | Core/myLib/myEncoder/proximity_counter.c:394-404 | the first `size` entries end sorted by threshold and a permutation of what they were, with entries of equal threshold in their earlier order (the sort is stable, as the strict `>` of the shifting loop makes it); the rest is untouched |
| Proximity.ProximityCounter.constructor | Core/myLib/myEncoder/proximity_counter.c:73-99 | a zero pulse count, timeout or window becomes 1, 10000 ms or 3. The table is the sorted default, and the runtime is reset at the current tick |
| Proximity.ProximityCounter.InitDefaultHysteresis | Core/myLib/myEncoder/proximity_counter.c:424-437 | five default entries, sorted |
| Proximity.ProximityCounter.Reset | Core/myLib/myEncoder/proximity_counter.c:233-258 | the runtime becomes `ResetState(now)` |
| Proximity.ProximityCounter.UpdateConfig | Core/myLib/myEncoder/proximity_counter.c:263-273 | a zero pulse count becomes 1, then a reset |
| Proximity.ProximityCounter.SetPPR | Core/myLib/myEncoder/proximity_counter.c:203-208 | 0 is ignored; any other count is stored |
| Proximity.ProximityCounter.SetTimeout | Core/myLib/myEncoder/proximity_counter.c:223-228 | 0 is ignored; any other timeout is stored |
| Proximity.ProximityCounter.HandleCapture | Core/myLib/myEncoder/proximity_counter.c:278-323 | a capture from this counter's timer updates the runtime as `Capture`, keeps every field in range, and is ignored otherwise |
| Proximity.ProximityCounter.HandleOverflow | Core/myLib/myEncoder/proximity_counter.c:328-336 | an overflow of this counter's timer counts only while armed, modulo 2^32 |
| Proximity.ProximityCounter.CheckTimeout | Core/myLib/myEncoder/proximity_counter.c:159-178 | the runtime becomes `Timeout(old, now, timeout)` |
| Proximity.ProximityCounter.ProcessCapture | Core/myLib/myEncoder/proximity_counter.c:133-154 | the runtime becomes `Process(old, table, size, reading)` |
| Proximity.ProximityCounter.ApplyHysteresisFilter | Core/myLib/myEncoder/proximity_counter.c:34-66 | the scan and the filter step compute `Filter` on the table, and only the stability counter changes |
| Proximity.ProximityCounter.SetHysteresisEntry | Core/myLib/myEncoder/proximity_counter.c:378-405 | an index of 10 or more changes nothing. Otherwise the entry is written and the size grows to cover it. The first `size` entries are then sorted by threshold and a permutation of the written table, entries of equal threshold keep their order, and the rest is untouched |
| Proximity.ProximityCounter.GetHysteresisEntry | Core/myLib/myEncoder/proximity_counter.c:410-419 | fails exactly for an index at or past the size; otherwise returns that entry |
| Proximity.ProximityCounter.GetRpm | Core/myLib/myEncoder/proximity_counter.c:183-188 | returns the current reading |
| Storage.Erased | Core/myLib/storage/nonVolatileStorage.c:26-37 | erasing a page makes its 1 KB read as all ones and keeps every other address |
| Storage.Read | Core/myLib/storage/nonVolatileStorage.c:53-60 | `n` words read at stride 4 from the page address |
| Storage.Programmed | Core/myLib/storage/nonVolatileStorage.c:39-47 | the memory after programming the words at stride 4 from an address; ReadProgrammed states it |
| Storage.WriteOutcome | Core/myLib/storage/nonVolatileStorage.c:21-51 | the status and the memory after erasing a page and programming words until the first failure; WriteOutcomeReads and WriteKeepsOtherPages state it |
| Storage.FirstFailure | Core/myLib/storage/nonVolatileStorage.c:40-47 | the index of the first failed program, and every program before it succeeded |
| Storage.ReadProgrammed | Core/myLib/storage/nonVolatileStorage.c:39-47 | programmed words read back at their addresses, and other addresses are unchanged |
| Storage.ReadBack | Core/myLib/storage/nonVolatileStorage.c:21-60 | erasing a page and programming words into it reads back the same words |
| Storage.WriteKeepsOtherPages | Core/myLib/storage/nonVolatileStorage.c:21-51 | writing one page leaves every address outside it unchanged |
| Storage.WriteOutcomeReads | Core/myLib/storage/nonVolatileStorage.c:21-51 | the write succeeds exactly when the erase and every program succeed, and then reads back. A failed erase reports its status and changes nothing. A failed program reports its status, and the words before it are already written |
| Storage.Nvs.constructor | Core/myLib/storage/nonVolatileStorage.c:53-60 | a store over the given memory |
| Storage.Nvs.WriteWords | Core/myLib/storage/nonVolatileStorage.c:21-51 | the erase-then-program loop, stopping at the first failure, computes `WriteOutcome` |
| Storage.Nvs.ReadWords | Core/myLib/storage/nonVolatileStorage.c:53-60 | the read loop fills the first `n` words and leaves the rest of the array alone |
| Storage.Nvs.ReadWord | Core/myLib/storage/nonVolatileStorage.c:85-88 | one word read |
| MyFlash.Pack | Core/myLib/myFlash/myFlash.c:63 | the slave id goes in bits 0-7, the enable flag in bits 8-15, and the reserved half-word in bits 16-31 |
| MyFlash.Unpack | Core/myLib/myFlash/myFlash.c:69-72 | unpacking a word and packing the result gives back the word |
| MyFlash.UnpackPack | Core/myLib/myFlash/myFlash.c:59-73 | packing then unpacking a configuration gives it back |
| MyFlash.SaveUartParams | Core/myLib/myFlash/myFlash.c:3-11 | the four UART fields written in order to the UART page |
| MyFlash.LoadUartParams | Core/myLib/myFlash/myFlash.c:13-21 | the UART fields are the four words of the UART page |
| MyFlash.SaveEncoderParams | Core/myLib/myFlash/myFlash.c:23-29 | diameter, then pulses per revolution, written to the encoder page |
| MyFlash.LoadEncoderParams | Core/myLib/myFlash/myFlash.c:31-37 | the encoder fields are the two words of the encoder page |
| MyFlash.SaveLength | Core/myLib/myFlash/myFlash.c:39-42 | the length written as one word |
| MyFlash.LoadLength | Core/myLib/myFlash/myFlash.c:44-47 | the length is the word of its page |
| MyFlash.SaveMeasurementMode | Core/myLib/myFlash/myFlash.c:49-52 | the mode written as one word |
| MyFlash.LoadMeasurementMode | Core/myLib/myFlash/myFlash.c:54-57 | the mode is the word of its page |
| MyFlash.SaveModbusConfig | Core/myLib/myFlash/myFlash.c:59-65 | the packed configuration written as one word |
| MyFlash.LoadModbusConfig | Core/myLib/myFlash/myFlash.c:67-73 | the configuration whose packing is the stored word |
| MyFlash.UartRoundTrip | Core/myLib/myFlash/myFlash.c:3-21 | after a successful save, loading gives back the same UART parameters |
| MyFlash.EncoderRoundTrip | Core/myLib/myFlash/myFlash.c:23-37 | after a successful save, loading gives back the same encoder parameters |
| MyFlash.WordRoundTrip | Core/myLib/myFlash/myFlash.c:39-57 | after a successful save, loading gives back the same length or mode |
| MyFlash.ModbusRoundTrip | Core/myLib/myFlash/myFlash.c:59-73 | after a successful save, loading gives back the same Modbus configuration |
| MyFlash.SaveKeepsOtherGroups | Core/myLib/myFlash/myFlash.h:9-13 | the five groups sit on distinct pages, so saving one leaves the others as they read before |
| Findings.MisplacedTrailer | Core/myLib/modbus/modbus_slave/modbus_slave.c:314-316 | as written, the FC 0x05 reply carries the CRC in bytes 3 and 4, and bytes 6 and 7 come from the stale buffer |
| Findings.WriteCoilReplyRejected | Core/myLib/modbus/modbus_slave/modbus_slave.c:314-316 | the reply to `01 05 00 00 FF 00` is `01 05 00 8C 3A 00 00 00`, which the master rejects |
| Findings.WriteCoilServedWithBadReply | Core/myLib/modbus/modbus_slave/modbus_slave.c:302-320 | the slave sets the coil and sends that rejected reply |
| Findings.EchoReply | Core/myLib/modbus/modbus_slave/modbus_slave.c:302-320 | corrected: the reply echoes the six request bytes and closes them with a CRC |
| Findings.EchoReplyParsed | Core/myLib/modbus/modbus_master/modbus_master.c:213-221 | the corrected FC 0x05/0x0F reply is accepted and parses to the write acknowledgement |
| Findings.OverlongReadParsed | Core/myLib/modbus/modbus_master/modbus_master.c:204 | as written, a TCP reply with byte count 130 parses 65 registers, more than the 64 slots |
| Findings.EnvelopeFixed | Core/myLib/modbus/modbus_master/modbus_master.c:168-186 | corrected: the PDU the envelope locates ends inside the received frame, before the CRC in RTU |
| Findings.ParseFixedRegistersFit | Core/myLib/modbus/modbus_master/modbus_master.c:204 | corrected: a parsed register response never holds more than 64 registers |
| Findings.OverlongReadRefused | Core/myLib/modbus/modbus_master/modbus_master.c:204 | corrected: the overlong reply is refused |
| Findings.CrcByteReadAsRegister | Core/myLib/modbus/modbus_master/modbus_master.c:184-185 | as written, an RTU reply whose byte count reaches into the CRC parses the CRC's low byte as part of a register; the corrected parser refuses it |
| Findings.ParseFixedInsideFrame | Core/myLib/modbus/modbus_master/modbus_master.c:180-212 | corrected: every byte the parser reads lies inside the frame, before the CRC |
| Findings.EmptyLengthServed | Core/myLib/modbus/modbus_slave/modbus_slave.c:70 | as written, a length field of 0 gives PDU length 65535, and the request is served |
| Findings.EmptyLengthTaken | Core/myLib/modbus/modbus_slave/modbus_slave.c:59-71 | such a frame passes every check, and its PDU is dispatched with length 65535 |
| Findings.EmptyLengthRead | Core/myLib/modbus/modbus_slave/modbus_slave.c:78-99 | an FC 0x03 PDU with that length runs the read callback |
| Findings.PduLengthChecked | Core/myLib/modbus/modbus_slave/modbus_slave.c:66-70 | corrected: a PDU length is produced only when it is at least 1 and lies inside the frame |
| Findings.PduLengthCheckedAgrees | Core/myLib/modbus/modbus_slave/modbus_slave.c:66-70 | the corrected length equals the original one for every length field of 2 or more that passes the check, and refuses length 0 |
| Findings.PaddingFromStaleBuffer | Core/myLib/modbus/modbus_slave/modbus_slave.c:201-206 | as written, a one-coil read over a stale byte 0xFF answers with data byte 0xFF |
| Findings.ClearedPadding | Core/myLib/modbus/modbus_slave/modbus_slave.c:201-206 | corrected: a data bit is set exactly when its coil is inside the quantity and set |
| Findings.MisplacedWritePastBuffer | Core/myLib/modbus/modbus_slave/modbus_slave.c:339-369 | as written, a valid FC 0x0F frame within the coils with a byte count of 252 or more is served, its CRC store index `4 + byte_count` is at least 256, and the eight bytes sent are the head and two stale bytes |
| Findings.OneCoilByteCount255 | Core/myLib/modbus/modbus_slave/modbus_slave.c:339-369 | with one coil, the frame `01 0F 00 00 00 01 FF 01` and its CRC switches coil 0 on and stores the CRC at `response[258]` and `response[259]` |

## Left out

- Floating point. In the source `rpm` is a `float` computed from the period, the timer clock and the pulses per revolution. The model takes the integer reading (`rpmRaw`) as a parameter of `ProcessCapture`, and `rpm`, `rpm_previous` and the filter work on `int`. `ProximityCounter_GetFrequency`, `ProximityCounter_GetSpeed`, `ProximityCounter_SetDiameter`, `ProximityCounter_SetSpeedUnit`, `ProximityCounter_GetSpeedUnit` and the diameter field are float or unit conversions and are not modelled.
- `ProximityCounter_Start` and `ProximityCounter_Stop` only start and stop HAL timers and are not modelled.
- `ProximityCounter_Init`'s `memset` and the stored `htim` are not modelled. The timer-identity and channel test of the handlers is the `ours` parameter.
- Proximity.ProximityCounter.ApplyHysteresisFilter: `int` overflow of `new_rpm - prev_rpm` is not modelled; integers are unbounded.
- Interrupt concurrency and `volatile`. Each handler runs atomically in the model. The queue's single-producer / single-consumer discipline is not modelled beyond the sequential push and pop.
- `HAL_Delay`, the UART's DMA completion, `HAL_GetTick` and the GPIO driver-enable pin become events and parameters.
- User callbacks become events in the trace. What a callback does is not modelled.
- Null-pointer checks (`!frame`, `!req`, `!out`, `!prox_counter`, `!cfg`) are not modelled, because Dafny references and values are never null.
- `NVS_ErasePage` (nonVolatileStorage.c:4-19) and `NVS_WriteWord` (62-83) have no caller in the core and are not modelled.
- `command_handler.c`, `main.c` and `myEncoder.c` are outside the core and are not part of this model.
- ModbusSlave.Slave.Init, ModbusSlave.Slave.InitEx and ModbusRouter.Router.InitSlave require `ConfigFits`. That means at most 1968 coils or discrete inputs, at most 123 holding or input registers, and distinct coil and discrete-input arrays and distinct holding and input arrays. These bounds keep every FC 0x01-0x04 response inside the 256-byte buffers, and every FC 0x0F data byte read inside the receive buffer. Larger tables make the source read and write past its buffers, and that undefined behaviour is not modelled. The bounds do not stop the FC 0x0F store past the response buffer; see the next line.
- ModbusSlave.CloseMisplaced (with ModbusSlave.MisplacedCrcResponse): the source stores the CRC at `response[3 + byte_count]` and `response[4 + byte_count]`, with the FC 0x0F request's byte count unchecked. A byte count of 252 or more therefore writes at or past `response[256]`, whatever the table sizes (Findings.MisplacedWritePastBuffer). The model drops a store that falls outside the 256-byte buffer. What such a store overwrites on the stack is not modelled.
- ModbusMaster.Master.ParseResponse requires a buffer of at least 263 bytes (`ParseBufferMin`). The parser reads up to a byte count's worth past the frame, and the model gives those reads the buffer's content instead of modelling an out-of-bounds read.
- ModbusMaster.Master.SendRequest and ModbusRouter.Router.SendRequest require `WriteDataFits` and `FrameFits`. The caller's `write_data` must hold the words `build_pdu` reads, and the frame must fit the 256-byte buffer. The source does not check either.
- ModbusSlave.Slave.HandleFrame: the receive buffer is modelled as its 256 bytes plus `len`, so reads past `len` see stale buffer bytes, as on the device.

## Findings

| source | as written | input that shows it | evidently intended | confidence | as-written member | corrected member |
|---|---|---|---|---|---|---|
| Core/myLib/modbus/modbus_slave/modbus_slave.c:314-316 | the FC 0x05 (and, at lines 362-364, FC 0x0F) reply computes the CRC over six bytes but stores it at `response[3]`/`response[4]` and sends eight bytes, two of them from the uninitialised buffer | request `01 05 00 00 FF 00 8C 3A` with zero stale bytes gives reply `01 05 00 8C 3A 00 00 00`, which fails the master's CRC check | the six-byte echo closed by its CRC in bytes 6 and 7 (section 6.5 of the Modbus Application Protocol Specification V1.1b3) | not executed | Findings.WriteCoilReplyRejected | Findings.EchoReplyParsed |
| Core/myLib/modbus/modbus_master/modbus_master.c:204 | the register guard compares the byte count with a bound no 8-bit byte count can exceed, so it never refuses | a TCP reply with byte count 130 and `len` 139 parses 65 registers into the 64-slot `registers` array | refuse byte counts above 128 (64 registers) | not executed | Findings.OverlongReadParsed | Findings.OverlongReadRefused |
| Core/myLib/modbus/modbus_master/modbus_master.c:184-185 | the RTU PDU is taken to be `len - 2` bytes long from `data[1]`, one byte more than lies between the slave id and the CRC | RTU frame `id 03 02 x crcLo crcHi` (length 6) parses the CRC low byte as the low half of a register | refuse a byte count that reaches past the PDU | not executed | Findings.CrcByteReadAsRegister | Findings.ParseFixedInsideFrame |
| Core/myLib/modbus/modbus_slave/modbus_slave.c:70 | the PDU length `length_field - 1` wraps to 65535 for a length field of 0, and the frame passes the `len >= 6 + length` check | an MBAP frame with length field 0 and PDU `03 00 00 00 01` is served as a read of one holding register | refuse a length field below 2 (a PDU of at least one byte) | not executed | Findings.EmptyLengthServed | Findings.PduLengthCheckedAgrees |
| Core/myLib/modbus/modbus_slave/modbus_slave.c:201-206 | the FC 0x01/0x02 loop sets or clears only the bits it packs, so the padding bits of the last data byte keep the uninitialised buffer's content | FC 0x01 with quantity 1 and a stale byte 0xFF at `response[3]` answers with data byte 0xFF | padding bits zero (section 6.1 of the Modbus Application Protocol Specification V1.1b3) | not executed | Findings.PaddingFromStaleBuffer | Findings.ClearedPadding |
| Core/myLib/modbus/modbus_slave/modbus_slave.c:343-364 | the FC 0x0F handler takes `byte_count` from `frame[6]` without checking it and stores the CRC at `response[3 + byte_count]` and `response[4 + byte_count]` of the 256-byte `response` (line 185) | with a one-coil table, `01 0F 00 00 00 01 FF 01` and its CRC writes `response[258]` and `response[259]` | no store outside the buffer: the six-byte echo closed by its CRC in bytes 6 and 7 (section 6.11 of the Modbus Application Protocol Specification V1.1b3) | not executed | Findings.MisplacedWritePastBuffer | Findings.EchoReply |
