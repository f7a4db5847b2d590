/** The parameter store of `myFlash.c`: each group of settings has its own flash
    page, is saved as a short run of 32-bit words through the word store and
    loaded back in the same order. The Modbus configuration is packed into one
    word. */
module MyFlash {
  import opened Storage

  /** The page layout of `myFlash.h`. */
  const PageUart: nat := 0x0801_EC00
  const PageModbus: nat := 0x0801_F000
  const PageMode: nat := 0x0801_F400
  const PageEncoder: nat := 0x0801_F800
  const PageLength: nat := 0x0801_FC00

  const Pages: seq<nat> := [PageUart, PageModbus, PageMode, PageEncoder, PageLength]

  /** `myUARTParams`. */
  datatype UartParams = UartParams(baudRate: bv32, parity: bv32, stopBits: bv32, frameTimeoutMs: bv32)

  /** `myEncoderParams`. */
  datatype EncoderParams = EncoderParams(diameter: bv32, pulsesPerRev: bv32)

  /** `myModbusConfig`. */
  datatype ModbusConfig = ModbusConfig(slaveId: bv8, enabled: bv8, reserved: bv16)

  /** The words the UART parameters are saved as, in field order. */
  function UartWords(p: UartParams): seq<bv32> {
    [p.baudRate, p.parity, p.stopBits, p.frameTimeoutMs]
  }

  /** The words the encoder parameters are saved as: diameter, then pulses per
      revolution. */
  function EncoderWords(p: EncoderParams): seq<bv32> {
    [p.diameter, p.pulsesPerRev]
  }

  /** The Modbus configuration as one word: the slave id in bits 0-7, the enable
      flag in bits 8-15, the reserved half-word in bits 16-31. */
  function Pack(c: ModbusConfig): (w: bv32)
    ensures w & 0xFF == c.slaveId as bv32
    ensures (w >> 8) & 0xFF == c.enabled as bv32
    ensures w >> 16 == c.reserved as bv32
  {
    (c.reserved as bv32 << 16) | (c.enabled as bv32 << 8) | c.slaveId as bv32
  }

  /** The fields of a stored word; no bit is lost, so every word is the packing
      of what it unpacks to. */
  function Unpack(w: bv32): (c: ModbusConfig)
    ensures Pack(c) == w
  {
    ModbusConfig((w & 0xFF) as bv8, ((w >> 8) & 0xFF) as bv8, ((w >> 16) & 0xFFFF) as bv16)
  }

  /** Unpacking a packed configuration gives it back. */
  lemma UnpackPack(c: ModbusConfig)
    ensures Unpack(Pack(c)) == c
  {
  }

  /** `myFlash_SaveUARTParams`: the status is the word store's. */
  method SaveUartParams(nvs: Nvs, p: UartParams, erase: Status, program: seq<Status>) returns (status: Status)
    requires |program| == 4
    modifies nvs
    ensures (status, nvs.mem) == WriteOutcome(old(nvs.mem), PageUart, UartWords(p), erase, program)
  {
    var buffer := new bv32[4];
    buffer[0] := p.baudRate;
    buffer[1] := p.parity;
    buffer[2] := p.stopBits;
    buffer[3] := p.frameTimeoutMs;
    assert buffer[..] == UartWords(p);
    status := nvs.WriteWords(PageUart, buffer[..], erase, program);
  }

  /** `myFlash_LoadUARTParams`: the parameters whose words are the four at the
      UART page. */
  method LoadUartParams(nvs: Nvs) returns (p: UartParams)
    ensures UartWords(p) == Read(nvs.mem, PageUart, 4)
  {
    var buffer := new bv32[4];
    nvs.ReadWords(PageUart, buffer, 4);
    p := UartParams(buffer[0], buffer[1], buffer[2], buffer[3]);
    assert buffer[..4] == buffer[..];
  }

  /** `myFlash_SaveEncoderParams`: the status is the word store's. */
  method SaveEncoderParams(nvs: Nvs, p: EncoderParams, erase: Status, program: seq<Status>) returns (status: Status)
    requires |program| == 2
    modifies nvs
    ensures (status, nvs.mem) == WriteOutcome(old(nvs.mem), PageEncoder, EncoderWords(p), erase, program)
  {
    var buffer := new bv32[2];
    buffer[0] := p.diameter;
    buffer[1] := p.pulsesPerRev;
    assert buffer[..] == EncoderWords(p);
    status := nvs.WriteWords(PageEncoder, buffer[..], erase, program);
  }

  /** `myFlash_LoadEncoderParams`: the parameters whose words are the two at the
      encoder page. */
  method LoadEncoderParams(nvs: Nvs) returns (p: EncoderParams)
    ensures EncoderWords(p) == Read(nvs.mem, PageEncoder, 2)
  {
    var buffer := new bv32[2];
    nvs.ReadWords(PageEncoder, buffer, 2);
    p := EncoderParams(buffer[0], buffer[1]);
    assert buffer[..2] == buffer[..];
  }

  /** `myFlash_SaveLength`: one word; the status is the word store's. */
  method SaveLength(nvs: Nvs, length: bv32, erase: Status, program: seq<Status>) returns (status: Status)
    requires |program| == 1
    modifies nvs
    ensures (status, nvs.mem) == WriteOutcome(old(nvs.mem), PageLength, [length], erase, program)
  {
    status := nvs.WriteWords(PageLength, [length], erase, program);
  }

  /** `myFlash_LoadLength`. */
  method LoadLength(nvs: Nvs) returns (length: bv32)
    ensures [length] == Read(nvs.mem, PageLength, 1)
  {
    length := nvs.ReadWord(PageLength);
  }

  /** `myFlash_SaveMeasurementMode`: one word; the status is the word store's. */
  method SaveMeasurementMode(nvs: Nvs, mode: bv32, erase: Status, program: seq<Status>) returns (status: Status)
    requires |program| == 1
    modifies nvs
    ensures (status, nvs.mem) == WriteOutcome(old(nvs.mem), PageMode, [mode], erase, program)
  {
    status := nvs.WriteWords(PageMode, [mode], erase, program);
  }

  /** `myFlash_LoadMeasurementMode`. */
  method LoadMeasurementMode(nvs: Nvs) returns (mode: bv32)
    ensures [mode] == Read(nvs.mem, PageMode, 1)
  {
    mode := nvs.ReadWord(PageMode);
  }

  /** `myFlash_SaveModbusConfig`: the packed word; the status is the word
      store's. */
  method SaveModbusConfig(nvs: Nvs, c: ModbusConfig, erase: Status, program: seq<Status>) returns (status: Status)
    requires |program| == 1
    modifies nvs
    ensures (status, nvs.mem) == WriteOutcome(old(nvs.mem), PageModbus, [Pack(c)], erase, program)
  {
    var buffer := new bv32[1];
    buffer[0] := Pack(c);
    assert buffer[..] == [Pack(c)];
    status := nvs.WriteWords(PageModbus, buffer[..], erase, program);
  }

  /** `myFlash_LoadModbusConfig`: the configuration whose packing is the word at
      the Modbus page. */
  method LoadModbusConfig(nvs: Nvs) returns (c: ModbusConfig)
    ensures [Pack(c)] == Read(nvs.mem, PageModbus, 1)
  {
    var data := nvs.ReadWord(PageModbus);
    c := ModbusConfig((data & 0xFF) as bv8, ((data >> 8) & 0xFF) as bv8, ((data >> 16) & 0xFFFF) as bv16);
  }

  /** After a save that reports `Ok`, a load of the same group returns what was
      saved: the UART parameters. */
  lemma UartRoundTrip(m: map<nat, bv32>, p: UartParams, erase: Status, program: seq<Status>, q: UartParams)
    requires |program| == 4
    requires WriteOutcome(m, PageUart, UartWords(p), erase, program).0 == Ok
    requires UartWords(q) == Read(WriteOutcome(m, PageUart, UartWords(p), erase, program).1, PageUart, 4)
    ensures q == p
  {
    WriteOutcomeReads(m, PageUart, UartWords(p), erase, program);
  }

  /** The same for the encoder parameters. */
  lemma EncoderRoundTrip(m: map<nat, bv32>, p: EncoderParams, erase: Status, program: seq<Status>, q: EncoderParams)
    requires |program| == 2
    requires WriteOutcome(m, PageEncoder, EncoderWords(p), erase, program).0 == Ok
    requires EncoderWords(q) == Read(WriteOutcome(m, PageEncoder, EncoderWords(p), erase, program).1, PageEncoder, 2)
    ensures q == p
  {
    WriteOutcomeReads(m, PageEncoder, EncoderWords(p), erase, program);
  }

  /** The same for a one-word group (the length and the measurement mode), at
      any page. */
  lemma WordRoundTrip(m: map<nat, bv32>, page: nat, v: bv32, erase: Status, program: seq<Status>, u: bv32)
    requires |program| == 1
    requires WriteOutcome(m, page, [v], erase, program).0 == Ok
    requires [u] == Read(WriteOutcome(m, page, [v], erase, program).1, page, 1)
    ensures u == v
  {
    WriteOutcomeReads(m, page, [v], erase, program);
  }

  /** The same for the Modbus configuration, through the packing. */
  lemma ModbusRoundTrip(m: map<nat, bv32>, c: ModbusConfig, erase: Status, program: seq<Status>, d: ModbusConfig)
    requires |program| == 1
    requires WriteOutcome(m, PageModbus, [Pack(c)], erase, program).0 == Ok
    requires [Pack(d)] == Read(WriteOutcome(m, PageModbus, [Pack(c)], erase, program).1, PageModbus, 1)
    ensures d == c
  {
    WriteOutcomeReads(m, PageModbus, [Pack(c)], erase, program);
    UnpackPack(c);
    UnpackPack(d);
  }

  /** Saving one group, whatever the controller answers, leaves the first
      `n` words of every other group's page as they were. */
  lemma SaveKeepsOtherGroups(m: map<nat, bv32>, i: nat, words: seq<bv32>, erase: Status, program: seq<Status>, j: nat, n: nat)
    requires i < |Pages| && j < |Pages| && i != j
    requires |program| == |words| <= PageWords && n <= PageWords
    ensures Read(WriteOutcome(m, Pages[i], words, erase, program).1, Pages[j], n) == Read(m, Pages[j], n)
  {
    var m' := WriteOutcome(m, Pages[i], words, erase, program).1;
    forall k | 0 <= k < n
      ensures ReadAt(m', Pages[j] + 4 * k) == ReadAt(m, Pages[j] + 4 * k)
    {
      WriteKeepsOtherPages(m, Pages[i], words, erase, program, Pages[j] + 4 * k);
    }
  }
}
