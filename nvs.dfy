/** The word store under `myFlash.c` (`nonVolatileStorage.c`): flash memory as a
    map from byte address to 32-bit word, where an address the map does not hold
    reads as erased (all ones). The erase and program outcomes of the flash
    controller (`HAL_FLASHEx_Erase`, `HAL_FLASH_Program`) are parameters. */
module Storage {
  /** `HAL_StatusTypeDef`. */
  datatype Status = Ok | Error | Busy | Timeout

  /** One flash page of the STM32F103C8: 1 KB, 256 words. */
  const PageSize: nat := 0x400
  const PageWords: nat := 256

  /** The value of erased flash. */
  const ErasedWord: bv32 := 0xFFFF_FFFF

  /** The word at `addr`. */
  function ReadAt(m: map<nat, bv32>, addr: nat): bv32 {
    if addr in m then m[addr] else ErasedWord
  }

  /** `m` with the page at `page` erased. */
  function Erased(m: map<nat, bv32>, page: nat): (r: map<nat, bv32>)
    ensures forall a: nat :: ReadAt(r, a) == if page <= a < page + PageSize then ErasedWord else ReadAt(m, a)
  {
    map a | a in m && !(page <= a < page + PageSize) :: m[a]
  }

  /** `m` with the words `w` programmed from `addr` upward, one word every four
      bytes. */
  function Programmed(m: map<nat, bv32>, addr: nat, w: seq<bv32>): map<nat, bv32>
    decreases |w|
  {
    if |w| == 0 then m
    else Programmed(m, addr, w[..|w| - 1])[addr + 4 * (|w| - 1) := w[|w| - 1]]
  }

  /** The `n` words from `addr` upward. */
  function Read(m: map<nat, bv32>, addr: nat, n: nat): (r: seq<bv32>)
    ensures |r| == n && forall i :: 0 <= i < n ==> r[i] == ReadAt(m, addr + 4 * i)
  {
    seq(n, i requires 0 <= i < n => ReadAt(m, addr + 4 * i))
  }

  /** The index of the first controller result that is not `Ok`, or the length
      when all are. */
  function FirstFailure(p: seq<Status>): (k: nat)
    ensures k <= |p| && (forall j :: 0 <= j < k ==> p[j] == Ok) && (k < |p| ==> p[k] != Ok)
  {
    if |p| == 0 then 0 else if p[0] != Ok then 0 else 1 + FirstFailure(p[1..])
  }

  /** `NVS_WriteWords` as a value: a failed erase is returned with the store as it
      was; otherwise the page is erased, words are programmed until the first one
      the controller refuses, and that refusal (or `Ok`) is returned. */
  function WriteOutcome(m: map<nat, bv32>, page: nat, words: seq<bv32>, erase: Status, program: seq<Status>)
    : (Status, map<nat, bv32>)
    requires |program| == |words|
  {
    if erase != Ok then (erase, m)
    else
      var k := FirstFailure(program);
      (if k < |words| then program[k] else Ok, Programmed(Erased(m, page), page, words[..k]))
  }

  /** A programmed word reads back, and every other address keeps its word. */
  lemma {:induction false} ReadProgrammed(m: map<nat, bv32>, addr: nat, w: seq<bv32>, x: nat)
    ensures ReadAt(Programmed(m, addr, w), x) ==
      if addr <= x < addr + 4 * |w| && (x - addr) % 4 == 0 then w[(x - addr) / 4] else ReadAt(m, x)
    decreases |w|
  {
    if |w| > 0 {
      var v := w[..|w| - 1];
      ReadProgrammed(m, addr, v, x);
      if addr <= x < addr + 4 * |v| && (x - addr) % 4 == 0 {
        assert v[(x - addr) / 4] == w[(x - addr) / 4];
      }
    }
  }

  /** Words written to a page read back from it. */
  lemma ReadBack(m: map<nat, bv32>, page: nat, w: seq<bv32>)
    ensures Read(Programmed(Erased(m, page), page, w), page, |w|) == w
  {
    var p := Programmed(Erased(m, page), page, w);
    var r := Read(p, page, |w|);
    forall i | 0 <= i < |w|
      ensures r[i] == w[i]
    {
      ReadProgrammed(Erased(m, page), page, w, page + 4 * i);
      assert (page + 4 * i - page) / 4 == i;
    }
  }

  /** A write to one page leaves the words of every other page as they were,
      whatever the controller answers. */
  lemma WriteKeepsOtherPages(m: map<nat, bv32>, page: nat, words: seq<bv32>, erase: Status, program: seq<Status>, x: nat)
    requires |program| == |words| <= PageWords
    requires x < page || page + PageSize <= x
    ensures ReadAt(WriteOutcome(m, page, words, erase, program).1, x) == ReadAt(m, x)
  {
    if erase == Ok {
      var k := FirstFailure(program);
      ReadProgrammed(Erased(m, page), page, words[..k], x);
    }
  }

  /** A write that reports `Ok` leaves exactly the given words at the start of the
      page; a failed erase changes nothing; a refused word leaves the words
      before it written. */
  lemma WriteOutcomeReads(m: map<nat, bv32>, page: nat, words: seq<bv32>, erase: Status, program: seq<Status>)
    requires |program| == |words|
    ensures var (s, m') := WriteOutcome(m, page, words, erase, program);
      (s == Ok <==> erase == Ok && forall j :: 0 <= j < |program| ==> program[j] == Ok) &&
      (s == Ok ==> Read(m', page, |words|) == words) &&
      (erase != Ok ==> s == erase && m' == m) &&
      (erase == Ok && s != Ok ==>
        var k := FirstFailure(program);
        s == program[k] && Read(m', page, k) == words[..k])
  {
    if erase == Ok {
      var k := FirstFailure(program);
      ReadBack(m, page, words[..k]);
      assert words[..|words|] == words;
    }
  }

  /** The flash memory the word store works on. */
  class Nvs {
    var mem: map<nat, bv32>

    constructor (m: map<nat, bv32>)
      ensures mem == m
    {
      mem := m;
    }

    /** `NVS_WriteWords`: erase the page, then program the words one at a time,
        stopping at the first refusal. `erase` is the controller's answer to the
        erase and `program[i]` its answer to the `i`-th word. */
    method WriteWords(page: nat, words: seq<bv32>, erase: Status, program: seq<Status>) returns (status: Status)
      requires |program| == |words|
      modifies this
      ensures (status, mem) == WriteOutcome(old(mem), page, words, erase, program)
    {
      status := erase;
      if status != Ok {
        return;
      }
      mem := Erased(mem, page);
      var addr := page;
      for i := 0 to |words|
        invariant addr == page + 4 * i
        invariant mem == Programmed(Erased(old(mem), page), page, words[..i])
        invariant forall j :: 0 <= j < i ==> program[j] == Ok
      {
        status := program[i];
        if status != Ok {
          return;
        }
        assert words[..i + 1][..i] == words[..i];
        mem := mem[addr := words[i]];
        addr := addr + 4;
      }
      assert words[..|words|] == words;
      return Ok;
    }

    /** `NVS_ReadWords`: the `n` words from `page` upward into `words`. */
    method ReadWords(page: nat, words: array<bv32>, n: nat)
      requires n <= words.Length
      modifies words
      ensures words[..n] == Read(mem, page, n) && words[n..] == old(words[n..])
    {
      var addr := page;
      for i := 0 to n
        invariant addr == page + 4 * i
        invariant words[..i] == Read(mem, page, i) && words[n..] == old(words[n..])
      {
        words[i] := ReadAt(mem, addr);
        addr := addr + 4;
      }
    }

    /** `NVS_ReadWord`. */
    function ReadWord(addr: nat): (w: bv32)
      reads this
      ensures w == Read(mem, addr, 1)[0]
    {
      ReadAt(mem, addr)
    }
  }
}
