/** The parameter registers and their copy in the EEPROM. */
module EepromMirror {
  import opened Words

  type Byte = Word8

  const PARAMS_BASE := 0x300
  const NUM_REGS := 50
  const PARAMS_BYTES := 200
  const PAGE_SIZE := 252
  const EEPROM_BYTES := 0x1_0000

  /** Register offsets in the order of the stored record's fields, ten to a row. */
  function FieldRow(row: nat): (offsets: seq<nat>)
    requires row < 5
    ensures |offsets| == 10
  {
    match row
    case 0 => [0x300, 0x304, 0x308, 0x30C, 0x310, 0x314, 0x318, 0x31C, 0x320, 0x324]
    case 1 => [0x328, 0x32C, 0x330, 0x334, 0x338, 0x33C, 0x340, 0x344, 0x348, 0x34C]
    case 2 => [0x350, 0x354, 0x358, 0x35C, 0x360, 0x364, 0x368, 0x36C, 0x370, 0x374]
    case 3 => [0x378, 0x37C, 0x380, 0x384, 0x388, 0x38C, 0x390, 0x394, 0x398, 0x39C]
    case _ => [0x3A0, 0x3A4, 0x3A8, 0x3AC, 0x3B0, 0x3B4, 0x3B8, 0x3BC, 0x3C0, 0x3C4]
  }

  function FieldReg(i: nat): nat
    requires i < NUM_REGS
  {
    FieldRow(i / 10)[i % 10]
  }

  /** The record's fields are the block's registers, in address order. */
  lemma FieldsAreTheBlock(i: nat)
    requires i < NUM_REGS
    ensures FieldReg(i) == PARAMS_BASE + 4 * i
  {
    var row, column := i / 10, i % 10;
    assert i == 10 * row + column;
    RowIsTheBlock(row, column);
    hide FieldRow;
  }

  lemma RowIsTheBlock(row: nat, column: nat)
    requires row < 5 && column < 10
    ensures FieldRow(row)[column] == PARAMS_BASE + 40 * row + 4 * column
  {
  }

  type Registers = map<nat, Word32>

  function Reg(regs: Registers, offset: nat): Word32 { if offset in regs then regs[offset] else 0 }

  function Param(regs: Registers, i: nat): Word32
    requires i < NUM_REGS
  {
    Reg(regs, FieldReg(i))
  }

  /** The first n parameter registers, in field order. */
  function Params(regs: Registers, n: nat): (record: seq<Word32>)
    requires n <= NUM_REGS
    ensures |record| == n && forall i :: 0 <= i < n ==> record[i] == Param(regs, i)
  {
    seq(n, i requires 0 <= i < n => Param(regs, i))
  }

  // ----- the stored record -----

  /** A word as stored, lowest byte first. */
  function Bytes(x: Word32): (b: seq<Byte>)
    ensures |b| == 4
  {
    [Wrap8(x), Wrap8((x as int) / 0x100), Wrap8((x as int) / 0x1_0000), Wrap8((x as int) / 0x100_0000)]
  }

  function Value(b: seq<Byte>): Word32
    requires |b| == 4
  {
    (b[0] as int) + (b[1] as int) * 0x100 + (b[2] as int) * 0x1_0000 + (b[3] as int) * 0x100_0000
  }

  lemma ValueOfBytes(x: Word32)
    ensures Value(Bytes(x)) == x
  {
    var y := (x as int) / 0x100;
    assert x == y * 0x100 + x % 0x100;
    assert (x as int) / 0x1_0000 == y / 0x100 && y == y / 0x100 * 0x100 + y % 0x100;
    assert (x as int) / 0x100_0000 == y / 0x100 / 0x100 < 0x100;
  }

  /** A record of n words as stored, one after the other. */
  function Image(record: seq<Word32>, n: nat): (b: seq<Byte>)
    requires n <= |record|
    ensures |b| == 4 * n
  {
    if n == 0 then [] else Image(record, n - 1) + Bytes(record[n - 1])
  }

  /** The i-th word of what is stored. */
  function Field(stored: seq<Byte>, i: nat): Word32
    requires 4 * i + 4 <= |stored|
  {
    Value(stored[4 * i..4 * i + 4])
  }

  /** What is stored holds exactly what the parameter registers hold. */
  predicate Encodes(stored: seq<Byte>, regs: Registers) {
    PARAMS_BYTES <= |stored| && forall i :: 0 <= i < NUM_REGS ==> Field(stored, i) == Param(regs, i)
  }

  lemma {:induction false} ImageField(record: seq<Word32>, n: nat, i: nat)
    requires i < n <= |record|
    ensures Field(Image(record, n), i) == record[i]
  {
    hide Value;
    if i == n - 1 {
      assert Image(record, n)[4 * i..4 * i + 4] == Bytes(record[i]);
      ValueOfBytes(record[i]);
    } else {
      ImageField(record, n - 1, i);
      assert Image(record, n)[4 * i..4 * i + 4] == Image(record, n - 1)[4 * i..4 * i + 4];
    }
  }

  type Record = r: seq<Word32> | |r| == NUM_REGS witness seq(NUM_REGS, _ => 0)

  function Erased(n: nat): (b: seq<Byte>)
    ensures |b| == n && forall i :: 0 <= i < n ==> b[i] == 0xFF
  {
    seq(n, _ => 0xFF)
  }

  /** The page written for a record: its words, then erased bytes. */
  function Page(record: Record): (page: seq<Byte>)
    ensures |page| == PAGE_SIZE
  {
    Image(record, NUM_REGS) + Erased(PAGE_SIZE - PARAMS_BYTES)
  }

  /** The fields of a written page are the words of the record, whatever follows the page. */
  lemma {:induction false} PageField(record: Record, tail: seq<Byte>, i: nat)
    requires i < NUM_REGS
    ensures Field(Page(record) + tail, i) == record[i]
  {
    hide Value, Image, Erased;
    ImageField(record, NUM_REGS, i);
    assert (Page(record) + tail)[4 * i..4 * i + 4] == Image(record, NUM_REGS)[4 * i..4 * i + 4];
  }

  // ----- the board -----

  type Cells = c: seq<Byte> | |c| == EEPROM_BYTES witness seq(EEPROM_BYTES, _ => 0xFF)

  datatype Board = Board(regs: Registers, cells: Cells)

  predicate Accepted(addr: Word32) { addr < PARAMS_BYTES && addr % 4 == 0 }

  /** One settings message; ok says whether the EEPROM took the page. */
  function Setting(b: Board, addr: Word32, data: Word32, ok: bool): Board {
    if !Accepted(addr) then
      b
    else
      var regs := b.regs[PARAMS_BASE + addr := data];
      Board(regs, if ok then Page(Params(regs, NUM_REGS)) + b.cells[PAGE_SIZE..] else b.cells)
  }

  /** The first n registers loaded from a record. */
  function Loaded(regs: Registers, record: seq<Byte>, n: nat): Registers
    requires n <= NUM_REGS && PARAMS_BYTES <= |record|
  {
    if n == 0 then regs else Loaded(regs, record, n - 1)[FieldReg(n - 1) := Field(record, n - 1)]
  }

  /** Start-up: the registers are loaded from what was read, or from anything when the read failed. */
  function Boot(b: Board, ok: bool, record: seq<Byte>): Board
    requires |record| == PAGE_SIZE
  {
    b.(regs := Loaded(b.regs, if ok then b.cells[..PAGE_SIZE] else record, NUM_REGS))
  }

  /** Where 252 bytes may be written: the test is on a mask of 251, not of 255. */
  predicate Aligned(addr: Word16) { addr % 0x100 == 0 || addr % 0x100 == 4 }

  /** A word from the wire, highest byte first. */
  function WireValue(b: seq<Byte>): Word32
    requires |b| == 4
  {
    Value([b[3], b[2], b[1], b[0]])
  }

  /** Puts one word into a buffer as the processor stores it. */
  method Store(page: array<Byte>, at: nat, x: Word32)
    requires at + 4 <= page.Length
    modifies page
    ensures page[..at + 4] == old(page[..at]) + Bytes(x)
    ensures page[at + 4..] == old(page[at + 4..])
  {
    var b := Bytes(x);
    page[at], page[at + 1], page[at + 2], page[at + 3] := b[0], b[1], b[2], b[3];
  }

  /** The page for a record: its words as stored, in a page of erased bytes. */
  method PageOf(record: Record) returns (page: array<Byte>)
    ensures fresh(page) && page[..] == Page(record)
  {
    hide Bytes, Erased;
    page := new Byte[PAGE_SIZE](_ => 0xFF);
    for i := 0 to NUM_REGS
      invariant page[..4 * i] == Image(record, i)
      invariant page[4 * i..] == Erased(PAGE_SIZE - 4 * i)
    {
      Store(page, 4 * i, record[i]);
      assert page[4 * i + 4..] == Erased(PAGE_SIZE - 4 * i)[4..] == Erased(PAGE_SIZE - 4 * i - 4);
    }
    assert page[..] == page[..PARAMS_BYTES] + page[PARAMS_BYTES..];
  }

  /** The first byte counts most. */
  lemma WireValueIs(b: seq<Byte>)
    requires |b| == 4
    ensures WireValue(b) == b[0] as int * 0x100_0000 + b[1] as int * 0x1_0000 + b[2] as int * 0x100 + b[3] as int
  {
  }

  class Entity {
    var regs: Registers
    const cells: array<Byte>
    /** Whether transfers to and from the EEPROM may fail. */
    const faulty: bool

    ghost predicate Valid()
      reads this
    {
      cells.Length == EEPROM_BYTES
    }

    ghost function View(): Board
      reads this, cells
      requires Valid()
    {
      Board(regs, cells[..])
    }

    /** Writes one page, all of it or nothing. */
    method Write(addr: Word16, src: array<Byte>) returns (ok: bool)
      requires Valid() && src.Length == PAGE_SIZE
      modifies cells
      ensures ok ==> Aligned(addr) && addr + PAGE_SIZE <= EEPROM_BYTES
      ensures cells[..] == if ok then old(cells[..addr]) + src[..] + old(cells[addr + PAGE_SIZE..])
                           else old(cells[..])
      ensures Aligned(addr) && !faulty ==> ok
    {
      if !Aligned(addr) {
        return false;
      }
      ok :| !faulty ==> ok;
      if ok {
        forall i | 0 <= i < PAGE_SIZE {
          cells[addr + i] := src[i];
        }
      }
    }

    /** Reads one page; what a failed read leaves in the buffer is not known. */
    method Read(addr: Word16, dst: array<Byte>) returns (ok: bool)
      requires Valid() && dst.Length == PAGE_SIZE && dst != cells && addr + PAGE_SIZE <= EEPROM_BYTES
      modifies dst
      ensures ok ==> dst[..] == cells[addr..addr + PAGE_SIZE]
      ensures !faulty ==> ok
    {
      ok :| !faulty ==> ok;
      if ok {
        forall i | 0 <= i < PAGE_SIZE {
          dst[i] := cells[addr + i];
        }
      }
    }

    /** Reads the parameter registers into a record, field by field. */
    method Gather() returns (data: seq<Word32>)
      ensures data == Params(regs, NUM_REGS)
    {
      hide FieldReg;
      data := [];
      for i := 0 to NUM_REGS
        invariant |data| == i && forall j :: 0 <= j < i ==> data[j] == Param(regs, j)
      {
        data := data + [Reg(regs, FieldReg(i))];
      }
    }

    /** Writes the record in a buffer to the parameter registers, field by field. */
    method Disperse(buf: array<Byte>)
      requires buf.Length == PAGE_SIZE
      modifies this`regs
      ensures regs == Loaded(old(regs), buf[..], NUM_REGS)
    {
      for i := 0 to NUM_REGS
        invariant regs == Loaded(old(regs), buf[..], i)
      {
        regs := regs[FieldReg(i) := Field(buf[..], i)];
      }
    }

    /** A settings message: an offset and a value. */
    method Settings(msg: seq<Byte>) returns (ok: bool)
      requires Valid() && |msg| >= 8
      modifies this`regs, cells
      ensures Valid() && View() == Setting(old(View()), WireValue(msg[..4]), WireValue(msg[4..8]), ok)
      ensures var addr := msg[0] as int * 0x100_0000 + msg[1] as int * 0x1_0000 + msg[2] as int * 0x100 + msg[3] as int;
              var data := msg[4] as int * 0x100_0000 + msg[5] as int * 0x1_0000 + msg[6] as int * 0x100 + msg[7] as int;
              if addr < 200 && addr % 4 == 0 then regs == old(regs)[0x300 + addr := data]
              else regs == old(regs) && cells[..] == old(cells[..])
      ensures !faulty ==> ok
    {
      hide Page, Image, Value, Param, WireValue;
      WireValueIs(msg[..4]);
      WireValueIs(msg[4..8]);
      var addr, data := WireValue(msg[..4]), WireValue(msg[4..8]);
      if addr >= PARAMS_BYTES || addr % 4 != 0 {
        return true;
      }
      regs := regs[PARAMS_BASE + addr := data];
      var record := Gather();
      var page := PageOf(record);
      ok := Write(0, page);
    }

    /** Start-up: whatever the buffer holds after the read goes into the registers, failed read or not. */
    method InitSettings() returns (ok: bool, ghost record: seq<Byte>)
      requires Valid()
      modifies this`regs
      ensures |record| == PAGE_SIZE && View() == Boot(old(View()), ok, record)
      ensures !faulty ==> ok
    {
      var buf := new Byte[PAGE_SIZE];
      ok := Read(0, buf);
      record := buf[..];
      Disperse(buf);
    }
  }

  // ----- one message on its own -----

  /** A message changes the one register it addresses, when it is accepted, and no other register at all. */
  lemma OnlyTheAddressed(b: Board, addr: Word32, data: Word32, ok: bool, offset: nat)
    ensures Reg(Setting(b, addr, data, ok).regs, offset) ==
            if Accepted(addr) && offset == PARAMS_BASE + addr then data else Reg(b.regs, offset)
  {
    hide Page;
  }

  /** A message that nothing disturbs leaves a record of exactly the parameter registers. */
  lemma SavedIsMirrored(b: Board, addr: Word32, data: Word32)
    requires Accepted(addr)
    ensures Encodes(Setting(b, addr, data, true).cells, Setting(b, addr, data, true).regs)
  {
    hide Page, Param;
    var regs := Setting(b, addr, data, true).regs;
    forall i | 0 <= i < NUM_REGS
      ensures Field(Setting(b, addr, data, true).cells, i) == Param(regs, i)
    {
      PageField(Params(regs, NUM_REGS), b.cells[PAGE_SIZE..], i);
    }
  }

  /** When the write fails the record is stale, unless the register already held the value. */
  lemma FailedWriteLeavesStale(b: Board, i: nat, data: Word32)
    requires i < NUM_REGS && Encodes(b.cells, b.regs)
    ensures var after := Setting(b, 4 * i, data, false);
            Encodes(after.cells, after.regs) <==> data == Param(b.regs, i)
  {
    hide Page, FieldReg;
    var after := Setting(b, 4 * i, data, false);
    forall j | 0 <= j < NUM_REGS
      ensures Param(after.regs, j) == if j == i then data else Param(b.regs, j)
    {
      FieldsAreTheBlock(i);
      FieldsAreTheBlock(j);
    }
    assert Field(after.cells, i) == Param(b.regs, i);
    hide Param, Field;
  }

  // ----- start-up -----

  lemma {:induction false} LoadedField(regs: Registers, record: seq<Byte>, n: nat, i: nat)
    requires i < n <= NUM_REGS && PARAMS_BYTES <= |record|
    ensures Param(Loaded(regs, record, n), i) == Field(record, i)
  {
    hide FieldReg, Field;
    FieldsAreTheBlock(n - 1);
    FieldsAreTheBlock(i);
    if i < n - 1 {
      LoadedField(regs, record, n - 1, i);
    }
  }

  /** Start-up writes no register outside the parameter block. */
  lemma {:induction false} LoadedElsewhere(regs: Registers, record: seq<Byte>, n: nat, offset: nat)
    requires n <= NUM_REGS && PARAMS_BYTES <= |record|
    requires offset < PARAMS_BASE || PARAMS_BASE + PARAMS_BYTES <= offset
    ensures Reg(Loaded(regs, record, n), offset) == Reg(regs, offset)
  {
    hide FieldReg, Field;
    if n > 0 {
      LoadedElsewhere(regs, record, n - 1, offset);
      FieldsAreTheBlock(n - 1);
    }
  }

  /** Start-up gives every parameter register its field of what was read, or of anything when the read failed. */
  lemma BootLoads(b: Board, ok: bool, record: seq<Byte>, i: nat)
    requires |record| == PAGE_SIZE && i < NUM_REGS
    ensures Param(Boot(b, ok, record).regs, i) == Field(if ok then b.cells else record, i)
  {
    hide Param, Value, Loaded;
    var page := if ok then b.cells[..PAGE_SIZE] else record;
    LoadedField(b.regs, page, NUM_REGS, i);
    assert page[4 * i..4 * i + 4] == (if ok then b.cells else record)[4 * i..4 * i + 4];
  }

  // ----- the stored bytes, spelled out -----

  /** A word is stored with its lowest byte first, at four times its place, and reads back the same way. */
  lemma FieldIs(stored: seq<Byte>, i: nat)
    requires 4 * i + 4 <= |stored|
    ensures Field(stored, i) == stored[4 * i] as int + stored[4 * i + 1] as int * 0x100
                                + stored[4 * i + 2] as int * 0x1_0000 + stored[4 * i + 3] as int * 0x100_0000
  {
  }

  /** Byte by byte what a saved message leaves: the 50 registers from 0x300 on, then 0xFF up to byte 252. */
  lemma SavedBytes(b: Board, addr: Word32, data: Word32, i: nat, k: nat)
    requires addr < 200 && addr % 4 == 0 && i < 50 && 200 <= k < EEPROM_BYTES
    ensures var after := Setting(b, addr, data, true);
            var c := after.cells;
            && c[4 * i] as int + c[4 * i + 1] as int * 0x100 + c[4 * i + 2] as int * 0x1_0000
               + c[4 * i + 3] as int * 0x100_0000
               == (if addr == 4 * i then data else if 0x300 + 4 * i in b.regs then b.regs[0x300 + 4 * i] else 0)
            && c[k] == (if k < 252 then 0xFF else b.cells[k])
  {
    hide Field, FieldReg, Image;
    var after := Setting(b, addr, data, true);
    FieldIs(after.cells, i);
    FieldsAreTheBlock(i);
    PageField(Params(after.regs, NUM_REGS), b.cells[PAGE_SIZE..], i);
  }

  /**
   * Start-up sets register 0x300 + 4i from the four bytes at 4i, of the EEPROM when the read was good and
   * of whatever the buffer held when it was not, and no register outside the block.
   */
  lemma BootBytes(b: Board, ok: bool, record: seq<Byte>, i: nat, offset: nat)
    requires |record| == 252 && i < 50 && (offset < 0x300 || 0x300 + 200 <= offset)
    ensures var regs, c := Boot(b, ok, record).regs, if ok then b.cells else record;
            && Reg(regs, 0x300 + 4 * i) == c[4 * i] as int + c[4 * i + 1] as int * 0x100
                                           + c[4 * i + 2] as int * 0x1_0000 + c[4 * i + 3] as int * 0x100_0000
            && Reg(regs, offset) == Reg(b.regs, offset)
  {
    BootLoads(b, ok, record, i);
    LoadedElsewhere(b.regs, if ok then b.cells[..PAGE_SIZE] else record, NUM_REGS, offset);
    hide Loaded, Field, FieldReg;
    FieldIs(if ok then b.cells else record, i);
    FieldsAreTheBlock(i);
  }

  /** The alignment test is a mask of 251: bits 0, 1 and 3 to 7 of the address must be clear, and bit 2 need not. */
  lemma AlignedIsMask(addr: Word16)
    ensures PAGE_SIZE - 1 == 3 + 8 * 31
    ensures Aligned(addr) <==> addr % 4 == 0 && addr / 8 % 32 == 0
  {
  }
}
