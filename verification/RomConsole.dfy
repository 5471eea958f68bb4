/** The text console of the 6502 ROM (asm/rom_demo.lst), instruction by instruction, with
    timer interrupts between any two instructions. */
module RomConsole {
  import opened Bytes

  const INPUT_ROW := 0x8168
  const CELLS := 640
  const COLS := 40

  /** Memory as the console sees it: the cells of rows 9 to 24 at `INPUT_ROW`, the zero page
      bytes 00h to 04h, the cells and the port that the interrupt handler writes, and every
      other address. */
  datatype Memory = Memory(fast: byte, tick: byte, lo: byte, hi: byte, col: byte, orb: byte,
                           hiDigit: byte, loDigit: byte, cells: seq<byte>, other: map<nat, byte>)

  /** `z` and `c` are the zero and carry flags. */
  datatype Cpu = Cpu(a: byte, x: byte, y: byte, z: bool, c: bool, m: Memory)

  // ----------------------------------------------------------------- instructions

  function Lda(s: Cpu, v: byte): Cpu { s.(a := v, z := v == 0) }

  function Ldx(s: Cpu, v: byte): Cpu { s.(x := v, z := v == 0) }

  function Ldy(s: Cpu, v: byte): Cpu { s.(y := v, z := v == 0) }

  function Cmp(s: Cpu, v: byte): Cpu { s.(z := s.a == v, c := s.a >= v) }

  function Cpy(s: Cpu, v: byte): Cpu { s.(z := s.y == v, c := s.y >= v) }

  function Iny(s: Cpu): Cpu {
    var v := (s.y as int + 1) % 256;
    s.(y := v, z := v == 0)
  }

  function Dex(s: Cpu): Cpu {
    var v := (s.x as int + 255) % 256;
    s.(x := v, z := v == 0)
  }

  /** Binary addition with carry. */
  function Adc(s: Cpu, v: byte): Cpu {
    var sum := s.a as int + v as int + if s.c then 1 else 0;
    s.(a := sum % 256, z := sum % 256 == 0, c := sum > 255)
  }

  /** Binary subtraction; a clear carry is a borrow. */
  function Sbc(s: Cpu, v: byte): Cpu {
    var diff := s.a as int - v as int - if s.c then 0 else 1;
    s.(a := (diff + 256) % 256, z := (diff + 256) % 256 == 0, c := diff >= 0)
  }

  function IncHi(s: Cpu): Cpu {
    var v := (s.m.hi as int + 1) % 256;
    s.(m := s.m.(hi := v), z := v == 0)
  }

  function DecHi(s: Cpu): Cpu {
    var v := (s.m.hi as int + 255) % 256;
    s.(m := s.m.(hi := v), z := v == 0)
  }

  function DecCol(s: Cpu): Cpu {
    var v := (s.m.col as int + 255) % 256;
    s.(m := s.m.(col := v), z := v == 0)
  }

  function Pointer(m: Memory): nat { m.lo as int + 256 * m.hi as int }

  /** A store to any address. */
  function Store(m: Memory, addr: nat, v: byte): Memory {
    if INPUT_ROW <= addr < INPUT_ROW + |m.cells| then m.(cells := m.cells[addr - INPUT_ROW := v])
    else if addr == 0 then m.(fast := v)
    else if addr == 1 then m.(tick := v)
    else if addr == 2 then m.(lo := v)
    else if addr == 3 then m.(hi := v)
    else if addr == 4 then m.(col := v)
    else if addr == 0x8800 then m.(orb := v)
    else if addr == 0x8149 then m.(hiDigit := v)
    else if addr == 0x814A then m.(loDigit := v)
    else m.(other := m.other[addr := v])
  }

  /** `sta (ZP_CUR_LO),y` */
  function StaCursor(s: Cpu): Cpu { s.(m := Store(s.m, (Pointer(s.m) + s.y) % 0x10000, s.a)) }

  // -------------------------------------------------------------------- interrupts

  function Hex(n: nat): byte
    requires n < 16
  {
    if n < 10 then 48 + n else 55 + n
  }

  /** The interrupt handler. It saves and restores A and X, and RTI restores the flags. */
  function Irq(s: Cpu): Cpu {
    var fast := (s.m.fast as int + 1) % 256;
    if fast != 0 then s.(m := s.m.(fast := fast))
    else
      var tick := (s.m.tick as int + 1) % 256;
      var orb := if s.m.orb % 2 == 0 then s.m.orb as int + 1 else s.m.orb as int - 1;
      s.(m := s.m.(fast := fast, tick := tick, orb := orb, hiDigit := Hex(tick / 16), loDigit := Hex(tick % 16)))
  }

  /** The clock in row 8 shows the tick counter. */
  predicate ClockShown(tick: byte, hiDigit: byte, loDigit: byte) {
    hiDigit == Hex(tick / 16) && loDigit == Hex(tick % 16)
  }

  /** `t` is `s` except for what the interrupt handler may change. */
  predicate Interrupted(s: Cpu, t: Cpu) {
    && t == s.(m := s.m.(fast := t.m.fast, tick := t.m.tick, orb := t.m.orb, hiDigit := t.m.hiDigit,
                         loDigit := t.m.loDigit))
    && (ClockShown(s.m.tick, s.m.hiDigit, s.m.loDigit) ==> ClockShown(t.m.tick, t.m.hiDigit, t.m.loDigit))
  }

  /** Any number of interrupts. */
  method Tick(s: Cpu) returns (t: Cpu)
    ensures Interrupted(s, t)
  {
    t := s;
    var n: int := *;
    while n > 0
      invariant Interrupted(s, t)
    {
      t, n := Irq(t), n - 1;
    }
  }

  // --------------------------------------------------------------- what it should do

  /** A 16 by 40 terminal with a cursor. */
  datatype Screen = Screen(cells: seq<byte>, pos: nat)

  predicate OnScreen(sc: Screen) { |sc.cells| == CELLS && sc.pos < CELLS }

  function Blank(): (b: seq<byte>)
    ensures |b| == CELLS
  {
    seq(CELLS, _ => 0x20)
  }

  /** Moves the cursor to `pos`; beyond the last row the screen is cleared. */
  function MoveTo(sc: Screen, pos: nat): Screen {
    if pos < CELLS then sc.(pos := pos) else Screen(Blank(), 0)
  }

  predicate Printable(ch: byte) { ch >= 0x20 && ch != 0x7F }

  function Typed(sc: Screen, ch: byte): (r: Screen)
    requires OnScreen(sc)
    ensures OnScreen(r)
  {
    if ch == 0x0D || ch == 0x0A then MoveTo(sc, (sc.pos / COLS + 1) * COLS)
    else if ch == 0x08 || ch == 0x7F then
      if sc.pos == 0 then sc else Screen(sc.cells[sc.pos - 1 := 0x20], sc.pos - 1)
    else if ch < 0x20 then sc
    else MoveTo(Screen(sc.cells[sc.pos := ch], sc.pos), sc.pos + 1)
  }

  /** A printable character followed by a backspace leaves the cursor where it was, over a
      blank, unless the screen was cleared in between: exactly at the last cell. */
  lemma TypeThenErase(sc: Screen, ch: byte, bs: byte)
    requires OnScreen(sc) && Printable(ch) && (bs == 0x08 || bs == 0x7F)
    ensures Typed(Typed(sc, ch), bs) == Screen(sc.cells[sc.pos := 0x20], sc.pos) <==>
            sc.pos < CELLS - 1
    ensures sc.pos == CELLS - 1 ==> Typed(Typed(sc, ch), bs) == Screen(Blank(), 0)
  {
    if sc.pos < CELLS - 1 {
      assert sc.cells[sc.pos := ch][sc.pos := 0x20] == sc.cells[sc.pos := 0x20];
    }
  }

  /** Memory shows a screen: its cells, and the cursor as a row address and a column. */
  predicate Shows(m: Memory, sc: Screen) {
    && OnScreen(sc) && m.cells == sc.cells
    && Pointer(m) == INPUT_ROW + sc.pos / COLS * COLS && m.col as int == sc.pos % COLS
  }

  /** What the console routines leave alone, whatever interrupts came in between. */
  predicate Kept(a: Memory, b: Memory) {
    && b.other == a.other && |b.cells| == |a.cells|
    && (ClockShown(a.tick, a.hiDigit, a.loDigit) ==> ClockShown(b.tick, b.hiDigit, b.loDigit))
  }

  /** The first `n` cells are blank. */
  predicate BlankUpTo(cells: seq<byte>, n: int) {
    |cells| == CELLS && forall k :: 0 <= k < n && k < CELLS ==> cells[k] == 0x20
  }

  /** `sta (ZP_CUR_LO),y` into a cell of the input area. */
  method StoreAt(s: Cpu, ghost pos: nat) returns (t: Cpu)
    requires |s.m.cells| == CELLS && pos < CELLS && Pointer(s.m) + s.y as int == INPUT_ROW + pos
    ensures t.m.cells == s.m.cells[pos := s.a] && t.x == s.x && t.y == s.y
    ensures t.m.lo == s.m.lo && t.m.hi == s.m.hi && t.m.col == s.m.col && Kept(s.m, t.m)
  {
    hide ClockShown, Irq;
    t := Tick(s);
    t := StaCursor(t);
  }

  /** `lda #$20`, `sta (ZP_CUR_LO),y` */
  method BlankAt(s: Cpu, ghost pos: nat) returns (t: Cpu)
    requires |s.m.cells| == CELLS && pos < CELLS && Pointer(s.m) + s.y as int == INPUT_ROW + pos
    ensures t.m.cells == s.m.cells[pos := 0x20] && t.x == s.x && t.y == s.y
    ensures t.m.lo == s.m.lo && t.m.hi == s.m.hi && t.m.col == s.m.col && Kept(s.m, t.m)
  {
    hide ClockShown, Irq, Store;
    t := Tick(s);
    t := Lda(t, 0x20);
    t := StoreAt(t, pos);
    t := Tick(t);
  }

  /** The inner loop of `clear_input`. */
  method ClearRow(s: Cpu) returns (t: Cpu)
    requires 1 <= s.x <= 16 && Pointer(s.m) == INPUT_ROW + COLS * (16 - s.x as int)
    requires BlankUpTo(s.m.cells, COLS * (16 - s.x as int))
    ensures t.x == s.x && t.m.lo == s.m.lo && t.m.hi == s.m.hi && Kept(s.m, t.m)
    ensures BlankUpTo(t.m.cells, COLS * (17 - s.x as int))
  {
    hide ClockShown, Irq, Store;
    t := Tick(s);
    t := Ldy(t, 0);
    while true
      invariant 0 <= t.y < 40 && t.x == s.x && t.m.lo == s.m.lo && t.m.hi == s.m.hi && Kept(s.m, t.m)
      invariant BlankUpTo(t.m.cells, COLS * (16 - s.x as int) + t.y as int)
      decreases 40 - t.y as int
    {
      t := BlankAt(t, COLS * (16 - t.x as int) + t.y as int);
      t := Iny(t);
      t := Tick(t);
      t := Cpy(t, 40);
      if t.z {
        break;
      }
    }
  }

  /** Adds 40 to the row address: `clc`, `adc #40` on the low byte, and a carry. */
  method NextRow(s: Cpu) returns (t: Cpu)
    requires Pointer(s.m) + COLS < 0x10000
    ensures Pointer(t.m) == Pointer(s.m) + COLS
    ensures t.x == s.x && t.m.cells == s.m.cells && t.m.col == s.m.col && Kept(s.m, t.m)
  {
    t := s.(c := false);
    t := Tick(t);
    t := Lda(t, t.m.lo);
    t := Tick(t);
    t := Adc(t, 40);
    t := Tick(t);
    t := t.(m := t.m.(lo := t.a));
    t := Tick(t);
    if t.c {
      t := IncHi(t);
      t := Tick(t);
    }
  }

  /** Points the cursor row at row 9. */
  method HomeRow(s: Cpu) returns (t: Cpu)
    ensures Pointer(t.m) == INPUT_ROW && t.m.cells == s.m.cells && t.m.col == s.m.col && Kept(s.m, t.m)
  {
    hide ClockShown, Irq;
    t := Tick(s);
    t := Lda(t, 0x68);
    t := Tick(t);
    t := t.(m := t.m.(lo := t.a));
    t := Tick(t);
    t := Lda(t, 0x81);
    t := Tick(t);
    t := t.(m := t.m.(hi := t.a));
    t := Tick(t);
  }

  /** `clear_input`: blanks rows 9 to 24 and puts the cursor at the start of row 9. */
  method ClearInput(s: Cpu) returns (t: Cpu)
    requires |s.m.cells| == CELLS
    ensures Shows(t.m, Screen(Blank(), 0)) && Kept(s.m, t.m)
  {
    hide ClockShown, Irq, Store, Adc, Sbc, BlankUpTo;
    t := HomeRow(s);
    t := Ldx(t, 16);
    NoneBlank(t.m.cells);
    while true
      invariant 1 <= t.x <= 16 && Pointer(t.m) == INPUT_ROW + COLS * (16 - t.x as int) && Kept(s.m, t.m)
      invariant BlankUpTo(t.m.cells, COLS * (16 - t.x as int))
      decreases t.x
    {
      t := ClearRow(t);
      t := Tick(t);
      t := NextRow(t);
      t := Tick(t);
      t := Dex(t);
      if t.z {
        break;
      }
    }
    AllBlank(t.m.cells);
    t := HomeRow(t);
    t := Lda(t, 0);
    t := Tick(t);
    t := t.(m := t.m.(col := t.a));
  }

  lemma NoneBlank(cells: seq<byte>)
    requires |cells| == CELLS
    ensures BlankUpTo(cells, 0)
  {
  }

  lemma AllBlank(cells: seq<byte>)
    requires BlankUpTo(cells, CELLS)
    ensures cells == Blank()
  {
  }

  /** `pc_newline`: the start of the next row, or an empty screen after the last row. */
  method NewLine(s: Cpu, ghost sc: Screen) returns (t: Cpu)
    requires OnScreen(sc) && s.m.cells == sc.cells && Pointer(s.m) == INPUT_ROW + sc.pos / COLS * COLS
    ensures Shows(t.m, MoveTo(sc, (sc.pos / COLS + 1) * COLS)) && Kept(s.m, t.m)
  {
    hide ClockShown, Irq;
    ghost var row := sc.pos / COLS;
    assert row < 16;
    t := Tick(s);
    t := Lda(t, 0);
    t := Tick(t);
    t := t.(m := t.m.(col := t.a));
    t := Tick(t);
    t := NextRow(t);
    t := Lda(t, t.m.hi);
    t := Tick(t);
    t := Cmp(t, 0x83);
    t := Tick(t);
    if !t.c {
      return;
    }
    if t.z {
      t := Lda(t, t.m.lo);
      t := Tick(t);
      t := Cmp(t, 0xE8);
      t := Tick(t);
      if !t.c {
        return;
      }
    }
    t := ClearInput(t);
  }

  /** `pc_backspace` */
  method Backspace(s: Cpu, ghost sc: Screen) returns (t: Cpu)
    requires Shows(s.m, sc)
    ensures Shows(t.m, Typed(sc, 0x08)) && Kept(s.m, t.m)
  {
    hide ClockShown, Irq;
    t := Tick(s);
    t := Lda(t, t.m.col);
    t := Tick(t);
    if !t.z {
      Columns(sc.pos - 1);
      t := DecCol(t);
      t := Tick(t);
      t := Ldy(t, t.m.col);
      t := BlankAt(t, sc.pos - 1);
      return;
    }
    t := PreviousRow(t, sc);
  }

  /** Subtracts 40 from the row address, with a borrow. */
  method UpRow(s: Cpu) returns (t: Cpu)
    requires Pointer(s.m) >= COLS
    ensures Pointer(t.m) == Pointer(s.m) - COLS
    ensures t.m.cells == s.m.cells && t.m.col == s.m.col && Kept(s.m, t.m)
  {
    hide ClockShown, Irq;
    t := s.(c := true);
    t := Tick(t);
    t := Lda(t, t.m.lo);
    t := Tick(t);
    t := Sbc(t, 40);
    t := Tick(t);
    t := t.(m := t.m.(lo := t.a));
    t := Tick(t);
    if !t.c {
      t := DecHi(t);
      t := Tick(t);
    }
  }

  /** `pc_bs_prev_row`: the last cell of the row above, if there is one. */
  method PreviousRow(s: Cpu, ghost sc: Screen) returns (t: Cpu)
    requires Shows(s.m, sc) && s.m.col == 0
    ensures Shows(t.m, Typed(sc, 0x08)) && Kept(s.m, t.m)
  {
    hide ClockShown, Irq;
    t := Lda(s, s.m.lo);
    t := Tick(t);
    t := Cmp(t, 0x68);
    t := Tick(t);
    if t.z {
      t := Lda(t, t.m.hi);
      t := Tick(t);
      t := Cmp(t, 0x81);
      t := Tick(t);
      if t.z {
        return;
      }
    }
    Columns(sc.pos - 1);
    t := UpRow(t);
    t := Lda(t, 39);
    t := Tick(t);
    t := t.(m := t.m.(col := t.a));
    t := Tick(t);
    t := Ldy(t, 39);
    t := BlankAt(t, sc.pos - 1);
  }

  /** The next position is in the next column, or at the start of the next row. */
  lemma Columns(pos: nat)
    ensures pos % COLS < COLS - 1 ==> (pos + 1) / COLS == pos / COLS && (pos + 1) % COLS == pos % COLS + 1
    ensures pos % COLS == COLS - 1 ==> (pos + 1) / COLS == pos / COLS + 1 && (pos + 1) % COLS == 0
  {
  }

  /** `put_char` is the terminal: for every character, and with interrupts between any two
      instructions, the screen and the cursor are those of `Typed`, and no memory outside
      rows 9 to 24, the cursor bytes and the handler's own cells has changed. */
  method PutChar(s: Cpu, ghost sc: Screen) returns (t: Cpu)
    requires Shows(s.m, sc)
    ensures Shows(t.m, Typed(sc, s.a)) && Kept(s.m, t.m)
  {
    hide ClockShown, Irq;
    t := Tick(s);
    t := Cmp(t, 0x0D);
    t := Tick(t);
    if t.z {
      t := NewLine(t, sc);
      return;
    }
    t := Cmp(t, 0x0A);
    t := Tick(t);
    if t.z {
      t := NewLine(t, sc);
      return;
    }
    t := Cmp(t, 0x08);
    t := Tick(t);
    if t.z {
      t := Backspace(t, sc);
      return;
    }
    t := Cmp(t, 0x7F);
    t := Tick(t);
    if t.z {
      t := Backspace(t, sc);
      return;
    }
    t := Cmp(t, 0x20);
    t := Tick(t);
    if !t.c {
      return;
    }
    t := WriteCell(t, sc);
  }

  /** The printable path: store, advance, and an implicit new line at column 40. */
  method WriteCell(s: Cpu, ghost sc: Screen) returns (t: Cpu)
    requires Shows(s.m, sc) && Printable(s.a)
    ensures Shows(t.m, Typed(sc, s.a)) && Kept(s.m, t.m)
  {
    hide ClockShown, Irq, Store;
    Columns(sc.pos);
    t := Tick(s);
    t := Ldy(t, t.m.col);
    t := StoreAt(t, sc.pos);
    t := NextColumn(t);
    if !t.c {
      return;
    }
    t := NewLine(t, Screen(sc.cells[sc.pos := s.a], sc.pos));
  }

  /** `iny`, `sty ZP_COL`, `cpy #40` */
  method NextColumn(s: Cpu) returns (t: Cpu)
    requires s.y < 40
    ensures t.m.cells == s.m.cells && t.m.lo == s.m.lo && t.m.hi == s.m.hi && Kept(s.m, t.m)
    ensures t.m.col as int == s.y as int + 1 && (t.c <==> t.m.col >= 40)
  {
    hide ClockShown, Irq;
    t := Tick(s);
    t := Iny(t);
    t := Tick(t);
    t := t.(m := t.m.(col := t.y));
    t := Tick(t);
    t := Cpy(t, 40);
    t := Tick(t);
  }

  lemma ShownIsOnScreen(m: Memory, sc: Screen)
    requires Shows(m, sc)
    ensures OnScreen(sc)
  {
  }

  /** The screen after a string. */
  function TypedAll(sc: Screen, text: seq<byte>): (r: Screen)
    requires OnScreen(sc)
    ensures OnScreen(r)
  {
    if text == [] then sc else Typed(TypedAll(sc, text[..|text| - 1]), text[|text| - 1])
  }

  class Machine {
    var s: Cpu

    constructor (s: Cpu)
      ensures this.s == s
    {
      this.s := s;
    }

    /** The main loop over the received bytes. */
    method MainLoop(received: seq<byte>, ghost sc: Screen)
      requires Shows(s.m, sc)
      modifies this
      ensures Shows(s.m, TypedAll(sc, received)) && Kept(old(s.m), s.m)
    {
      hide ClockShown, Shows, Irq, Typed;
      assert OnScreen(sc) by { ShownIsOnScreen(s.m, sc); }
      for i := 0 to |received|
        invariant Shows(s.m, TypedAll(sc, received[..i])) && Kept(old(s.m), s.m)
      {
        assert received[..i + 1][..i] == received[..i];
        s := Polled(s, received[i], TypedAll(sc, received[..i]));
        s := PutChar(s, TypedAll(sc, received[..i]));
      }
      assert received[..|received|] == received;
    }
  }

  /** Polling the UART until a byte is there, and reading it. */
  method Polled(s: Cpu, ch: byte, ghost sc: Screen) returns (t: Cpu)
    requires Shows(s.m, sc)
    ensures Shows(t.m, sc) && t.a == ch && Kept(s.m, t.m)
  {
    hide ClockShown, Irq;
    t := Tick(s);
    t := Lda(t, ch);
    t := Tick(t);
  }

  // -------------------------------------------------------------- the machine

  /** What the arithmetic instructions compute, with the carry as the ninth bit. */
  lemma Arithmetic(s: Cpu, v: byte)
    ensures var t := Adc(s, v);
            && t.a as int + (if t.c then 256 else 0) == s.a as int + v as int + (if s.c then 1 else 0)
            && (t.z <==> t.a == 0) && t == s.(a := t.a, z := t.z, c := t.c)
    ensures var t := Sbc(s, v);
            && t.a as int - (if t.c then 0 else 256) == s.a as int - v as int - (if s.c then 0 else 1)
            && (t.z <==> t.a == 0) && t == s.(a := t.a, z := t.z, c := t.c)
  {
    NinthBit(s.a as int + v as int + if s.c then 1 else 0);
    NinthBit(s.a as int - v as int - (if s.c then 0 else 1) + 256);
  }

  lemma NinthBit(n: nat)
    requires n < 512
    ensures n % 256 == if n < 256 then n else n - 256
  {
  }

  /** Comparing sets the carry if the register is not less. */
  lemma Comparing(s: Cpu, v: byte)
    ensures (Cmp(s, v).z <==> s.a == v) && (Cmp(s, v).c <==> v <= s.a)
    ensures (Cpy(s, v).z <==> s.y == v) && (Cpy(s, v).c <==> v <= s.y)
  {
  }

  /** Counting up and down goes around at 255 and 0. */
  lemma Counting(s: Cpu)
    ensures Iny(s).y as int == (if s.y == 255 then 0 else s.y as int + 1) && (Iny(s).z <==> s.y == 255)
    ensures Dex(s).x as int == (if s.x == 0 then 255 else s.x as int - 1) && (Dex(s).z <==> s.x == 1)
    ensures IncHi(s).m.hi as int == (if s.m.hi == 255 then 0 else s.m.hi as int + 1) && (IncHi(s).z <==> s.m.hi == 255)
    ensures DecHi(s).m.hi as int == (if s.m.hi == 0 then 255 else s.m.hi as int - 1) && (DecHi(s).z <==> s.m.hi == 1)
    ensures DecCol(s).m.col as int == (if s.m.col == 0 then 255 else s.m.col as int - 1)
    ensures DecCol(s).z <==> s.m.col == 1
  {
  }

  /** Loading sets the zero flag. */
  lemma Loading(s: Cpu, v: byte)
    ensures Lda(s, v).a == Ldx(s, v).x == Ldy(s, v).y == v
    ensures (Lda(s, v).z <==> v == 0) && (Ldx(s, v).z <==> v == 0) && (Ldy(s, v).z <==> v == 0)
  {
  }

  /** Where a store goes: to the input area from 8168h to 83E7h, to the counters, the row address
      and the column in the zero page, to the port and the clock, or elsewhere. */
  lemma Storing(m: Memory, addr: nat, v: byte)
    requires |m.cells| == CELLS && addr < 0x10000
    ensures 0x8168 <= addr <= 0x83E7 ==> Store(m, addr, v) == m.(cells := m.cells[addr - 0x8168 := v])
    ensures Store(m, 0, v) == m.(fast := v) && Store(m, 1, v) == m.(tick := v) && Store(m, 4, v) == m.(col := v)
    ensures Pointer(Store(Store(m, 2, v), 3, v)) == 0x101 * v as int
    ensures Store(m, 2, v).hi == m.hi && Store(m, 3, v).lo == m.lo
    ensures Store(m, 0x8800, v) == m.(orb := v)
    ensures Store(m, 0x8149, v) == m.(hiDigit := v) && Store(m, 0x814A, v) == m.(loDigit := v)
    ensures addr > 4 && addr !in {0x8800, 0x8149, 0x814A} && !(0x8168 <= addr <= 0x83E7) ==>
              Store(m, addr, v) == m.(other := m.other[addr := v])
  {
  }

  /** Two counters count the interrupts. Whenever the lower one goes around, the light on the
      port changes and the clock shows the upper one. */
  lemma InterruptsCount(s: Cpu)
    ensures var (m, t) := (s.m, Irq(s).m);
            && t.fast as int + 256 * t.tick as int == (m.fast as int + 256 * m.tick as int + 1) % 0x10000
            && (t.fast != 0 ==> t == m.(fast := t.fast))
            && (t.fast == 0 ==>
                  && t.orb as int == (if m.orb % 2 == 0 then m.orb as int + 1 else m.orb as int - 1)
                  && t.hiDigit == Hex(t.tick / 16) && t.loDigit == Hex(t.tick % 16))
    ensures Irq(s) == s.(m := Irq(s).m)
  {
    hide Hex;
    CountersAdd(s.m.fast, s.m.tick);
  }

  const DIGITS := "0123456789ABCDEF"

  /** The clock has hexadecimal digits. */
  lemma HexShown(n: nat)
    requires n < 16
    ensures Hex(n) as int == DIGITS[n] as int
  {
  }

  lemma CountersAdd(fast: byte, tick: byte)
    ensures (fast as int + 256 * tick as int + 1) % 0x10000 ==
            if fast < 255 then fast as int + 1 + 256 * tick as int
            else if tick < 255 then 256 * (tick as int + 1) else 0
  {
  }

  // -------------------------------------------------------------- the terminal

  /** Printable characters appear one after the other from the cursor on. */
  lemma {:induction false} TextAppears(sc: Screen, text: seq<byte>)
    requires OnScreen(sc) && sc.pos + |text| < 640 && forall k | 0 <= k < |text| :: 0x20 <= text[k] != 0x7F
    ensures TypedAll(sc, text) ==
            Screen(sc.cells[..sc.pos] + text + sc.cells[sc.pos + |text|..], sc.pos + |text|)
    decreases |text|
  {
    if text == [] {
      assert sc.cells == sc.cells[..sc.pos] + text + sc.cells[sc.pos..];
    } else {
      hide Typed, OnScreen;
      var n := |text| - 1;
      TextAppears(sc, text[..n]);
      OneMoreCell(sc.cells, sc.pos, text);
      OneAppears(TypedAll(sc, text[..n]), text[n]);
    }
  }

  lemma OneAppears(sc: Screen, ch: byte)
    requires OnScreen(sc) && sc.pos < 639 && 0x20 <= ch != 0x7F
    ensures Typed(sc, ch) == Screen(sc.cells[sc.pos := ch], sc.pos + 1)
  {
  }

  lemma OneMoreCell(cells: seq<byte>, pos: nat, text: seq<byte>)
    requires text != [] && pos + |text| <= |cells|
    ensures var n := |text| - 1;
            (cells[..pos] + text[..n] + cells[pos + n..])[pos + n := text[n]] ==
            cells[..pos] + text + cells[pos + |text|..]
  {
  }

  /** A line end goes to the beginning of the next row, and behind the last row the screen is
      cleared, as it is behind the last cell. A backspace rubs out the cell before the cursor,
      if there is one, and other control characters do nothing. */
  lemma ControlCharacters(sc: Screen, ch: byte)
    requires OnScreen(sc)
    ensures ch in {0x0A, 0x0D} && sc.pos < 600 ==>
              var t := Typed(sc, ch); t.cells == sc.cells && t.pos % 40 == 0 && sc.pos < t.pos <= sc.pos + 40
    ensures ch in {0x0A, 0x0D} && sc.pos >= 600 ==> Typed(sc, ch) == Screen(seq(640, _ => 0x20), 0)
    ensures ch >= 0x20 && ch != 0x7F && sc.pos == 639 ==> Typed(sc, ch) == Screen(seq(640, _ => 0x20), 0)
    ensures ch in {0x08, 0x7F} && sc.pos > 0 ==> Typed(sc, ch) == Screen(sc.cells[sc.pos - 1 := 0x20], sc.pos - 1)
    ensures ch in {0x08, 0x7F} && sc.pos == 0 ==> Typed(sc, ch) == sc
    ensures ch < 0x20 && ch !in {0x08, 0x0A, 0x0D} ==> Typed(sc, ch) == sc
  {
    assert Blank() == seq(640, _ => 0x20);
  }
}
