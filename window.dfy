/**
 * The hwlib window adaptor over the SSD1351 driver (ssd1351/hwlib_ssd1351.hpp).
 *
 * The adaptor keeps a cached copy (x, y) of where the panel's own address
 * pointer will be after the last pixel write, and sends column or row
 * addressing commands only when a write does not land there.
 */
module Window {
  import opened Bus
  import opened Graphics
  import opened Ssd1351

  const Width: byte := 128
  const Height: byte := 128

  /** The two channel fields do not overlap, so the 5/6/5 packing is a sum of shifted fields. */
  lemma Unpack565(r5: int, g6: int, b5: int)
    requires 0 <= r5 < 32 && 0 <= g6 < 64 && 0 <= b5 < 32
    ensures (r5 * 2048 + g6 * 32 + b5) / 2048 == r5
    ensures ((r5 * 2048 + g6 * 32 + b5) / 32) % 64 == g6
    ensures (r5 * 2048 + g6 * 32 + b5) % 32 == b5
  {
    var n := r5 * 2048 + g6 * 32 + b5;
    assert n / 32 == r5 * 64 + g6;
  }

  /**
   * RGB888 to RGB565 with truncating division: red in bits 15..11, green in
   * bits 10..5, blue in bits 4..0.
   */
  function ColorToData(c: Color): (r: u16)
    ensures r as int / 2048 == c.red as int * 31 / 255
    ensures (r as int / 32) % 64 == c.green as int * 63 / 255
    ensures r as int % 32 == c.blue as int * 31 / 255
  {
    var red5 := (c.red as int * 0x1F) / 0xFF;
    var green6 := (c.green as int * 0x3F) / 0xFF;
    var blue5 := (c.blue as int * 0x1F) / 0xFF;
    Unpack565(red5, green6, blue5);
    (red5 * 2048 + green6 * 32 + blue5) as u16
  }

  lemma ColorToDataExamples()
    ensures ColorToData(Color(0xFF, 0, 0)) == 0xF800
    ensures ColorToData(White) == 0xFFFF
    ensures ColorToData(Black) == 0
  {
  }

  /** The two bytes of one pixel, high byte first. */
  function PixelBytes(color: u16): (r: seq<byte>)
    ensures |r| == 2 && r[0] as int * 256 + r[1] as int == color as int
  {
    [ToByte(color as int / 256), ToByte(color as int % 256)]
  }

  /** What set_cursor sends: a column command if x changes, then a row command if y changes. */
  function CursorCommands(cx: byte, cy: byte, tx: byte, ty: byte): seq<Command>
  {
    (if cx != tx then [ColumnAddress(tx, Width - 1)] else []) +
    (if cy != ty then [RowAddress(ty, Height - 1)] else [])
  }

  /** Where the cached cursor goes after a pixel written at (x, y). */
  function NextCursor(x: byte, y: byte): (byte, byte)
  {
    if x < Width - 1 then (x + 1, y)
    else if y < Height - 1 then (0, y + 1)
    else (0, 0)
  }

  /** The addressing commands sent after a pixel written at (x, y). */
  function AdvanceCommands(x: byte, y: byte): seq<Command>
  {
    if x < Width - 1 then []
    else if y < Height - 1 then [ColumnAddress(0, Width - 1)]
    else [ColumnAddress(0, Width - 1), RowAddress(0, Height - 1)]
  }

  function Repeat(c: Command, n: nat): (r: seq<Command>)
    ensures |r| == n
    ensures forall k :: 0 <= k < n ==> r[k] == c
  {
    if n == 0 then [] else Repeat(c, n - 1) + [c]
  }

  /** Bring-up, first phase: unlock the command set, allow the extended commands, sleep on. */
  function Unlocked(log: seq<Command>): seq<Command>
  {
    log + [OpData(CmdLock, [LockPayload(false)])]
        + [OpData(CmdLock, [PowerOptionsPayload(true)])]
        + [Op(SleepOpcode(true))]
  }

  /** Bring-up, second phase: the fixed panel settings, programmed while asleep. */
  function Configured(log: seq<Command>): seq<Command>
  {
    log + [OpData(CmdClockDivider, [ClockDividerPayload(0xF, 0x1)])]
        + [OpData(CmdMuxRatio, [Mask7(0x7F)])]
        + [OpData(CmdRemap, [RemapPayload(false, false, true, true, true, 0x01)])]
        + [OpData(CmdStartLine, [Mask7(0)])]
        + [OpData(CmdDisplayOffset, [Mask7(0)])]
        + [OpData(CmdGpio, [Mask4(0)])]
        + [OpData(CmdInterface, [InterfacePayload(true, 0x00)])]
        + [OpData(CmdPhaseLength, [PhaseLengthPayload(0x2, 0x3)])]
        + [OpData(CmdVsl, VslPayload(0))]
        + [OpData(CmdComDeselect, [Mask3(0x05)])]
        + [OpData(CmdMasterContrast, [Mask4(0x0F)])]
        + [OpData(CmdSecondPrecharge, [Mask4(0x01)])]
        + [Op(DisplayModeOpcode(0x2))]
        + [OpData(CmdColorContrast, [0xFF, 0xFF, 0xFF])]
  }

  /** Bring-up, last phase: the full-panel addressing window, then sleep off. */
  function Woken(log: seq<Command>): seq<Command>
  {
    log + [ColumnAddress(0, Width - 1)]
        + [RowAddress(0, Height - 1)]
        + [Op(SleepOpcode(false))]
  }

  /** The commands the adaptor's constructor sends after the reset sequence. */
  function BringUpCommands(): seq<Command>
  {
    Woken(Configured(Unlocked([])))
  }

  /** The bring-up order: unlock first, sleep on until the very last command, window before wake. */
  lemma BringUpOrder()
    ensures |BringUpCommands()| == 20
    ensures BringUpCommands()[0] == OpData(0xFD, [0x12])
    ensures BringUpCommands()[1] == OpData(0xFD, [0xB1])
    ensures BringUpCommands()[2] == Op(0xAE)
    ensures forall k :: 2 < k < 19 ==> BringUpCommands()[k] != Op(0xAF) && BringUpCommands()[k] != Op(0xAE)
    ensures BringUpCommands()[17] == OpData(0x15, [0x00, 0x7F])
    ensures BringUpCommands()[18] == OpData(0x75, [0x00, 0x7F])
    ensures BringUpCommands()[19] == Op(0xAF)
  {
    var cs := BringUpCommands();
    var settings := Configured(Unlocked([]));
    assert |settings| == 17 && cs == settings + cs[17..];
    BringUpSettingsBytes();
    assert settings[3..] == cs[3..17];
  }

  /** The exact payloads of the fixed settings, as they go on the wire. */
  lemma BringUpSettingsBytes()
    ensures BringUpCommands()[3..17] ==
      [ OpData(0xB3, [0x1F]), OpData(0xCA, [0x7F]), OpData(0xA0, [0x74]), OpData(0xA1, [0x00]),
        OpData(0xA2, [0x00]), OpData(0xB5, [0x00]), OpData(0xAB, [0x01]), OpData(0xB1, [0x32]),
        OpData(0xB4, [0xA0, 0xB5, 0x55]), OpData(0xBE, [0x05]), OpData(0xC7, [0x0F]),
        OpData(0xB6, [0x01]), Op(0xA6), OpData(0xC1, [0xFF, 0xFF, 0xFF]) ]
  {
  }

  lemma ByteSucc(b: byte)
    requires b < 0xFF
    ensures (b + 1) as int == b as int + 1
  {
  }

  /** The cached cursor after `n` in-order writes starting at the origin. */
  function CursorAfter(n: nat): (byte, byte)
  {
    if n == 0 then (0, 0)
    else
      var c := CursorAfter(n - 1);
      NextCursor(c.0, c.1)
  }

  lemma CounterStep(m: nat)
    ensures m % 128 < 127 ==> (m + 1) % 128 == m % 128 + 1 && (m + 1) / 128 == m / 128
    ensures m % 128 == 127 ==> (m + 1) % 128 == 0 && (m + 1) / 128 == m / 128 + 1
  {
  }

  lemma DivDiv(m: nat)
    ensures m / (128 * 128) == (m / 128) / 128
  {
  }

  /** After n in-order writes from (0, 0) the cursor is at (n mod 128, (n div 128) mod 128). */
  lemma {:induction false} CursorAfterIs(n: nat)
    ensures CursorAfter(n).0 as int == n % 128
    ensures CursorAfter(n).1 as int == (n / 128) % 128
  {
    if n > 0 {
      var m := n - 1;
      CursorAfterIs(m);
      var c := CursorAfter(m);
      assert CursorAfter(n) == NextCursor(c.0, c.1);
      CounterStep(m);
      CounterStep(m / 128);
      if c.0 < Width - 1 {
        ByteSucc(c.0);
      } else if c.1 < Height - 1 {
        ByteSucc(c.1);
      }
    }
  }

  /** Every full panel of in-order writes brings the cursor back to the origin. */
  lemma FullPanelReturnsToOrigin(n: nat)
    requires n % (128 * 128) == 0
    ensures CursorAfter(n) == (0, 0)
  {
    CursorAfterIs(n);
    DivDiv(n);
  }

  /** Writing at the cached cursor needs no addressing; any other target needs some. */
  lemma CursorCommandsEmptyIff(cx: byte, cy: byte, tx: byte, ty: byte)
    ensures CursorCommands(cx, cy, tx, ty) == [] <==> (cx == tx && cy == ty)
  {
  }

  /** With the cursor on the panel, it stays on the panel. */
  lemma NextCursorOnPanel(x: byte, y: byte)
    requires x < Width && y < Height
    ensures NextCursor(x, y).0 < Width && NextCursor(x, y).1 < Height
  {
  }

  predicate IsAddressing(c: Command)
  {
    c.opcode == CmdColumnAddress || c.opcode == CmdRowAddress
  }

  /** The number of column and row addressing commands in `cs`. */
  function AddressingCount(cs: seq<Command>): nat
  {
    if cs == [] then 0
    else AddressingCount(cs[..|cs| - 1]) + (if IsAddressing(cs[|cs| - 1]) then 1 else 0)
  }

  lemma {:induction false} AddressingCountAppend(a: seq<Command>, b: seq<Command>)
    ensures AddressingCount(a + b) == AddressingCount(a) + AddressingCount(b)
    decreases |b|
  {
    if b == [] {
      assert a + b == a;
    } else {
      var b' := b[..|b| - 1];
      assert (a + b)[..|a + b| - 1] == a + b';
      AddressingCountAppend(a, b');
    }
  }

  lemma AdvanceAddressing(x: byte, y: byte)
    ensures AddressingCount(AdvanceCommands(x, y)) ==
      if x < Width - 1 then 0 else if y < Height - 1 then 1 else 2
  {
    var col := [ColumnAddress(0, Width - 1)];
    assert col[..0] == [];
    assert AddressingCount(col) == 1;
    if x >= Width - 1 && y >= Height - 1 {
      var adv := col + [RowAddress(0, Height - 1)];
      assert adv[..1] == col;
    }
  }

  /** The commands of `n` write_implementation calls, each at the cached cursor, from the origin. */
  function SequentialWrites(n: nat, col: Color): seq<Command>
  {
    if n == 0 then []
    else
      var c := CursorAfter(n - 1);
      SequentialWrites(n - 1, col) + CursorCommands(c.0, c.1, c.0, c.1) +
      [OpData(CmdWriteRam, PixelBytes(ColorToData(col)))] + AdvanceCommands(c.0, c.1)
  }

  lemma {:induction false} SequentialWritesStep(n: nat, col: Color)
    requires n > 0
    ensures AddressingCount(SequentialWrites(n, col)) ==
      AddressingCount(SequentialWrites(n - 1, col)) +
      AddressingCount(AdvanceCommands(CursorAfter(n - 1).0, CursorAfter(n - 1).1))
  {
    var c := CursorAfter(n - 1);
    var prev := SequentialWrites(n - 1, col);
    var px := [OpData(CmdWriteRam, PixelBytes(ColorToData(col)))];
    assert CursorCommands(c.0, c.1, c.0, c.1) == [];
    assert prev + [] == prev;
    AddressingCountAppend(prev + px, AdvanceCommands(c.0, c.1));
    AddressingCountAppend(prev, px);
    assert px[..0] == [];
  }

  /** How the row and panel counters n / 128 and n / (128 * 128) move on one more write. */
  lemma CountersStep(m: nat)
    ensures (m + 1) / 128 + (m + 1) / (128 * 128) ==
      m / 128 + m / (128 * 128) + (if m % 128 < 127 then 0 else if (m / 128) % 128 < 127 then 1 else 2)
  {
    CounterStep(m);
    CounterStep(m / 128);
    DivDiv(m);
    DivDiv(m + 1);
  }

  /** The addressing the write after m in-order writes emits, in terms of m. */
  lemma AdvanceAddressingAfter(m: nat)
    ensures AddressingCount(AdvanceCommands(CursorAfter(m).0, CursorAfter(m).1)) ==
      if m % 128 < 127 then 0 else if (m / 128) % 128 < 127 then 1 else 2
  {
    CursorAfterIs(m);
    var c := CursorAfter(m);
    AdvanceAddressing(c.0, c.1);
    assert (c.0 < Width - 1) == (c.0 as int < 127);
    assert (c.1 < Height - 1) == (c.1 as int < 127);
  }

  /**
   * In-order writes still cost addressing traffic: a column command at the
   * end of every row, and a row command as well at the end of the panel.
   */
  lemma {:induction false} SequentialWritesAddressing(n: nat, col: Color)
    ensures AddressingCount(SequentialWrites(n, col)) == n / 128 + n / (128 * 128)
  {
    if n > 0 {
      var m := n - 1;
      SequentialWritesAddressing(m, col);
      SequentialWritesStep(n, col);
      AdvanceAddressingAfter(m);
      CountersStep(m);
    }
  }

  method Unlock(d: Ssd1351)
    requires d.Valid()
    modifies d
    ensures d.Valid() && d.commands == Unlocked(old(d.commands))
  {
    d.SetCommandLock(false);
    d.EnablePowerOptions(true);
    d.SetSleepMode(true);
  }

  method ProgramSettings(d: Ssd1351)
    requires d.Valid()
    modifies d
    ensures d.Valid() && d.commands == Configured(old(d.commands))
  {
    d.SetClockDivider(0xF, 0x1);
    d.SetMuxRatio(0x7F);
    d.SetRemapColorDepth(false, false, true, true, true, 0x01);
    d.SetDisplayStartLine(0);
    d.SetDisplayOffset(0);
    d.SetGpio(0);
    d.SetInterfaceRegisters(true, 0x00);
    d.SetPhaseLength(0x2, 0x3);
    d.SetExternalVsl(0);
    d.SetComDeselectVoltage(0x05);
    d.SetMasterContrast(0x0F);
    d.SetSecondPrecharge(0x01);
    d.SetDisplayMode(0x2);
    d.SetColorContrast(0xFF, 0xFF, 0xFF);
  }

  method Wake(d: Ssd1351)
    requires d.Valid()
    modifies d
    ensures d.Valid() && d.commands == Woken(old(d.commands))
  {
    d.SetColumnAddress(0, Width - 1);
    d.SetRowAddress(0, Height - 1);
    d.SetSleepMode(false);
  }

  /** The three bring-up phases in order. */
  method BringUp(d: Ssd1351)
    requires d.Valid()
    modifies d
    ensures d.Valid() && d.commands == Woken(Configured(Unlocked(old(d.commands))))
    ensures old(d.commands) == [] ==> d.commands == BringUpCommands()
  {
    Unlock(d);
    ProgramSettings(d);
    Wake(d);
  }

  class HwlibSsd1351 {
    const display: Ssd1351
    var x: byte
    var y: byte

    ghost predicate Valid()
      reads this, display
    {
      display.Valid()
    }

    /** The reset sequence (constructing `display`), then the fixed bring-up commands. */
    constructor ()
      ensures fresh(display) && Valid()
      ensures display.commands == BringUpCommands()
      ensures x == 0 && y == 0
    {
      var d := new Ssd1351();
      BringUp(d);
      display := d;
      x, y := 0, 0;
    }

    /** set_cursor: addressing only for the coordinates that differ from the cache. */
    method SetCursor(tx: byte, ty: byte)
      requires Valid()
      modifies this, display
      ensures Valid()
      ensures display.commands == old(display.commands) + CursorCommands(old(x), old(y), tx, ty)
      ensures x == tx && y == ty
    {
      if x != tx {
        display.SetColumnAddress(tx, Width - 1);
      }
      if y != ty {
        display.SetRowAddress(ty, Height - 1);
      }
      x, y := tx, ty;
    }

    /**
     * write_implementation: the location is truncated to the uint8_t cursor
     * coordinates, the cursor is set, the pixel is sent and the cache advanced.
     */
    method WriteImplementation(px: int, py: int, col: Color)
      requires Valid()
      modifies this, display
      ensures Valid()
      ensures display.commands == old(display.commands) +
        CursorCommands(old(x), old(y), ToByte(px % 256), ToByte(py % 256)) +
        [OpData(CmdWriteRam, PixelBytes(ColorToData(col)))] +
        AdvanceCommands(ToByte(px % 256), ToByte(py % 256))
      ensures (x, y) == NextCursor(ToByte(px % 256), ToByte(py % 256))
    {
      var color := ColorToData(col);
      var buffer := PixelBytes(color);
      SetCursor(ToByte(px % 256), ToByte(py % 256));
      display.WriteScreenData(buffer, 2);
      assert buffer[..2] == buffer;
      Advance();
    }

    /** The cache update at the end of write_implementation, re-addressing at a row or panel end. */
    method Advance()
      requires Valid()
      modifies this, display
      ensures Valid()
      ensures display.commands == old(display.commands) + AdvanceCommands(old(x), old(y))
      ensures (x, y) == NextCursor(old(x), old(y))
    {
      if x < Width - 1 {
        x := x + 1;
      } else if y < Height - 1 {
        x := 0;
        display.SetColumnAddress(0, Width - 1);
        y := y + 1;
      } else {
        x := 0;
        y := 0;
        display.SetColumnAddress(0, Width - 1);
        display.SetRowAddress(0, Height - 1);
      }
    }

    /** clear: one set_cursor(0, 0), then one 0x5C command per pixel of the 128 x 128 panel. */
    method Clear(background: Color)
      requires Valid()
      modifies this, display
      ensures Valid()
      ensures display.commands == old(display.commands) + CursorCommands(old(x), old(y), 0, 0) +
        Repeat(OpData(CmdWriteRam, PixelBytes(ColorToData(background))), 128 * 128)
      ensures x == 0 && y == 0
    {
      var color := ColorToData(background);
      var buffer := PixelBytes(color);
      SetCursor(0, 0);
      ghost var start := display.commands;
      ghost var pixel := OpData(CmdWriteRam, buffer);
      assert buffer[..2] == buffer;
      var i := 0;
      while i < Height as int * Width as int
        invariant 0 <= i <= 128 * 128
        invariant Valid() && x == 0 && y == 0
        invariant display.commands == start + Repeat(pixel, i)
      {
        display.WriteScreenData(buffer, 2);
        i := i + 1;
      }
    }

    /** flush: the panel has no frame buffer, so nothing is sent. */
    method Flush()
      ensures unchanged(this) && unchanged(display)
    {
    }
  }

  lemma ByteBound(b: byte)
    ensures b as int < 256
  {
  }

  lemma SmallMod(k: int)
    requires 0 <= k < 256
    ensures k % 256 == k
  {
  }

  lemma ByteInjective(a: byte, b: byte)
    requires a as int == b as int
    ensures a == b
  {
  }

  /** Truncating a cursor coordinate to uint8_t gives it back. */
  lemma ByteMod(b: byte)
    ensures ToByte(b as int % 256) == b
  {
    ByteBound(b);
    SmallMod(b as int);
    ByteInjective(ToByte(b as int % 256), b);
  }

  /** One more in-order write extends SequentialWrites by that write's commands. */
  lemma SequentialWritesNext(start: seq<Command>, before: seq<Command>, i: nat, col: Color)
    requires before == start + SequentialWrites(i, col)
    ensures before + CursorCommands(CursorAfter(i).0, CursorAfter(i).1, CursorAfter(i).0, CursorAfter(i).1) +
      [OpData(CmdWriteRam, PixelBytes(ColorToData(col)))] + AdvanceCommands(CursorAfter(i).0, CursorAfter(i).1)
      == start + SequentialWrites(i + 1, col)
  {
  }

  /** The (i + 1)-th in-order write: write_implementation at the cached cursor. */
  method WriteAtCursor(w: HwlibSsd1351, ghost start: seq<Command>, ghost i: nat, col: Color)
    requires w.Valid() && w.display.commands == start + SequentialWrites(i, col)
    requires (w.x, w.y) == CursorAfter(i)
    modifies w, w.display
    ensures w.Valid() && w.display.commands == start + SequentialWrites(i + 1, col)
    ensures (w.x, w.y) == CursorAfter(i + 1)
  {
    var cx, cy := w.x, w.y;
    ByteMod(cx);
    ByteMod(cy);
    ghost var before := w.display.commands;
    w.WriteImplementation(cx as int, cy as int, col);
    SequentialWritesNext(start, before, i, col);
  }

  /**
   * A caller writing n pixels in order from the origin, each at the cached
   * cursor: the traffic is exactly SequentialWrites(n, col), so the
   * addressing count of SequentialWritesAddressing is what the panel sees.
   */
  method WriteInOrder(w: HwlibSsd1351, n: nat, col: Color)
    requires w.Valid() && w.x == 0 && w.y == 0
    modifies w, w.display
    ensures w.Valid()
    ensures w.display.commands == old(w.display.commands) + SequentialWrites(n, col)
    ensures (w.x, w.y) == CursorAfter(n)
  {
    ghost var start := w.display.commands;
    var i := 0;
    while i < n
      invariant 0 <= i <= n
      invariant w.Valid()
      invariant w.display.commands == start + SequentialWrites(i, col)
      invariant (w.x, w.y) == CursorAfter(i)
    {
      WriteAtCursor(w, start, i, col);
      i := i + 1;
    }
  }
}
