/**
 * The SSD1351 command encoder (ssd1351/ssd1351.cpp).
 *
 * Every payload is built by masking and shifting parameters into fixed bit
 * positions of a byte; the functions below are those expressions, each with a
 * contract stating which field of the byte holds which parameter. The class
 * Ssd1351 is the driver object: its constructor runs the reset sequence and
 * each setter appends exactly one command to the bus trace.
 */
module Ssd1351 {
  import opened Wrappers
  import opened Bus

  /** uint8_t(b) for a bool: 1 or 0. */
  function BoolBit(b: bool): (r: byte)
    ensures r as int == if b then 1 else 0
  {
    if b then 1 else 0
  }

  /** A byte is its bits above bit 6 times 128 plus its low seven bits. */
  lemma Split7(v: byte)
    ensures v as int == (v >> 7) as int * 128 + (v & 0x7F) as int
    ensures (v & 0x7F) as int < 128
  {
  }

  /** A byte is its high nibble times 16 plus its low nibble. */
  lemma Split4(v: byte)
    ensures v as int == (v >> 4) as int * 16 + (v & 0x0F) as int
    ensures (v & 0x0F) as int < 16
  {
  }

  /** A byte is its bits above bit 2 times 8 plus its low three bits. */
  lemma Split3(v: byte)
    ensures v as int == (v >> 3) as int * 8 + (v & 0x07) as int
    ensures (v & 0x07) as int < 8
  {
  }

  /** A byte is its bits above bit 1 times 4 plus its low two bits. */
  lemma Split2(v: byte)
    ensures v as int == (v >> 2) as int * 4 + (v & 0x03) as int
    ensures (v & 0x03) as int < 4
  {
  }

  /** A byte is its top two bits times 64 plus its low six bits. */
  lemma Split6(v: byte)
    ensures v as int == (v >> 6) as int * 64 + (v & 0x3F) as int
    ensures (v & 0x3F) as int < 64
  {
  }

  /** The nibbles of a byte as integers: v / 16 and v % 16. */
  lemma ByteNibbles(v: byte)
    ensures v as int == (v >> 4) as int * 16 + (v & 0x0F) as int
    ensures (v >> 4) as int == v as int / 16
    ensures (v & 0x0F) as int == v as int % 16
  {
    Split4(v);
  }

  /** The top two bits of a byte, its low two bits and its low six bits as integers. */
  lemma ByteTopBits(v: byte)
    ensures (v >> 6) as int == v as int / 64
    ensures (v & 0x03) as int == v as int % 4
    ensures v as int == (v >> 6) as int * 64 + (v & 0x3F) as int
  {
    Split6(v);
    Split2(v);
  }

  /** The low seven bits of a byte as an integer. */
  lemma Low7(v: byte)
    ensures (v & 0x7F) as int == v as int % 128
  {
    Split7(v);
  }

  /** The low three bits of a byte as an integer. */
  lemma Low3(v: byte)
    ensures (v & 0x07) as int == v as int % 8
  {
    Split3(v);
  }

  /** value & 0x7F: the 7-bit fields (mux ratio, offset, start line, addresses). */
  function Mask7(v: byte): (r: byte)
    ensures r as int == v as int % 128
  {
    Low7(v);
    v & 0x7F
  }

  /** value & 0x0F: the 4-bit fields (gpio, master contrast, second precharge). */
  function Mask4(v: byte): (r: byte)
    ensures r as int == v as int % 16
  {
    ByteNibbles(v);
    v & 0x0F
  }

  /** value & 0x07: the 3-bit COM deselect voltage. */
  function Mask3(v: byte): (r: byte)
    ensures r as int == v as int % 8
  {
    Low3(v);
    v & 0x07
  }

  /** Clock divider 0xB3: the frequency in the high nibble, the divider in the low one. */
  function ClockDividerPayload(divider: byte, frequency: byte): (r: byte)
    ensures r as int / 16 == frequency as int % 16 && r as int % 16 == divider as int % 16
  {
    var r := (frequency << 4) | (divider & 0xF);
    ByteNibbles(r); ByteNibbles(frequency); ByteNibbles(divider);
    r
  }

  /** Phase lengths 0xB1: phase 2 in the high nibble, phase 1 in the low one. */
  function PhaseLengthPayload(phase1: byte, phase2: byte): (r: byte)
    ensures r as int / 16 == phase2 as int % 16 && r as int % 16 == phase1 as int % 16
  {
    var r := (phase2 << 4) | (phase1 & 0x0F);
    ByteNibbles(r); ByteNibbles(phase1); ByteNibbles(phase2);
    r
  }

  /** Interface registers 0xAB: interface select in bits 7..6, regulator in bit 0. */
  function InterfacePayload(regulator: bool, iface: byte): (r: byte)
    ensures r as int == (iface as int % 4) * 64 + (if regulator then 1 else 0)
  {
    var r := ((iface & 0x03) << 6) | BoolBit(regulator);
    assert r >> 6 == iface & 0x03 && r & 0x3F == BoolBit(regulator);
    ByteTopBits(r); ByteTopBits(iface);
    r
  }

  /** Command lock 0xFD: 0x16 locks, 0x12 unlocks. */
  function LockPayload(lock: bool): (r: byte)
    ensures r == 0x12 || r == 0x16
    ensures BitSet(r, 2) == lock
  {
    if lock then 0x16 else 0x12
  }

  /** Power options, also sent under 0xFD: 0xB0 or 0xB1. */
  function PowerOptionsPayload(allow: bool): (r: byte)
    ensures r == if allow then 0xB1 else 0xB0
  {
    0xB0 | BoolBit(allow)
  }

  /** Or-ing two low bits into a byte whose low two bits are clear adds them. */
  lemma OrLowTwo(high: byte, low: byte)
    requires high & 0x03 == 0 && low < 4
    ensures (high | low) as int == high as int + low as int
  {
    Split2(high);
    Split2(high | low);
    assert (high | low) >> 2 == high >> 2 && (high | low) & 0x03 == low;
  }

  /** Display mode: the opcode itself carries the mode, 0xA4 | (mode & 3). */
  function DisplayModeOpcode(mode: byte): (r: byte)
    ensures 0xA4 <= r <= 0xA7
    ensures r as int - 0xA4 == mode as int % 4
  {
    ByteTopBits(mode);
    OrLowTwo(0xA4, mode & 0x03);
    0xA4 | (mode & 0x03)
  }

  /** Sleep: 0xAF - sleep, so 0xAE is sleep on (panel off) and 0xAF sleep off. */
  function SleepOpcode(sleep: bool): (r: byte)
    ensures r == if sleep then 0xAE else 0xAF
  {
    0xAF - BoolBit(sleep)
  }

  /** Remap / colour depth 0xA0. */
  function RemapPayload(increment: bool, remap: bool, sequence: bool, scan: bool,
                        split: bool, depth: byte): (r: byte)
    ensures r as int / 64 == depth as int % 4
    ensures BitSet(r, 5) == split && BitSet(r, 4) == scan
    ensures !BitSet(r, 3)
    ensures BitSet(r, 2) == sequence && BitSet(r, 1) == remap && BitSet(r, 0) == increment
  {
    var r := ((depth & 0x03) << 6) | (BoolBit(split) << 5) | (BoolBit(scan) << 4) |
             (BoolBit(sequence) << 2) | (BoolBit(remap) << 1) | BoolBit(increment);
    assert r >> 6 == depth & 0x03;
    ByteTopBits(r); ByteTopBits(depth);
    r
  }

  /** External VSL 0xB4: three bytes, the selection in the low two bits of the first. */
  function VslPayload(v: byte): (r: seq<byte>)
    ensures |r| == 3 && r[1] == 0xB5 && r[2] == 0x55
    ensures r[0] as int == 0xA0 + v as int % 4
  {
    var first := 0xA0 | (v & 0x03);
    assert first >> 6 == 2 && first & 0x3F == 0x20 + (v & 0x03);
    ByteTopBits(first); ByteTopBits(v);
    [first, 0xB5, 0x55]
  }

  /** Column (0x15) and row (0x75) address payloads: start and end, 7 bits each. */
  function AddressPayload(start: byte, end: byte): (r: seq<byte>)
    ensures |r| == 2 && r[0] as int == start as int % 128 && r[1] as int == end as int % 128
  {
    [Mask7(start), Mask7(end)]
  }

  // Opcodes
  const CmdColumnAddress: byte := 0x15
  const CmdWriteRam: byte := 0x5C
  const CmdRowAddress: byte := 0x75
  const CmdRemap: byte := 0xA0
  const CmdStartLine: byte := 0xA1
  const CmdDisplayOffset: byte := 0xA2
  const CmdInterface: byte := 0xAB
  const CmdPhaseLength: byte := 0xB1
  const CmdClockDivider: byte := 0xB3
  const CmdVsl: byte := 0xB4
  const CmdGpio: byte := 0xB5
  const CmdSecondPrecharge: byte := 0xB6
  const CmdComDeselect: byte := 0xBE
  const CmdColorContrast: byte := 0xC1
  const CmdMasterContrast: byte := 0xC7
  const CmdMuxRatio: byte := 0xCA
  const CmdLock: byte := 0xFD

  function ColumnAddress(start: byte, end: byte): Command
  {
    OpData(CmdColumnAddress, AddressPayload(start, end))
  }

  function RowAddress(start: byte, end: byte): Command
  {
    OpData(CmdRowAddress, AddressPayload(start, end))
  }

  /** The constructor's pin and delay sequence; no byte goes over the bus. */
  function ResetSequence(): seq<Event>
  {
    [Pin(ChipSelect, false), Pin(Reset, true), Wait(10),
     Pin(Reset, false), Wait(10), Pin(Reset, true), Wait(10)]
  }

  lemma ResetSequenceHasNoTransfers()
    ensures NoTransfers(ResetSequence())
    ensures |ResetSequence()| == 7
  {
  }

  /**
   * Whatever a driver has sent since its reset sequence reads back, event for
   * event, as the commands it logged.
   */
  lemma TraceReadsBack(t: seq<Event>, cs: seq<Command>)
    requires t == ResetSequence() + EncodeAll(cs)
    ensures t[..|ResetSequence()|] == ResetSequence()
    ensures Decode(t[|ResetSequence()|..]) == Some(cs)
  {
    assert t[|ResetSequence()|..] == EncodeAll(cs);
    DecodeEncode(cs);
  }

  /**
   * The driver. `trace` is everything it has put on the pins, the delay and
   * the bus; `commands` is the same traffic read as controller commands.
   */
  class Ssd1351 {
    var trace: seq<Event>
    ghost var commands: seq<Command>

    /** Outside a call, the trace is the reset sequence followed by whole commands. */
    ghost predicate Valid()
      reads this
    {
      trace == ResetSequence() + EncodeAll(commands)
    }

    constructor ()
      ensures Valid() && commands == []
      ensures trace == ResetSequence()
    {
      trace := [Pin(ChipSelect, false)];
      trace := trace + [Pin(Reset, true)];
      trace := trace + [Wait(10)];
      trace := trace + [Pin(Reset, false)];
      trace := trace + [Wait(10)];
      trace := trace + [Pin(Reset, true)];
      trace := trace + [Wait(10)];
      commands := [];
    }

    /** D/C low, then the first `size` bytes of `data`. */
    method WriteCommand(data: seq<byte>, size: nat)
      requires size <= |data|
      modifies this`trace
      ensures trace == old(trace) + [Pin(DataCommand, false), Xfer(data[..size])]
    {
      trace := trace + [Pin(DataCommand, false)];
      trace := trace + [Xfer(data[..size])];
    }

    /** D/C high, then the first `size` bytes of `data`. */
    method WriteData(data: seq<byte>, size: nat)
      requires size <= |data|
      modifies this`trace
      ensures trace == old(trace) + [Pin(DataCommand, true), Xfer(data[..size])]
    {
      trace := trace + [Pin(DataCommand, true)];
      trace := trace + [Xfer(data[..size])];
    }

    method WriteCommandByte(b: byte)
      modifies this`trace
      ensures trace == old(trace) + Encode(Op(b))
    {
      WriteCommand([b], 1);
      assert [b][..1] == [b];
    }

    method WriteDataByte(b: byte)
      modifies this`trace
      ensures trace == old(trace) + [Pin(DataCommand, true), Xfer([b])]
    {
      WriteData([b], 1);
      assert [b][..1] == [b];
    }

    /** Records `c`, whose events were just appended, in the command log. */
    ghost method Log(c: Command)
      requires trace == ResetSequence() + EncodeAll(commands) + Encode(c)
      modifies this`commands
      ensures Valid() && commands == old(commands) + [c]
    {
      EncodeAllSnoc(commands, c);
      commands := commands + [c];
    }

    /** Opcode 0x5C, then the caller's `size` bytes unchanged and in order. */
    method WriteScreenData(data: seq<byte>, size: nat)
      requires Valid() && size <= |data|
      modifies this
      ensures Valid()
      ensures trace == old(trace) + Encode(OpData(CmdWriteRam, data[..size]))
      ensures commands == old(commands) + [OpData(CmdWriteRam, data[..size])]
    {
      WriteCommandByte(CmdWriteRam);
      WriteData(data, size);
      Log(OpData(CmdWriteRam, data[..size]));
    }

    /** A command without data phase. */
    method CommandOnly(op: byte)
      requires Valid()
      modifies this
      ensures Valid()
      ensures trace == old(trace) + Encode(Op(op))
      ensures commands == old(commands) + [Op(op)]
    {
      WriteCommandByte(op);
      Log(Op(op));
    }

    /** A one-byte command followed by a one-byte payload. */
    method CommandWithByte(op: byte, b: byte)
      requires Valid()
      modifies this
      ensures Valid()
      ensures trace == old(trace) + Encode(OpData(op, [b]))
      ensures commands == old(commands) + [OpData(op, [b])]
    {
      WriteCommandByte(op);
      WriteDataByte(b);
      Log(OpData(op, [b]));
    }

    /** A one-byte command followed by a payload buffer sent whole. */
    method CommandWithBuffer(op: byte, buf: seq<byte>)
      requires Valid()
      modifies this
      ensures Valid()
      ensures trace == old(trace) + Encode(OpData(op, buf))
      ensures commands == old(commands) + [OpData(op, buf)]
    {
      WriteCommandByte(op);
      WriteData(buf, |buf|);
      assert buf[..|buf|] == buf;
      Log(OpData(op, buf));
    }

    method SetClockDivider(divider: byte, frequency: byte)
      requires Valid()
      modifies this
      ensures Valid()
      ensures trace == old(trace) + Encode(OpData(CmdClockDivider, [ClockDividerPayload(divider, frequency)]))
      ensures commands == old(commands) + [OpData(CmdClockDivider, [ClockDividerPayload(divider, frequency)])]
    {
      CommandWithByte(CmdClockDivider, (frequency << 4) | (divider & 0xF));
    }

    method SetGpio(gpio: byte)
      requires Valid()
      modifies this
      ensures Valid()
      ensures trace == old(trace) + Encode(OpData(CmdGpio, [Mask4(gpio)]))
      ensures commands == old(commands) + [OpData(CmdGpio, [Mask4(gpio)])]
    {
      CommandWithByte(CmdGpio, gpio & 0x0F);
    }

    method SetPhaseLength(phase1: byte, phase2: byte)
      requires Valid()
      modifies this
      ensures Valid()
      ensures trace == old(trace) + Encode(OpData(CmdPhaseLength, [PhaseLengthPayload(phase1, phase2)]))
      ensures commands == old(commands) + [OpData(CmdPhaseLength, [PhaseLengthPayload(phase1, phase2)])]
    {
      CommandWithByte(CmdPhaseLength, (phase2 << 4) | (phase1 & 0x0F));
    }

    method SetDisplayOffset(offset: byte)
      requires Valid()
      modifies this
      ensures Valid()
      ensures trace == old(trace) + Encode(OpData(CmdDisplayOffset, [Mask7(offset)]))
      ensures commands == old(commands) + [OpData(CmdDisplayOffset, [Mask7(offset)])]
    {
      CommandWithByte(CmdDisplayOffset, offset & 0x7F);
    }

    method SetDisplayStartLine(startLine: byte)
      requires Valid()
      modifies this
      ensures Valid()
      ensures trace == old(trace) + Encode(OpData(CmdStartLine, [Mask7(startLine)]))
      ensures commands == old(commands) + [OpData(CmdStartLine, [Mask7(startLine)])]
    {
      CommandWithByte(CmdStartLine, startLine & 0x7F);
    }

    method SetInterfaceRegisters(regulator: bool, iface: byte)
      requires Valid()
      modifies this
      ensures Valid()
      ensures trace == old(trace) + Encode(OpData(CmdInterface, [InterfacePayload(regulator, iface)]))
      ensures commands == old(commands) + [OpData(CmdInterface, [InterfacePayload(regulator, iface)])]
    {
      CommandWithByte(CmdInterface, ((iface & 0x03) << 6) | BoolBit(regulator));
    }

    method SetCommandLock(lock: bool)
      requires Valid()
      modifies this
      ensures Valid()
      ensures trace == old(trace) + Encode(OpData(CmdLock, [LockPayload(lock)]))
      ensures commands == old(commands) + [OpData(CmdLock, [LockPayload(lock)])]
    {
      CommandWithByte(CmdLock, if lock then 0x16 else 0x12);
    }

    method EnablePowerOptions(allowCommands: bool)
      requires Valid()
      modifies this
      ensures Valid()
      ensures trace == old(trace) + Encode(OpData(CmdLock, [PowerOptionsPayload(allowCommands)]))
      ensures commands == old(commands) + [OpData(CmdLock, [PowerOptionsPayload(allowCommands)])]
    {
      CommandWithByte(CmdLock, 0xB0 | BoolBit(allowCommands));
    }

    method SetColorContrast(a: byte, b: byte, c: byte)
      requires Valid()
      modifies this
      ensures Valid()
      ensures trace == old(trace) + Encode(OpData(CmdColorContrast, [a, b, c]))
      ensures commands == old(commands) + [OpData(CmdColorContrast, [a, b, c])]
    {
      CommandWithBuffer(CmdColorContrast, [a, b, c]);
    }

    method SetMasterContrast(contrast: byte)
      requires Valid()
      modifies this
      ensures Valid()
      ensures trace == old(trace) + Encode(OpData(CmdMasterContrast, [Mask4(contrast)]))
      ensures commands == old(commands) + [OpData(CmdMasterContrast, [Mask4(contrast)])]
    {
      CommandWithByte(CmdMasterContrast, contrast & 0x0F);
    }

    method SetMuxRatio(ratio: byte)
      requires Valid()
      modifies this
      ensures Valid()
      ensures trace == old(trace) + Encode(OpData(CmdMuxRatio, [Mask7(ratio)]))
      ensures commands == old(commands) + [OpData(CmdMuxRatio, [Mask7(ratio)])]
    {
      CommandWithByte(CmdMuxRatio, ratio & 0x7F);
    }

    method SetColumnAddress(start: byte, end: byte)
      requires Valid()
      modifies this
      ensures Valid()
      ensures trace == old(trace) + Encode(ColumnAddress(start, end))
      ensures commands == old(commands) + [ColumnAddress(start, end)]
    {
      CommandWithBuffer(CmdColumnAddress, [start & 0x7F, end & 0x7F]);
    }

    method SetRowAddress(start: byte, end: byte)
      requires Valid()
      modifies this
      ensures Valid()
      ensures trace == old(trace) + Encode(RowAddress(start, end))
      ensures commands == old(commands) + [RowAddress(start, end)]
    {
      CommandWithBuffer(CmdRowAddress, [start & 0x7F, end & 0x7F]);
    }

    method SetDisplayMode(mode: byte)
      requires Valid()
      modifies this
      ensures Valid()
      ensures trace == old(trace) + Encode(Op(DisplayModeOpcode(mode)))
      ensures commands == old(commands) + [Op(DisplayModeOpcode(mode))]
    {
      CommandOnly(0xA4 | (mode & 0x03));
    }

    method SetSleepMode(sleep: bool)
      requires Valid()
      modifies this
      ensures Valid()
      ensures trace == old(trace) + Encode(Op(SleepOpcode(sleep)))
      ensures commands == old(commands) + [Op(SleepOpcode(sleep))]
    {
      CommandOnly(0xAF - BoolBit(sleep));
    }

    method SetRemapColorDepth(increment: bool, remap: bool, sequence: bool, scan: bool,
                              split: bool, depth: byte)
      requires Valid()
      modifies this
      ensures Valid()
      ensures trace == old(trace) + Encode(OpData(CmdRemap,
                [RemapPayload(increment, remap, sequence, scan, split, depth)]))
      ensures commands == old(commands) + [OpData(CmdRemap,
                [RemapPayload(increment, remap, sequence, scan, split, depth)])]
    {
      CommandWithByte(CmdRemap,
        ((depth & 0x03) << 6) | (BoolBit(split) << 5) | (BoolBit(scan) << 4) |
        (BoolBit(sequence) << 2) | (BoolBit(remap) << 1) | BoolBit(increment));
    }

    method SetExternalVsl(v: byte)
      requires Valid()
      modifies this
      ensures Valid()
      ensures trace == old(trace) + Encode(OpData(CmdVsl, VslPayload(v)))
      ensures commands == old(commands) + [OpData(CmdVsl, VslPayload(v))]
    {
      CommandWithBuffer(CmdVsl, [0xA0 | (v & 0x03), 0xB5, 0x55]);
    }

    method SetComDeselectVoltage(voltage: byte)
      requires Valid()
      modifies this
      ensures Valid()
      ensures trace == old(trace) + Encode(OpData(CmdComDeselect, [Mask3(voltage)]))
      ensures commands == old(commands) + [OpData(CmdComDeselect, [Mask3(voltage)])]
    {
      CommandWithByte(CmdComDeselect, voltage & 0x07);
    }

    method SetSecondPrecharge(precharge: byte)
      requires Valid()
      modifies this
      ensures Valid()
      ensures trace == old(trace) + Encode(OpData(CmdSecondPrecharge, [Mask4(precharge)]))
      ensures commands == old(commands) + [OpData(CmdSecondPrecharge, [Mask4(precharge)])]
    {
      CommandWithByte(CmdSecondPrecharge, precharge & 0x0F);
    }
  }
}
