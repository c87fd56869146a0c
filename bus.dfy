/**
 * The wire seen by the SSD1351 driver, modelled as an append-only trace.
 *
 * The driver drives three output pins (chip select, reset and data/command),
 * blocks on millisecond delays, and pushes bytes through the SPI bus on its
 * write-only path (no input buffer). Each of these is one event of the trace.
 * On top of the raw events, a command is the opcode byte sent with the
 * data/command line low, optionally followed by its payload sent with the
 * line high.
 */
module Bus {
  import opened Wrappers

  type byte = bv8

  lemma ShiftInBit(b: byte, bit: bool)
    requires b < 128
    ensures ((b << 1) | (if bit then 1 else 0)) as int == 2 * b as int + (if bit then 1 else 0)
  {
  }

  /**
   * The byte holding an integer in 0..255. It is built from its bits, top
   * first, rather than by the conversion `n as byte`: the verifier cannot
   * cheaply show that the conversion gives back `n`, while each step here is
   * one shift and one or whose value ShiftInBit pins down.
   */
  function ToByte(n: nat): (r: byte)
    requires n < 256
    ensures r as int == n
  {
    if n == 0 then 0
    else
      var high := ToByte(n / 2);
      ShiftInBit(high, n % 2 == 1);
      (high << 1) | (if n % 2 == 1 then 1 else 0)
  }

  /** Bit k of a byte, tested as v & (0x01 << k), for k in 0..7. */
  predicate BitSet(v: byte, k: nat)
    requires k < 8
  {
    v & (1 << k) != 0
  }

  datatype PinId = ChipSelect | Reset | DataCommand

  datatype Event =
    | Pin(pin: PinId, level: bool)   // pin_out::set(level)
    | Wait(ms: nat)                  // wait_ms(ms)
    | Xfer(bytes: seq<byte>)         // one write_and_read call with no input buffer

  /** A command as the controller sees it: an opcode, with or without a data phase. */
  datatype Command =
    | Op(opcode: byte)
    | OpData(opcode: byte, data: seq<byte>)

  /** The events one command puts on the wire: D/C low, opcode, then D/C high, payload. */
  function Encode(c: Command): (t: seq<Event>)
    ensures 2 <= |t| && t[0] == Pin(DataCommand, false) && t[1] == Xfer([c.opcode])
    ensures c.Op? ==> |t| == 2
    ensures c.OpData? ==> |t| == 4 && t[2] == Pin(DataCommand, true) && t[3] == Xfer(c.data)
  {
    match c
    case Op(op) => [Pin(DataCommand, false), Xfer([op])]
    case OpData(op, d) => [Pin(DataCommand, false), Xfer([op]), Pin(DataCommand, true), Xfer(d)]
  }

  function EncodeAll(cs: seq<Command>): seq<Event>
  {
    if cs == [] then [] else Encode(cs[0]) + EncodeAll(cs[1..])
  }

  /**
   * Reads a trace back into commands. A trace is well formed when it is a run
   * of single-byte opcode transfers under D/C low, each optionally followed by
   * one payload transfer under D/C high.
   */
  function Decode(t: seq<Event>): Option<seq<Command>>
    decreases |t|
  {
    if t == [] then Some([])
    else if |t| >= 2 && t[0] == Pin(DataCommand, false) && t[1].Xfer? && |t[1].bytes| == 1 then
      var op := t[1].bytes[0];
      if |t| >= 4 && t[2] == Pin(DataCommand, true) && t[3].Xfer? then
        match Decode(t[4..])
        case Some(rest) => Some([OpData(op, t[3].bytes)] + rest)
        case None => None
      else
        match Decode(t[2..])
        case Some(rest) => Some([Op(op)] + rest)
        case None => None
    else None
  }

  /** Every non-empty encoding starts by pulling D/C low. */
  lemma {:induction false} EncodeAllStartsWithCommand(cs: seq<Command>)
    ensures EncodeAll(cs) == [] <==> cs == []
    ensures cs != [] ==> EncodeAll(cs)[0] == Pin(DataCommand, false)
  {
    if cs != [] {
      assert EncodeAll(cs) == Encode(cs[0]) + EncodeAll(cs[1..]);
    }
  }

  lemma {:induction false} EncodeAllAppend(a: seq<Command>, b: seq<Command>)
    ensures EncodeAll(a + b) == EncodeAll(a) + EncodeAll(b)
  {
    if a == [] {
      assert a + b == b;
    } else {
      assert (a + b)[0] == a[0];
      assert (a + b)[1..] == a[1..] + b;
      EncodeAllAppend(a[1..], b);
    }
  }

  lemma EncodeAllSnoc(cs: seq<Command>, c: Command)
    ensures EncodeAll(cs + [c]) == EncodeAll(cs) + Encode(c)
  {
    EncodeAllAppend(cs, [c]);
    assert EncodeAll([c]) == Encode(c) + EncodeAll([]);
  }

  /** The trace of a command sequence reads back as exactly that sequence. */
  lemma {:induction false} DecodeEncode(cs: seq<Command>)
    ensures Decode(EncodeAll(cs)) == Some(cs)
  {
    if cs != [] {
      var t := EncodeAll(cs);
      var rest := EncodeAll(cs[1..]);
      assert t == Encode(cs[0]) + rest;
      DecodeEncode(cs[1..]);
      EncodeAllStartsWithCommand(cs[1..]);
      match cs[0]
      case Op(op) =>
        assert t[2..] == rest;
        assert [Op(op)] + cs[1..] == cs;
      case OpData(op, d) =>
        assert t[4..] == rest;
        assert [OpData(op, d)] + cs[1..] == cs;
    }
  }

  /** One command's traffic reads back as that command alone. */
  lemma EncodeReadsBack(c: Command)
    ensures Decode(Encode(c)) == Some([c])
  {
    DecodeEncode([c]);
    assert EncodeAll([c]) == Encode(c) + EncodeAll([]);
  }

  /** Conversely, a trace that reads back as commands is their encoding. */
  lemma {:induction false} EncodeDecode(t: seq<Event>, cs: seq<Command>)
    requires Decode(t) == Some(cs)
    ensures EncodeAll(cs) == t
    decreases |t|
  {
    if t != [] {
      var op := t[1].bytes[0];
      assert t[1] == Xfer([op]);
      if |t| >= 4 && t[2] == Pin(DataCommand, true) && t[3].Xfer? {
        var rest :| Decode(t[4..]) == Some(rest) && cs == [OpData(op, t[3].bytes)] + rest;
        EncodeDecode(t[4..], rest);
        assert cs[1..] == rest;
        assert t == t[..4] + t[4..];
      } else {
        var rest :| Decode(t[2..]) == Some(rest) && cs == [Op(op)] + rest;
        EncodeDecode(t[2..], rest);
        assert cs[1..] == rest;
        assert t == t[..2] + t[2..];
      }
    }
  }

  /** True when the trace holds no byte transfer at all. */
  predicate NoTransfers(t: seq<Event>)
  {
    forall i :: 0 <= i < |t| ==> !t[i].Xfer?
  }
}
