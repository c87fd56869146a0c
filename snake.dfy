/**
 * The snake board logic (snake/snake.cpp, snake/snake.hpp).
 *
 * The board is a 32 x 32 grid of uint16_t cells updated in place: 0 is empty,
 * 1 a wall, 2 food, and a value above 2 a snake segment whose value is the
 * number of ticks it still lives plus 2. Every board cell is drawn as a 4 x 4
 * block of panel pixels; the window is a recorder of the pixel writes, in
 * order, with the colours named symbolically.
 */
module Game {
  import opened Wrappers
  import opened Bus
  import opened Graphics

  const Width := 32
  const Height := 32
  const Cells := Width * Height

  const Empty: u16 := 0
  const Wall: u16 := 1
  const Food: u16 := 2

  datatype BlockColor = Green | Gray | Red | Background

  /** One call of window.write(location(x, y), color). */
  datatype PixelWrite = PixelWrite(x: int, y: int, color: BlockColor)

  /** head.x + head.y * width: the map index of a board position. */
  function Index(x: int, y: int): (r: int)
    ensures InBox(x, y) ==> 0 <= r < Cells
  {
    x + y * Width
  }

  predicate InBox(x: int, y: int)
  {
    0 <= x < Width && 0 <= y < Height
  }

  /** The cells setup_game walls in: row 0, row 31, column 0 and column 31. */
  predicate OnBorder(i: int)
  {
    i < Width || i >= Width * (Height - 1) || i % Width == 0 || i % Width == Width - 1
  }

  /** A board position lies on the border exactly when it is in the outer ring. */
  lemma BorderIndex(x: int, y: int)
    requires InBox(x, y)
    ensures 0 <= Index(x, y) < Cells
    ensures OnBorder(Index(x, y)) <==> (x == 0 || x == Width - 1 || y == 0 || y == Height - 1)
  {
    assert Index(x, y) % Width == x;
  }

  /** Every border cell holds a wall. */
  ghost predicate Walls(m: seq<u16>)
  {
    |m| == Cells && forall i :: 0 <= i < Cells && OnBorder(i) ==> m[i] == Wall
  }

  lemma WallsUpdate(m: seq<u16>, i: int, v: u16)
    requires Walls(m) && 0 <= i < Cells && !OnBorder(i)
    ensures Walls(m[i := v])
  {
  }

  // ---------------------------------------------------------------------
  // Blocks and pixels
  // ---------------------------------------------------------------------

  /**
   * The 16 pixel writes of write_screen_block(block, color): the 4 x 4 square
   * whose top-left corner is (4 * (block % 32), 4 * (block / 32)), rows outer
   * and columns inner.
   */
  function BlockPixels(block: nat, color: BlockColor): seq<PixelWrite>
  {
    seq(16, k requires 0 <= k < 16 => PixelWrite(4 * (block % Width) + k % 4, 4 * (block / Width) + k / 4, color))
  }

  /** The board cell a panel pixel belongs to. */
  function PixelBlock(x: int, y: int): int
  {
    (y / 4) * Width + x / 4
  }

  /** Every pixel of a block on the board lies on the 128 x 128 panel. */
  lemma BlockPixelsOnPanel(block: nat, color: BlockColor)
    requires block < Cells
    ensures forall k :: 0 <= k < 16 ==>
      0 <= BlockPixels(block, color)[k].x < 128 && 0 <= BlockPixels(block, color)[k].y < 128
  {
  }

  /** Every pixel of a block maps back to that block. */
  lemma BlockPixelsInverse(block: nat, color: BlockColor)
    ensures forall k :: 0 <= k < 16 ==>
      PixelBlock(BlockPixels(block, color)[k].x, BlockPixels(block, color)[k].y) == block
  {
    forall k | 0 <= k < 16
      ensures PixelBlock(BlockPixels(block, color)[k].x, BlockPixels(block, color)[k].y) == block
    {
      var p := BlockPixels(block, color)[k];
      assert p.x / 4 == block % Width;
      assert p.y / 4 == block / Width;
    }
  }

  /** Every panel pixel is drawn by the block it maps to, at one position. */
  lemma BlockPixelsCover(x: int, y: int, color: BlockColor)
    requires 0 <= x < 128 && 0 <= y < 128
    ensures 0 <= PixelBlock(x, y) < Cells
    ensures BlockPixels(PixelBlock(x, y), color)[4 * (y % 4) + x % 4] == PixelWrite(x, y, color)
  {
    var b := PixelBlock(x, y);
    assert b % Width == x / 4 && b / Width == y / 4;
  }

  /** The pixel writes of a list of blocks, in order. */
  function BlocksPixels(blocks: seq<nat>, color: BlockColor): seq<PixelWrite>
  {
    if blocks == [] then []
    else BlocksPixels(blocks[..|blocks| - 1], color) + BlockPixels(blocks[|blocks| - 1], color)
  }

  /** A recorder that held `before` and then got blocks a and b. */
  lemma BlocksPixelsPair(before: seq<PixelWrite>, blocks: seq<nat>, a: nat, b: nat, color: BlockColor)
    ensures before + BlocksPixels(blocks, color) + BlockPixels(a, color) + BlockPixels(b, color) ==
      before + BlocksPixels(blocks + [a, b], color)
  {
    assert (blocks + [a, b])[..|blocks| + 1] == blocks + [a];
    assert (blocks + [a])[..|blocks|] == blocks;
  }

  // ---------------------------------------------------------------------
  // Cells
  // ---------------------------------------------------------------------

  /** move's return code for the value the head ran into. */
  function HitCode(v: u16): (r: nat)
    ensures r <= 2
    ensures r == 0 <==> v == Empty
    ensures r == 1 <==> v == Food
    ensures r == 2 <==> (v != Empty && v != Food)
  {
    if v > 0 && v != Food then 2
    else if v == Food then 1
    else 0
  }

  /** uint16_t(length + 2): the value a new head segment gets. */
  function Lifetime(length: u16): u16
  {
    ((length as int + 2) % 0x1_0000) as u16
  }

  /** A uint16_t counter after ++. */
  function Inc(v: u16): (r: u16)
    ensures r as int == (v as int + 1) % 0x1_0000
  {
    if v == 0xFFFF then 0 else v + 1
  }

  /** One cell after screen_snake_update. */
  function AgeCell(v: u16): u16
  {
    if v > 2 then (if v == 3 then Empty else v - 1) else v
  }

  /** The board after screen_snake_update. */
  function Aged(m: seq<u16>): (r: seq<u16>)
    ensures |r| == |m|
    ensures forall j :: 0 <= j < |m| ==> r[j] == AgeCell(m[j])
  {
    seq(|m|, j requires 0 <= j < |m| => AgeCell(m[j]))
  }

  /** A cell after n ticks of ageing. */
  function AgedTimes(v: u16, n: nat): u16
  {
    if n == 0 then v else AgeCell(AgedTimes(v, n - 1))
  }

  /**
   * A segment of value v > 2 counts down by one per tick and becomes empty
   * after exactly v - 2 ticks; empty, wall and food cells never change.
   */
  lemma {:induction false} SegmentLifetime(v: u16, n: nat)
    ensures v <= Food ==> AgedTimes(v, n) == v
    ensures v > Food && n < v as int - 2 ==> AgedTimes(v, n) as int == v as int - n
    ensures v > Food && n >= v as int - 2 ==> AgedTimes(v, n) == Empty
  {
    if n > 0 {
      SegmentLifetime(v, n - 1);
    }
  }

  /** Ageing keeps every wall and every piece of food. */
  lemma AgedKeepsWallsAndFood(m: seq<u16>)
    requires Walls(m)
    ensures Walls(Aged(m))
    ensures forall j :: 0 <= j < |m| && m[j] == Food ==> Aged(m)[j] == Food
  {
  }

  /** The background blocks screen_snake_update draws over the first n cells. */
  function TailClears(m: seq<u16>, n: nat): seq<PixelWrite>
    requires n <= |m|
  {
    if n == 0 then []
    else TailClears(m, n - 1) + (if m[n - 1] == 3 then BlockPixels(n - 1, Background) else [])
  }

  /** The board after setup_game's wall loops: border cells hold walls, the rest is kept. */
  function Walled(m: seq<u16>): (r: seq<u16>)
    ensures |r| == |m|
    ensures forall j :: 0 <= j < |m| ==> r[j] == if OnBorder(j) then Wall else m[j]
  {
    seq(|m|, j requires 0 <= j < |m| => if OnBorder(j) then Wall else m[j])
  }

  lemma WalledHasWalls(m: seq<u16>)
    requires |m| == Cells
    ensures Walls(Walled(m))
  {
  }

  /** The blocks the first wall loop draws for i < n: block i, then block 992 + i. */
  function RowWalls(n: nat): seq<nat>
  {
    if n == 0 then [] else RowWalls(n - 1) + [n - 1, Width * (Height - 1) + n - 1]
  }

  /** The blocks the second wall loop draws for 1 <= i < n: block 32 i, then block 31 + 32 i. */
  function SideWalls(n: nat): seq<nat>
  {
    if n <= 1 then [] else SideWalls(n - 1) + [(n - 1) * Width, Width - 1 + (n - 1) * Width]
  }

  lemma {:induction false} RowWallsContents(n: nat)
    ensures forall b: nat :: b in RowWalls(n) <==> (b < n || Width * (Height - 1) <= b < Width * (Height - 1) + n)
  {
    if n > 0 {
      RowWallsContents(n - 1);
      var last := [n - 1, Width * (Height - 1) + n - 1];
      assert RowWalls(n) == RowWalls(n - 1) + last;
      forall b: nat
        ensures b in RowWalls(n) <==> (b < n || Width * (Height - 1) <= b < Width * (Height - 1) + n)
      {
        assert b in RowWalls(n) <==> b in RowWalls(n - 1) || b in last;
      }
    }
  }

  lemma {:induction false} SideWallsContents(n: nat)
    ensures forall b :: b in SideWalls(n) <==>
      (Width <= b < n * Width && (b % Width == 0 || b % Width == Width - 1))
  {
    if n > 1 {
      SideWallsContents(n - 1);
      assert SideWalls(n) == SideWalls(n - 1) + [(n - 1) * Width, Width - 1 + (n - 1) * Width];
      forall b | (n - 1) * Width <= b < n * Width && (b % Width == 0 || b % Width == Width - 1)
        ensures b == (n - 1) * Width || b == Width - 1 + (n - 1) * Width
      {
        assert b / Width == n - 1;
      }
    }
  }

  /** Cell j is walled in by the first loop after i steps. */
  predicate RowWall(j: int, i: int)
  {
    j < i || Width * (Height - 1) <= j < Width * (Height - 1) + i
  }

  lemma RowWallStep(i: nat)
    ensures forall j :: RowWall(j, i + 1) <==> RowWall(j, i) || j == i || j == Width * (Height - 1) + i
  {
    assert Width * (Height - 1) == 992;
  }

  /** Cell j is walled in by the second loop before step i. */
  predicate SideWall(j: int, i: int)
  {
    Width <= j < i * Width && (j % Width == 0 || j % Width == Width - 1)
  }

  lemma SideWallStep(i: nat)
    requires 1 <= i
    ensures (i * Width) % Width == 0 && (Width - 1 + i * Width) % Width == Width - 1
    ensures forall j :: SideWall(j, i + 1) <==> SideWall(j, i) || j == i * Width || j == Width - 1 + i * Width
  {
    assert i * Width == 32 * i && (i + 1) * Width == 32 * i + 32;
    assert (32 * i) % 32 == 0 && (31 + 32 * i) % 32 == 31;
    forall j: int
      ensures SideWall(j, i + 1) <==> SideWall(j, i) || j == i * Width || j == Width - 1 + i * Width
    {
      if 32 * i <= j < 32 * i + 32 {
        assert j / 32 == i;
        assert j == 32 * (j / 32) + j % 32;
      }
    }
  }

  /** The two wall loops together cover exactly the border. */
  lemma BorderSplit(j: int)
    requires 0 <= j < Cells
    ensures OnBorder(j) <==> RowWall(j, Width) || SideWall(j, Height - 1)
  {
  }

  /** The board after the first wall loop. */
  function RowWalled(m: seq<u16>): seq<u16>
  {
    seq(|m|, j requires 0 <= j < |m| => if RowWall(j, Width) then Wall else m[j])
  }

  /** The board after the second wall loop. */
  function SideWalled(m: seq<u16>): seq<u16>
  {
    seq(|m|, j requires 0 <= j < |m| => if SideWall(j, Height - 1) then Wall else m[j])
  }

  /** A board that agrees cell by cell with the first wall loop's result is that result. */
  lemma RowWalledCells(m: seq<u16>, g: seq<u16>)
    requires |m| == |g| == Cells
    requires forall j :: 0 <= j < Cells ==> g[j] == if RowWall(j, Width) then Wall else m[j]
    ensures g == RowWalled(m)
  {
  }

  /** A board that agrees cell by cell with the second wall loop's result is that result. */
  lemma SideWalledCells(m: seq<u16>, g: seq<u16>)
    requires |m| == |g| == Cells
    requires forall j :: 0 <= j < Cells ==> g[j] == if SideWall(j, Height - 1) then Wall else m[j]
    ensures g == SideWalled(m)
  {
  }

  /** The two wall loops, one after the other, wall in the border and nothing else. */
  lemma WallLoopsBuildWalled(m: seq<u16>)
    requires |m| == Cells
    ensures SideWalled(RowWalled(m)) == Walled(m)
  {
    forall j | 0 <= j < Cells
      ensures SideWalled(RowWalled(m))[j] == Walled(m)[j]
    {
      BorderSplit(j);
    }
  }

  lemma {:induction false} BlocksPixelsAppend(a: seq<nat>, b: seq<nat>, color: BlockColor)
    ensures BlocksPixels(a + b, color) == BlocksPixels(a, color) + BlocksPixels(b, color)
    decreases |b|
  {
    if b == [] {
      assert a + b == a;
    } else {
      assert (a + b)[..|a + b| - 1] == a + b[..|b| - 1];
      BlocksPixelsAppend(a, b[..|b| - 1], color);
    }
  }

  /** A recorder that held `before` and then got the blocks of a, then those of b. */
  lemma BlocksPixelsThen(before: seq<PixelWrite>, a: seq<nat>, b: seq<nat>, color: BlockColor)
    ensures before + BlocksPixels(a, color) + BlocksPixels(b, color) == before + BlocksPixels(a + b, color)
  {
    BlocksPixelsAppend(a, b, color);
  }


  /** The wall blocks setup_game draws are exactly the border cells. */
  lemma WallBlocksAreBorder(b: nat)
    requires b < Cells
    ensures b in RowWalls(Width) + SideWalls(Height - 1) <==> OnBorder(b)
  {
    RowWallsContents(Width);
    SideWallsContents(Height - 1);
  }

  // ---------------------------------------------------------------------
  // Food and movement
  // ---------------------------------------------------------------------

  /** rand() % (width - 2) + 1 for both coordinates: the cell one draw proposes. */
  function FoodCell(draw: (nat, nat)): nat
  {
    Index(draw.0 % (Width - 2) + 1, draw.1 % (Height - 2) + 1)
  }

  lemma FoodCellInterior(draw: (nat, nat))
    ensures FoodCell(draw) < Cells && !OnBorder(FoodCell(draw))
  {
    BorderIndex(draw.0 % (Width - 2) + 1, draw.1 % (Height - 2) + 1);
  }

  /** The position in `draws`, from `from` on, of the first draw proposing an empty cell. */
  function FirstFree(m: seq<u16>, draws: seq<(nat, nat)>, from: nat): (r: Option<nat>)
    requires |m| == Cells && from <= |draws|
    ensures r.Some? ==> from <= r.value < |draws|
    decreases |draws| - from
  {
    if from == |draws| then None
    else if m[FoodCell(draws[from])] == Empty then Some(from)
    else FirstFree(m, draws, from + 1)
  }

  /** FirstFree finds the first acceptable draw, and None means no draw is acceptable. */
  lemma {:induction false} FirstFreeMeaning(m: seq<u16>, draws: seq<(nat, nat)>, from: nat)
    requires |m| == Cells && from <= |draws|
    ensures FirstFree(m, draws, from).Some? ==>
      var j := FirstFree(m, draws, from).value;
      from <= j < |draws| && m[FoodCell(draws[j])] == Empty &&
      forall k :: from <= k < j ==> m[FoodCell(draws[k])] != Empty
    ensures FirstFree(m, draws, from).None? <==>
      forall k :: from <= k < |draws| ==> m[FoodCell(draws[k])] != Empty
    decreases |draws| - from
  {
    if from < |draws| {
      FoodCellInterior(draws[from]);
      if m[FoodCell(draws[from])] != Empty {
        FirstFreeMeaning(m, draws, from + 1);
      }
    }
  }

  /** move_direction's deltas: left, down, right, up. */
  function Delta(d: byte): (int, int)
    requires d < 4
  {
    if d == 0 then (-1, 0) else if d == 1 then (0, 1) else if d == 2 then (1, 0) else (0, -1)
  }

  /** Every direction is one step along one axis; d and d + 2 are opposite; all four differ. */
  lemma DeltaSteps(d: byte)
    requires d < 4
    ensures var (dx, dy) := Delta(d); (dx == 0) != (dy == 0) && -1 <= dx <= 1 && -1 <= dy <= 1
    ensures var (dx, dy) := Delta(d); Delta((d + 2) % 4) == (-dx, -dy)
    ensures forall e: byte :: e < 4 && e != d ==> Delta(e) != Delta(d)
  {
  }

  // ---------------------------------------------------------------------
  // Direction
  // ---------------------------------------------------------------------

  /** change_direction as written: 2-bit fields compared as unsigned values. */
  function Turn(d: bv2, last: bv2, buttons: byte): bv2
  {
    var d1 := if buttons & 1 != 0 && d <= last then d + 1 else d;
    if buttons & 2 != 0 && d1 >= last then d1 - 1 else d1
  }

  /** A heading at most one quarter turn away from the last tick's heading. */
  predicate Steerable(d: bv2, last: bv2)
  {
    d - last != 2
  }

  /** Away from the wrap-around, change_direction never reverses the snake. */
  lemma TurnKeepsSteerableInside(d: bv2, last: bv2, buttons: byte)
    requires last == 1 || last == 2
    requires Steerable(d, last)
    ensures Steerable(Turn(d, last, buttons), last)
  {
  }

  /**
   * At last_direction 3 two presses of button 1 give direction 1, and at
   * last_direction 0 two presses of button 2 give direction 2: a reversal
   * within one tick.
   */
  lemma TurnReversesAtWrap()
    ensures Turn(Turn(3, 3, 1), 3, 1) == 1 && !Steerable(1, 3)
    ensures Turn(Turn(0, 0, 2), 0, 2) == 2 && !Steerable(2, 0)
  {
  }

  /** change_direction as intended: at most a quarter turn either way from the last heading. */
  function TurnIntended(d: bv2, last: bv2, buttons: byte): bv2
  {
    var d1 := if buttons & 1 != 0 && d != last + 1 then d + 1 else d;
    if buttons & 2 != 0 && d1 != last - 1 then d1 - 1 else d1
  }

  /** The intended rule keeps every heading steerable, on any sequence of presses. */
  lemma TurnIntendedKeepsSteerable(d: bv2, last: bv2, buttons: byte)
    requires Steerable(d, last)
    ensures Steerable(TurnIntended(d, last, buttons), last)
  {
  }

  /** The intended rule agrees with the code on every single press from the last heading. */
  lemma TurnIntendedAgreesOnFirstPress(last: bv2, buttons: byte)
    requires buttons & 3 != 3
    ensures TurnIntended(last, last, buttons) == Turn(last, last, buttons)
  {
  }

  // ---------------------------------------------------------------------
  // Digits and the score text
  // ---------------------------------------------------------------------

  /** countdigits' specification: the number of decimal digits, 0 for 0. */
  function Digits(n: nat): nat
  {
    if n == 0 then 0 else 1 + Digits(n / 10)
  }

  function Pow10(k: nat): nat
  {
    if k == 0 then 1 else 10 * Pow10(k - 1)
  }

  /** A positive n has Digits(n) digits: 10^(Digits(n) - 1) <= n < 10^Digits(n). */
  lemma {:induction false} DigitsBounds(n: nat)
    ensures n == 0 <==> Digits(n) == 0
    ensures n > 0 ==> Pow10(Digits(n) - 1) <= n < Pow10(Digits(n))
  {
    if n >= 10 {
      DigitsBounds(n / 10);
    }
  }

  /** countdigits(digit). */
  method CountDigits(digit: nat) returns (ret: nat)
    requires digit < 0x1_0000_0000
    ensures ret == Digits(digit)
  {
    var d := digit;
    ret := 0;
    while d > 0
      invariant ret + Digits(d) == Digits(digit)
      decreases d
    {
      d := d / 10;
      ret := ret + 1;
    }
  }

  function DigitChar(k: nat): char
    requires k < 10
  {
    '0' + k as char
  }

  /** What `t_display << n` prints for an unsigned n. */
  function Decimal(n: nat): (s: string)
    ensures |s| >= 1
  {
    if n < 10 then [DigitChar(n)] else Decimal(n / 10) + [DigitChar(n % 10)]
  }

  lemma {:induction false} DecimalLength(n: nat)
    ensures |Decimal(n)| == if n == 0 then 1 else Digits(n)
  {
    if n >= 10 {
      DecimalLength(n / 10);
    }
  }

  /** The number a string of decimal digits denotes. */
  function Value(s: string): int
  {
    if s == [] then 0 else Value(s[..|s| - 1]) * 10 + (s[|s| - 1] as int - '0' as int)
  }

  predicate AllDigits(s: string)
  {
    forall i :: 0 <= i < |s| ==> '0' <= s[i] <= '9'
  }

  /** Decimal prints digits only, and they read back as the number. */
  lemma {:induction false} DecimalValue(n: nat)
    ensures AllDigits(Decimal(n)) && Value(Decimal(n)) == n
  {
    if n >= 10 {
      DecimalValue(n / 10);
      var s := Decimal(n);
      assert s[..|s| - 1] == Decimal(n / 10);
    }
  }

  /** k '0' characters, none for k <= 0: the padding loop of death_screen. */
  function Zeros(k: int): (s: string)
    ensures |s| == if k <= 0 then 0 else k
    ensures forall i :: 0 <= i < |s| ==> s[i] == '0'
  {
    if k <= 0 then [] else Zeros(k - 1) + ['0']
  }

  /** Leading zeros do not change the value of a digit string. */
  lemma {:induction false} ValueZeros(k: int, s: string)
    ensures Value(Zeros(k) + s) == Value(s)
    decreases |s|, if k <= 0 then 0 else k
  {
    if s == [] {
      assert Zeros(k) + s == Zeros(k);
      if k > 0 {
        ValueZeros(k - 1, []);
        assert Zeros(k - 1) + [] == Zeros(k - 1);
      }
    } else {
      var t := Zeros(k) + s;
      assert t[..|t| - 1] == Zeros(k) + s[..|s| - 1];
      ValueZeros(k, s[..|s| - 1]);
    }
  }

  /** The score digits of death_screen as written: 4 - countdigits(score) zeros, then the score. */
  function ScoreTextAsWritten(score: u16): string
  {
    Zeros(4 - Digits(score as nat)) + Decimal(score as nat)
  }

  /** countdigits(0) is 0, so a score of 0 prints five characters. */
  lemma ScoreTextAsWrittenAtZero()
    ensures ScoreTextAsWritten(0) == "00000"
  {
  }

  /** The score digits as intended: padded with zeros to four characters. */
  function ScoreText(score: u16): string
  {
    Zeros(4 - |Decimal(score as nat)|) + Decimal(score as nat)
  }

  /** Any score below 10000 prints as exactly four digits that read back as the score. */
  lemma ScoreTextMeaning(score: u16)
    ensures score < 10000 ==> |ScoreText(score)| == 4
    ensures score >= 10000 ==> ScoreText(score) == Decimal(score as nat)
    ensures AllDigits(ScoreText(score)) && Value(ScoreText(score)) == score as int
  {
    var n := score as nat;
    DecimalLength(n);
    DecimalValue(n);
    ValueZeros(4 - |Decimal(n)|, Decimal(n));
    if n > 0 {
      DigitsBounds(n);
      if n < 10000 {
        assert Digits(n) <= 4 by {
          if Digits(n) > 4 {
            PowMonotone(4, Digits(n) - 1);
          }
        }
      } else {
        assert Digits(n) >= 5 by {
          if Digits(n) < 5 {
            PowMonotone(Digits(n), 4);
          }
        }
      }
    }
  }

  lemma {:induction false} PowMonotone(i: nat, j: nat)
    requires i <= j
    ensures Pow10(i) <= Pow10(j)
  {
    if i < j {
      PowMonotone(i, j - 1);
    }
  }

  /** The code prints the intended text for every score but 0. */
  lemma ScoreTextAgrees(score: u16)
    requires score > 0
    ensures ScoreTextAsWritten(score) == ScoreText(score)
  {
    DecimalLength(score as nat);
  }

  // ---------------------------------------------------------------------
  // The game object
  // ---------------------------------------------------------------------

  /** game::snake: the board, the head, the counters and the 2-bit headings. */
  class Snake {
    const grid: array<u16>
    var headX: int
    var headY: int
    var length: u16
    var score: u16
    var direction: bv2
    var lastDirection: bv2
    /** Every window.write so far, in order. */
    var pixels: seq<PixelWrite>

    ghost predicate Valid()
      reads this
    {
      grid.Length == Cells
    }

    /** The head is strictly inside the walls. */
    predicate InArena()
      reads this
    {
      1 <= headX < Width - 1 && 1 <= headY < Height - 1
    }

    constructor ()
      ensures Valid() && fresh(grid)
      ensures forall i :: 0 <= i < Cells ==> grid[i] == Empty
      ensures headX == Width / 2 && headY == Height / 2 && InArena()
      ensures length == 3 && score == 0
      ensures direction == 0 && lastDirection == 0
      ensures pixels == []
    {
      grid := new u16[Cells](_ => Empty);
      headX, headY := Width / 2, Height / 2;
      length, score := 3, 0;
      direction, lastDirection := 0, 0;
      pixels := [];
    }

    /** write_screen_block(block, color). */
    method WriteScreenBlock(block: u16, color: BlockColor)
      modifies this`pixels
      ensures pixels == old(pixels) + BlockPixels(block as nat, color)
    {
      var modulo := block as int / Width;
      var remainder := block as int % Width;
      ghost var blockPixels := BlockPixels(block as nat, color);
      var y := 0;
      while y < 4
        invariant 0 <= y <= 4
        invariant pixels == old(pixels) + blockPixels[..4 * y]
      {
        var x := 0;
        while x < 4
          invariant 0 <= x <= 4
          invariant pixels == old(pixels) + blockPixels[..4 * y + x]
        {
          assert blockPixels[4 * y + x] == PixelWrite(remainder * 4 + x, modulo * 4 + y, color);
          assert blockPixels[..4 * y + x + 1] == blockPixels[..4 * y + x] + [blockPixels[4 * y + x]];
          pixels := pixels + [PixelWrite(remainder * 4 + x, modulo * 4 + y, color)];
          x := x + 1;
        }
        y := y + 1;
      }
      assert blockPixels[..16] == blockPixels;
    }

    /** spawn_food, with the rand() results it consumes given as `draws`. */
    method SpawnFood(draws: seq<(nat, nat)>) returns (placed: bool, cell: nat, used: nat)
      requires Valid()
      modifies this`pixels, grid
      ensures var f := FirstFree(old(grid[..]), draws, 0);
        && (placed <==> f.Some?)
        && (placed ==> used == f.value + 1 && cell == FoodCell(draws[f.value]))
        && (!placed ==> used == |draws|)
      ensures placed ==> cell < Cells && old(grid[cell]) == Empty
      ensures placed ==> grid[..] == old(grid[..])[cell := Food]
      ensures placed ==> pixels == old(pixels) + BlockPixels(cell, Red)
      ensures !placed ==> grid[..] == old(grid[..]) && pixels == old(pixels)
    {
      ghost var m := grid[..];
      placed, cell, used := false, 0, 0;
      var i := 0;
      while i < |draws|
        invariant 0 <= i <= |draws|
        invariant FirstFree(m, draws, 0) == FirstFree(m, draws, i)
        invariant grid[..] == m && pixels == old(pixels)
      {
        var x := draws[i].0 % (Width - 2) + 1;
        var y := draws[i].1 % (Height - 2) + 1;
        FoodCellInterior(draws[i]);
        if grid[Index(x, y)] == Empty {
          grid[Index(x, y)] := Food;
          WriteScreenBlock(Index(x, y) as u16, Red);
          placed, cell, used := true, Index(x, y), i + 1;
          return;
        }
        i := i + 1;
      }
      used := |draws|;
    }

    /** move(dx, dy): step the head, paint it, overwrite its cell and classify what was there. */
    method Move(dx: int, dy: int) returns (hit: nat)
      requires Valid() && InBox(headX + dx, headY + dy)
      modifies this`headX, this`headY, this`pixels, grid
      ensures headX == old(headX) + dx && headY == old(headY) + dy
      ensures pixels == old(pixels) + BlockPixels(Index(headX, headY), Green)
      ensures grid[..] == old(grid[..])[Index(headX, headY) := Lifetime(length)]
      ensures hit == HitCode(old(grid[..])[Index(headX, headY)])
    {
      headX := headX + dx;
      headY := headY + dy;
      BorderIndex(headX, headY);
      var at := Index(headX, headY);
      WriteScreenBlock(at as u16, Green);
      var mapData := grid[at];
      grid[at] := Lifetime(length);
      if mapData > 0 && mapData != Food {
        return 2;
      }
      if mapData == Food {
        return 1;
      }
      return 0;
    }

    /** move_direction(d): 0 left, 1 down, 2 right, 3 up; any other value does not move. */
    method MoveDirection(d: byte) returns (hit: nat)
      requires Valid()
      requires d < 4 ==> InBox(headX + Delta(d).0, headY + Delta(d).1)
      modifies this`headX, this`headY, this`pixels, grid
      ensures d >= 4 ==> hit == 0 && unchanged(this) && unchanged(grid)
      ensures d < 4 ==>
        && headX == old(headX) + Delta(d).0 && headY == old(headY) + Delta(d).1
        && pixels == old(pixels) + BlockPixels(Index(headX, headY), Green)
        && grid[..] == old(grid[..])[Index(headX, headY) := Lifetime(length)]
        && hit == HitCode(old(grid[..])[Index(headX, headY)])
    {
      hit := 0;
      if d == 0 {
        hit := Move(-1, 0);
      } else if d == 1 {
        hit := Move(0, 1);
      } else if d == 2 {
        hit := Move(1, 0);
      } else if d == 3 {
        hit := Move(0, -1);
      }
    }

    /** screen_snake_update: age every segment and paint the cells that empty. */
    method ScreenSnakeUpdate()
      requires Valid()
      modifies this`pixels, grid
      ensures grid[..] == Aged(old(grid[..]))
      ensures pixels == old(pixels) + TailClears(old(grid[..]), Cells)
    {
      ghost var m := grid[..];
      for i := 0 to Cells
        invariant forall j :: 0 <= j < i ==> grid[j] == AgeCell(m[j])
        invariant forall j :: i <= j < Cells ==> grid[j] == m[j]
        invariant pixels == old(pixels) + TailClears(m, i)
      {
        if grid[i] > 2 {
          if grid[i] == 3 {
            grid[i] := Empty;
            WriteScreenBlock(i as u16, Background);
          } else {
            grid[i] := grid[i] - 1;
          }
        }
      }
      assert grid[..] == Aged(m);
    }

    /** setup_game's first loop: row 0 and row 31, one cell of each per step. */
    method BuildRowWalls()
      requires Valid()
      modifies this`pixels, grid
      ensures grid[..] == RowWalled(old(grid[..]))
      ensures pixels == old(pixels) + BlocksPixels(RowWalls(Width), Gray)
    {
      for i := 0 to Height
        invariant forall j :: 0 <= j < Cells ==> grid[j] == if RowWall(j, i) then Wall else old(grid[j])
        invariant pixels == old(pixels) + BlocksPixels(RowWalls(i), Gray)
      {
        RowWallStep(i);
        BlocksPixelsPair(old(pixels), RowWalls(i), i, Width * (Height - 1) + i, Gray);
        grid[i] := Wall;
        WriteScreenBlock(i as u16, Gray);
        grid[Height * (Width - 1) + i] := Wall;
        WriteScreenBlock((Height * (Width - 1) + i) as u16, Gray);
      }
      RowWalledCells(old(grid[..]), grid[..]);
    }

    /** setup_game's second loop: column 0 and column 31 of rows 1 to 30. */
    method BuildSideWalls()
      requires Valid()
      modifies this`pixels, grid
      ensures grid[..] == SideWalled(old(grid[..]))
      ensures pixels == old(pixels) + BlocksPixels(SideWalls(Height - 1), Gray)
    {
      for i := 1 to Height - 1
        invariant forall j :: 0 <= j < Cells ==> grid[j] == if SideWall(j, i) then Wall else old(grid[j])
        invariant pixels == old(pixels) + BlocksPixels(SideWalls(i), Gray)
      {
        SideWallStep(i);
        BlocksPixelsPair(old(pixels), SideWalls(i), i * Width, Width - 1 + i * Width, Gray);
        grid[i * Width] := Wall;
        WriteScreenBlock((i * Width) as u16, Gray);
        grid[(Width - 1) + i * Width] := Wall;
        WriteScreenBlock(((Width - 1) + i * Width) as u16, Gray);
        assert SideWalls(i + 1) == SideWalls(i) + [i * Width, Width - 1 + i * Width];
      }
      SideWalledCells(old(grid[..]), grid[..]);
    }

    /** The part of setup_game before spawn_food: paint and store the head, then the walls. */
    method PlaceHeadAndWalls()
      requires Valid() && InBox(headX, headY)
      modifies this`pixels, grid
      ensures grid[..] == Walled(old(grid[..])[Index(headX, headY) := Lifetime(length)])
      ensures Walls(grid[..])
      ensures pixels == old(pixels) + BlockPixels(Index(headX, headY), Green) +
        BlocksPixels(RowWalls(Width) + SideWalls(Height - 1), Gray)
    {
      var head := Index(headX, headY);
      ghost var start := grid[..];
      grid[head] := Lifetime(length);
      ghost var m := grid[..];
      assert m == start[head := Lifetime(length)];
      WriteScreenBlock(head as u16, Green);
      ghost var p := pixels;
      BuildRowWalls();
      BuildSideWalls();
      BlocksPixelsThen(p, RowWalls(Width), SideWalls(Height - 1), Gray);
      WallLoopsBuildWalled(m);
      WalledHasWalls(m);
      assert headX == old(headX) && headY == old(headY) && length == old(length);
      assert start == old(grid[..]) && m == old(grid[..])[Index(headX, headY) := Lifetime(length)];
      assert grid[..] == Walled(m);
      assert pixels == p + BlocksPixels(RowWalls(Width) + SideWalls(Height - 1), Gray);
    }

    /**
     * setup_game, with the rand() results spawn_food consumes given as
     * `draws`: paint and store the head, wall in the border, spawn food.
     */
    method SetupGame(draws: seq<(nat, nat)>) returns (placed: bool, cell: nat, used: nat)
      requires Valid() && InBox(headX, headY)
      modifies this`pixels, grid
      ensures var board := Walled(old(grid[..])[Index(headX, headY) := Lifetime(length)]);
        var f := FirstFree(board, draws, 0);
        && Walls(board)
        && (placed <==> f.Some?)
        && (placed ==> used == f.value + 1 && cell == FoodCell(draws[f.value]) && grid[..] == board[cell := Food])
        && (!placed ==> used == |draws| && grid[..] == board)
      ensures pixels == old(pixels) + BlockPixels(Index(headX, headY), Green) +
        BlocksPixels(RowWalls(Width) + SideWalls(Height - 1), Gray) +
        (if placed then BlockPixels(cell, Red) else [])
    {
      PlaceHeadAndWalls();
      placed, cell, used := SpawnFood(draws);
    }

    /**
     * One game tick (the body of run's frame step): remember the heading, move,
     * age the tail, and on food count it, grow and spawn new food. Hit 2 ends
     * the game; the death screen it then shows is not part of this model.
     */
    method Tick(draws: seq<(nat, nat)>) returns (hit: nat, placed: bool, cell: nat, used: nat)
      requires Valid() && InArena() && Walls(grid[..])
      modifies this, grid
      ensures lastDirection == old(direction) && direction == old(direction)
      ensures headX == old(headX) + Delta(old(direction) as byte).0
      ensures headY == old(headY) + Delta(old(direction) as byte).1
      ensures hit == HitCode(old(grid[..])[Index(headX, headY)])
      ensures placed ==> hit == 1 && cell < Cells
      ensures var moved := Aged(old(grid[..])[Index(headX, headY) := Lifetime(old(length))]);
        && (placed ==> grid[..] == moved[cell := Food] && old(grid[..])[Index(headX, headY)] == Food)
        && (!placed ==> grid[..] == moved)
        && (hit == 1 ==> var f := FirstFree(moved, draws, 0);
              (placed <==> f.Some?) && (placed ==> cell == FoodCell(draws[f.value]) && used == f.value + 1))
      ensures pixels == old(pixels) + BlockPixels(Index(headX, headY), Green) +
        TailClears(old(grid[..])[Index(headX, headY) := Lifetime(old(length))], Cells) +
        (if placed then BlockPixels(cell, Red) else [])
      ensures hit == 1 ==> score == Inc(old(score)) && length == Inc(old(length))
      ensures hit != 1 ==> score == old(score) && length == old(length) && !placed && used == 0
      ensures hit != 2 ==> InArena() && Walls(grid[..])
    {
      lastDirection := direction;
      var d := direction as byte;
      hit := MoveDirection(d);
      var at := Index(headX, headY);
      ghost var afterMove := grid[..];
      ScreenSnakeUpdate();
      placed, cell, used := false, 0, 0;
      if hit != 2 {
        BorderIndex(headX, headY);
        WallsUpdate(old(grid[..]), at, Lifetime(old(length)));
        AgedKeepsWallsAndFood(afterMove);
      }
      if hit == 1 {
        score := Inc(score);
        length := Inc(length);
        placed, cell, used := SpawnFood(draws);
        if placed {
          FoodCellInterior(draws[used - 1]);
          WallsUpdate(Aged(afterMove), cell, Food);
        }
      }
    }

    /** change_direction(buttons): bit 0 turns one way, bit 1 the other. */
    method ChangeDirection(buttons: byte)
      modifies this`direction
      ensures direction == Turn(old(direction), lastDirection, buttons)
    {
      if buttons & 0x1 != 0 {
        if direction <= lastDirection {
          direction := direction + 1;
        }
      }
      if buttons & 0x2 != 0 {
        if direction >= lastDirection {
          direction := direction - 1;
        }
      }
    }
  }
}
