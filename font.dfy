/**
 * The 16 x 16 colour font (font/hwlib-font-color-16x16.hpp).
 *
 * A glyph is 32 bytes of the font table, two bytes per pixel row, starting at
 * a 4-byte header offset plus 32 bytes per glyph number. An image of a glyph
 * shows its foreground colour where the selected bit is set and its
 * background colour elsewhere. The font table itself is not part of this
 * model: it is a parameter. An image's data pointer is an offset into it.
 */
module Font {
  import opened Wrappers
  import opened Bus
  import opened Graphics

  const GlyphSide := 16
  const GlyphBytes := 32
  const TableHeader := 4

  /** color_image_16x16: a size, the offset of its glyph (None for a null pointer) and two colours. */
  datatype ColorImage = ColorImage(width: nat, height: nat, data: Option<nat>, foreground: Color, background: Color)

  /** color_image_16x16(): no data, white on black. */
  function DefaultImage(): (r: ColorImage)
    ensures r.width == GlyphSide && r.height == GlyphSide
    ensures r.data.None? && r.foreground == White && r.background == Black
  {
    ColorImage(GlyphSide, GlyphSide, None, White, Black)
  }

  /** color_image_16x16(data, f, b). */
  function DataImage(data: nat, f: Color, b: Color): (r: ColorImage)
    ensures r.width == GlyphSide && r.height == GlyphSide
    ensures r.data == Some(data) && r.foreground == f && r.background == b
  {
    ColorImage(GlyphSide, GlyphSide, Some(data), f, b)
  }

  /**
   * Bit n of the bit stream that starts at byte `offset` of the table, most
   * significant bit of each byte first. A negative n reaches back before the
   * offset (Dafny's / and % round towards minus infinity here).
   */
  predicate StreamBit(table: seq<byte>, offset: int, n: int)
    requires 0 <= offset + n / 8 < |table|
  {
    BitSet(table[offset + n / 8], 7 - n % 8)
  }

  /** The table byte get_implementation reads for pos: data + 2 * pos.y + 1 - (16 - pos.x) / 8. */
  function ReadIndex(offset: int, px: int, py: int): int
  {
    offset + 2 * py + 1 - (GlyphSide - px) / 8
  }

  /** The pixel's place in the glyph's bit stream as the code reads it: one bit early. */
  lemma ReadIndexIsStreamBit(offset: int, px: int, py: int)
    requires 0 <= px < GlyphSide && 0 <= py < GlyphSide
    ensures ReadIndex(offset, px, py) == offset + (GlyphSide * py + px - 1) / 8
    ensures (GlyphSide - px) % 8 == 7 - (GlyphSide * py + px - 1) % 8
  {
    var n := GlyphSide * py + px - 1;
    if px == 0 {
      assert n == 8 * (2 * py - 1) + 7;
    } else if px <= 8 {
      assert n == 8 * (2 * py) + (px - 1);
    } else {
      assert n == 8 * (2 * py + 1) + (px - 9);
    }
  }

  /**
   * get_implementation(pos) as written: the foreground colour exactly when
   * bit (16 - pos.x) % 8 of the byte it reads is set, which is bit
   * 16 * pos.y + pos.x - 1 of the glyph's bit stream.
   */
  function GetImplementation(image: ColorImage, table: seq<byte>, px: int, py: int): (r: Color)
    requires image.data.Some?
    requires 0 <= px < GlyphSide && 0 <= py < GlyphSide
    requires 0 <= ReadIndex(image.data.value, px, py) < |table|
    ensures ReadIndex(image.data.value, px, py) == image.data.value + (GlyphSide * py + px - 1) / 8
    ensures r == if StreamBit(table, image.data.value, GlyphSide * py + px - 1) then image.foreground else image.background
  {
    ReadIndexIsStreamBit(image.data.value, px, py);
    var x := GlyphSide - px;
    if table[ReadIndex(image.data.value, px, py)] & (1 << (x % 8)) == 0 then image.background
    else image.foreground
  }

  /**
   * Column 0 reads bit 0 of the byte before its row, so pixel (0, 0) reads
   * the byte before the glyph.
   */
  lemma GetImplementationReadsOutside(offset: int, py: int)
    requires 0 <= py < GlyphSide
    ensures ReadIndex(offset, 0, py) == offset + 2 * py - 1
    ensures ReadIndex(offset, 0, 0) == offset - 1
  {
  }

  /**
   * As written, pixel (x, y) shows stream bit 16 y + x - 1, which ranges over
   * -1..254: bit 255, bit 0 of the glyph's last byte, is never shown. Every
   * other row's bit 0 appears one row down, at x = 0.
   */
  lemma GetImplementationShownBits(offset: int, px: int, py: int)
    requires 0 <= px < GlyphSide && 0 <= py < GlyphSide
    ensures -1 <= GlyphSide * py + px - 1 < GlyphSide * GlyphSide - 1
    ensures py + 1 < GlyphSide ==> ReadIndex(offset, 0, py + 1) == offset + 2 * py + 1 && (GlyphSide - 0) % 8 == 0
  {
  }

  /** The byte the intended reading takes pos from: x = 15 - pos.x instead of 16 - pos.x. */
  function IntendedReadIndex(offset: int, px: int, py: int): int
  {
    offset + 2 * py + 1 - (GlyphSide - 1 - px) / 8
  }

  lemma IntendedReadIndexIsStreamBit(offset: int, px: int, py: int)
    requires 0 <= px < GlyphSide && 0 <= py < GlyphSide
    ensures IntendedReadIndex(offset, px, py) == offset + (GlyphSide * py + px) / 8
    ensures (GlyphSide - 1 - px) % 8 == 7 - (GlyphSide * py + px) % 8
  {
    var n := GlyphSide * py + px;
    if px < 8 {
      assert n == 8 * (2 * py) + px;
    } else {
      assert n == 8 * (2 * py + 1) + (px - 8);
    }
  }

  /** get_implementation as intended: pixel (x, y) shows bit 16 * y + x of the glyph. */
  function GetIntended(image: ColorImage, table: seq<byte>, px: int, py: int): (r: Color)
    requires image.data.Some?
    requires 0 <= px < GlyphSide && 0 <= py < GlyphSide
    requires image.data.value + GlyphBytes <= |table|
    ensures image.data.value <= IntendedReadIndex(image.data.value, px, py) < image.data.value + GlyphBytes
    ensures r == if StreamBit(table, image.data.value, GlyphSide * py + px) then image.foreground else image.background
  {
    IntendedReadIndexIsStreamBit(image.data.value, px, py);
    var x := GlyphSide - 1 - px;
    if table[IntendedReadIndex(image.data.value, px, py)] & (1 << (x % 8)) == 0 then image.background
    else image.foreground
  }

  /**
   * Under the intended reading pixel (x, y) shows bit n = 16 y + x of the
   * glyph, which lies inside it and gives back (x, y) as (n % 16, n / 16):
   * each of the 256 bits is shown by exactly one pixel.
   */
  lemma IntendedBitsArePixels(px: int, py: int)
    requires 0 <= px < GlyphSide && 0 <= py < GlyphSide
    ensures 0 <= GlyphSide * py + px < GlyphSide * GlyphSide
    ensures (GlyphSide * py + px) % GlyphSide == px && (GlyphSide * py + px) / GlyphSide == py
  {
  }

  /** The glyph number of character code i: 0 for control codes and DEL, i - 32 otherwise. */
  function GlyphNumber(i: nat): (r: nat)
    ensures (i < 32 || i == 127) ==> r == 0
    ensures !(i < 32 || i == 127) ==> r + 32 == i
  {
    if i < 32 || i == 127 then 0 else i - 32
  }

  /** The 95 printable codes get the 95 glyphs 0..94 in order, one each. */
  lemma GlyphNumberPrintable(i: nat, j: nat)
    requires i < 128 && j < 128
    ensures GlyphNumber(i) < 95
    ensures 32 <= i < 127 && 32 <= j < 127 && i != j ==> GlyphNumber(i) != GlyphNumber(j)
  {
  }

  /** The offset of glyph number g in the font table: font_16x16_data + 4 + g * 32. */
  function GlyphOffset(g: nat): nat
  {
    TableHeader + g * GlyphBytes
  }

  /** The glyphs of two different glyph numbers occupy disjoint 32-byte ranges. */
  lemma GlyphOffsetsDisjoint(g: nat, h: nat)
    requires g < h
    ensures GlyphOffset(g) + GlyphBytes <= GlyphOffset(h)
  {
  }

  /** The image the font constructor stores for character code i. */
  function GlyphImage(i: nat, f: Color, b: Color): ColorImage
  {
    DataImage(GlyphOffset(GlyphNumber(i)), f, b)
  }

  /**
   * The image for any 7-bit code is a 16 x 16 view, in the given colours, of
   * one of the 95 glyphs that follow the table's header.
   */
  lemma GlyphImageShape(i: nat, f: Color, b: Color)
    requires i < 128
    ensures GlyphImage(i, f, b).width == GlyphSide && GlyphImage(i, f, b).height == GlyphSide
    ensures GlyphImage(i, f, b).foreground == f && GlyphImage(i, f, b).background == b
    ensures GlyphImage(i, f, b).data.Some?
    ensures TableHeader <= GlyphImage(i, f, b).data.value
    ensures (GlyphImage(i, f, b).data.value - TableHeader) % GlyphBytes == 0
    ensures GlyphImage(i, f, b).data.value + GlyphBytes <= TableHeader + 95 * GlyphBytes
  {
    GlyphNumberPrintable(i, i);
  }

  /** c & 0x7F: the slot operator[] uses for a char. */
  function CharIndex(c: byte): (r: nat)
    ensures r < 128 && r == c as int % 128
  {
    (c & 0x7F) as nat
  }

  /** font_color_16x16: 128 images, one per 7-bit character code. */
  class FontColor16x16 {
    const images: array<ColorImage>
    ghost const foreground: Color
    ghost const background: Color

    ghost predicate Valid()
      reads this, images
    {
      images.Length == 128 &&
      forall i :: 0 <= i < 128 ==> images[i] == GlyphImage(i, foreground, background)
    }

    /** font_color_16x16(f, b): fill every slot with the image of its glyph. */
    constructor (f: Color, b: Color)
      ensures Valid() && fresh(images)
      ensures foreground == f && background == b
    {
      var slots := new ColorImage[128](_ => DefaultImage());
      foreground, background := f, b;
      images := slots;
      for i := 0 to 128
        invariant forall j :: 0 <= j < i ==> slots[j] == GlyphImage(j, f, b)
      {
        var c := if i < 32 || i == 127 then 0 else i - 32;
        slots[i] := DataImage(TableHeader + c * GlyphBytes, f, b);
      }
    }

    /** operator[](c): the image in slot c & 0x7F. */
    method Get(c: byte) returns (r: ColorImage)
      requires Valid()
      ensures r == images[CharIndex(c)]
      ensures r == GlyphImage(c as int % 128, foreground, background)
    {
      r := images[CharIndex(c)];
    }
  }
}
