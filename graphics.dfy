/**
 * The small part of the hwlib graphics vocabulary the core uses: unsigned
 * integer widths and 8-bit-per-channel colours.
 */
module Graphics {
  newtype u8 = x: int | 0 <= x < 0x100
  newtype u16 = x: int | 0 <= x < 0x1_0000

  datatype Color = Color(red: u8, green: u8, blue: u8)

  const White := Color(0xFF, 0xFF, 0xFF)
  const Black := Color(0, 0, 0)
}
