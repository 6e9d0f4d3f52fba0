/**
 * Glyph tables of the PCD8544 driver: two 5x8 px fonts for the characters
 * 0x20..0x7f and a 9x16 px font for the characters 0x30..0x3b (the digits,
 * a minus sign at 0x3a and a point at 0x3b), indexed like the source's
 * two-dimensional tables: glyph g of a table is the character at the
 * table's first character plus g.
 */
module LcdFonts {
  /** Regular characters, five columns per glyph. */
  function Font0(g: nat): (r: seq<bv8>)
    requires g < 96
    ensures |r| == 5
  {
    match g
    case 0 => [0x00, 0x00, 0x00, 0x00, 0x00]  // 0x20
    case 1 => [0x00, 0x00, 0x5f, 0x00, 0x00]  // 0x21 !
    case 2 => [0x00, 0x07, 0x00, 0x07, 0x00]  // 0x22 "
    case 3 => [0x14, 0x7f, 0x14, 0x7f, 0x14]  // 0x23 #
    case 4 => [0x24, 0x2a, 0x7f, 0x2a, 0x12]  // 0x24 $
    case 5 => [0x23, 0x13, 0x08, 0x64, 0x62]  // 0x25 %
    case 6 => [0x36, 0x49, 0x55, 0x22, 0x50]  // 0x26 &
    case 7 => [0x00, 0x05, 0x03, 0x00, 0x00]  // 0x27 '
    case 8 => [0x00, 0x1c, 0x22, 0x41, 0x00]  // 0x28 (
    case 9 => [0x00, 0x41, 0x22, 0x1c, 0x00]  // 0x29 )
    case 10 => [0x14, 0x08, 0x3e, 0x08, 0x14]  // 0x2a *
    case 11 => [0x08, 0x08, 0x3e, 0x08, 0x08]  // 0x2b +
    case 12 => [0x00, 0x50, 0x30, 0x00, 0x00]  // 0x2c ,
    case 13 => [0x08, 0x08, 0x08, 0x08, 0x08]  // 0x2d -
    case 14 => [0x00, 0x60, 0x60, 0x00, 0x00]  // 0x2e .
    case 15 => [0x20, 0x10, 0x08, 0x04, 0x02]  // 0x2f /
    case 16 => [0x3e, 0x51, 0x49, 0x45, 0x3e]  // 0x30 0
    case 17 => [0x00, 0x42, 0x7f, 0x40, 0x00]  // 0x31 1
    case 18 => [0x42, 0x61, 0x51, 0x49, 0x46]  // 0x32 2
    case 19 => [0x21, 0x41, 0x45, 0x4b, 0x31]  // 0x33 3
    case 20 => [0x18, 0x14, 0x12, 0x7f, 0x10]  // 0x34 4
    case 21 => [0x27, 0x45, 0x45, 0x45, 0x39]  // 0x35 5
    case 22 => [0x3c, 0x4a, 0x49, 0x49, 0x30]  // 0x36 6
    case 23 => [0x01, 0x71, 0x09, 0x05, 0x03]  // 0x37 7
    case 24 => [0x36, 0x49, 0x49, 0x49, 0x36]  // 0x38 8
    case 25 => [0x06, 0x49, 0x49, 0x29, 0x1e]  // 0x39 9
    case 26 => [0x00, 0x36, 0x36, 0x00, 0x00]  // 0x3a :
    case 27 => [0x00, 0x56, 0x36, 0x00, 0x00]  // 0x3b ;
    case 28 => [0x08, 0x14, 0x22, 0x41, 0x00]  // 0x3c <
    case 29 => [0x14, 0x14, 0x14, 0x14, 0x14]  // 0x3d =
    case 30 => [0x00, 0x41, 0x22, 0x14, 0x08]  // 0x3e >
    case 31 => [0x02, 0x01, 0x51, 0x09, 0x06]  // 0x3f ?
    case 32 => [0x32, 0x49, 0x79, 0x41, 0x3e]  // 0x40 @
    case 33 => [0x7e, 0x11, 0x11, 0x11, 0x7e]  // 0x41 A
    case 34 => [0x7f, 0x49, 0x49, 0x49, 0x36]  // 0x42 B
    case 35 => [0x3e, 0x41, 0x41, 0x41, 0x22]  // 0x43 C
    case 36 => [0x7f, 0x41, 0x41, 0x22, 0x1c]  // 0x44 D
    case 37 => [0x7f, 0x49, 0x49, 0x49, 0x41]  // 0x45 E
    case 38 => [0x7f, 0x09, 0x09, 0x09, 0x01]  // 0x46 F
    case 39 => [0x3e, 0x41, 0x49, 0x49, 0x7a]  // 0x47 G
    case 40 => [0x7f, 0x08, 0x08, 0x08, 0x7f]  // 0x48 H
    case 41 => [0x00, 0x41, 0x7f, 0x41, 0x00]  // 0x49 I
    case 42 => [0x20, 0x40, 0x41, 0x3f, 0x01]  // 0x4a J
    case 43 => [0x7f, 0x08, 0x14, 0x22, 0x41]  // 0x4b K
    case 44 => [0x7f, 0x40, 0x40, 0x40, 0x40]  // 0x4c L
    case 45 => [0x7f, 0x02, 0x0c, 0x02, 0x7f]  // 0x4d M
    case 46 => [0x7f, 0x04, 0x08, 0x10, 0x7f]  // 0x4e N
    case 47 => [0x3e, 0x41, 0x41, 0x41, 0x3e]  // 0x4f O
    case 48 => [0x7f, 0x09, 0x09, 0x09, 0x06]  // 0x50 P
    case 49 => [0x3e, 0x41, 0x51, 0x21, 0x5e]  // 0x51 Q
    case 50 => [0x7f, 0x09, 0x19, 0x29, 0x46]  // 0x52 R
    case 51 => [0x46, 0x49, 0x49, 0x49, 0x31]  // 0x53 S
    case 52 => [0x01, 0x01, 0x7f, 0x01, 0x01]  // 0x54 T
    case 53 => [0x3f, 0x40, 0x40, 0x40, 0x3f]  // 0x55 U
    case 54 => [0x1f, 0x20, 0x40, 0x20, 0x1f]  // 0x56 V
    case 55 => [0x3f, 0x40, 0x38, 0x40, 0x3f]  // 0x57 W
    case 56 => [0x63, 0x14, 0x08, 0x14, 0x63]  // 0x58 X
    case 57 => [0x07, 0x08, 0x70, 0x08, 0x07]  // 0x59 Y
    case 58 => [0x61, 0x51, 0x49, 0x45, 0x43]  // 0x5a Z
    case 59 => [0x00, 0x7f, 0x41, 0x41, 0x00]  // 0x5b [
    case 60 => [0x02, 0x04, 0x08, 0x10, 0x20]  // 0x5c Backslash
    case 61 => [0x00, 0x41, 0x41, 0x7f, 0x00]  // 0x5d ]
    case 62 => [0x04, 0x02, 0x01, 0x02, 0x04]  // 0x5e ^
    case 63 => [0x40, 0x40, 0x40, 0x40, 0x40]  // 0x5f _
    case 64 => [0x00, 0x01, 0x02, 0x04, 0x00]  // 0x60 `
    case 65 => [0x20, 0x54, 0x54, 0x54, 0x78]  // 0x61 a
    case 66 => [0x7f, 0x48, 0x44, 0x44, 0x38]  // 0x62 b
    case 67 => [0x38, 0x44, 0x44, 0x44, 0x20]  // 0x63 c
    case 68 => [0x38, 0x44, 0x44, 0x48, 0x7f]  // 0x64 d
    case 69 => [0x38, 0x54, 0x54, 0x54, 0x18]  // 0x65 e
    case 70 => [0x08, 0x7e, 0x09, 0x01, 0x02]  // 0x66 f
    case 71 => [0x0c, 0x52, 0x52, 0x52, 0x3e]  // 0x67 g
    case 72 => [0x7f, 0x08, 0x04, 0x04, 0x78]  // 0x68 h
    case 73 => [0x00, 0x44, 0x7d, 0x40, 0x00]  // 0x69 i
    case 74 => [0x20, 0x40, 0x44, 0x3d, 0x00]  // 0x6a j
    case 75 => [0x7f, 0x10, 0x28, 0x44, 0x00]  // 0x6b k
    case 76 => [0x00, 0x41, 0x7f, 0x40, 0x00]  // 0x6c l
    case 77 => [0x7c, 0x04, 0x18, 0x04, 0x78]  // 0x6d m
    case 78 => [0x7c, 0x08, 0x04, 0x04, 0x78]  // 0x6e n
    case 79 => [0x38, 0x44, 0x44, 0x44, 0x38]  // 0x6f o
    case 80 => [0x7c, 0x14, 0x14, 0x14, 0x08]  // 0x70 p
    case 81 => [0x08, 0x14, 0x14, 0x18, 0x7c]  // 0x71 q
    case 82 => [0x7c, 0x08, 0x04, 0x04, 0x08]  // 0x72 r
    case 83 => [0x48, 0x54, 0x54, 0x54, 0x20]  // 0x73 s
    case 84 => [0x04, 0x3f, 0x44, 0x40, 0x20]  // 0x74 t
    case 85 => [0x3c, 0x40, 0x40, 0x20, 0x7c]  // 0x75 u
    case 86 => [0x1c, 0x20, 0x40, 0x20, 0x1c]  // 0x76 v
    case 87 => [0x3c, 0x40, 0x30, 0x40, 0x3c]  // 0x77 w
    case 88 => [0x44, 0x28, 0x10, 0x28, 0x44]  // 0x78 x
    case 89 => [0x0c, 0x50, 0x50, 0x50, 0x3c]  // 0x79 y
    case 90 => [0x44, 0x64, 0x54, 0x4c, 0x44]  // 0x7a z
    case 91 => [0x00, 0x08, 0x36, 0x41, 0x00]  // 0x7b {
    case 92 => [0x00, 0x00, 0x7f, 0x00, 0x00]  // 0x7c |
    case 93 => [0x00, 0x41, 0x36, 0x08, 0x00]  // 0x7d }
    case 94 => [0x10, 0x08, 0x08, 0x10, 0x08]  // 0x7e ~
    case _ => [0x00, 0x06, 0x09, 0x09, 0x06]  // 0x7f DEL
  }

  /** Small characters, five columns per glyph. */
  function Font1(g: nat): (r: seq<bv8>)
    requires g < 96
    ensures |r| == 5
  {
    match g
    case 0 => [0x00, 0x00, 0x00, 0x00, 0x00]  // 0x20
    case 1 => [0x00, 0x00, 0x5c, 0x00, 0x00]  // 0x21 !
    case 2 => [0x00, 0x0c, 0x00, 0x0c, 0x00]  // 0x22 "
    case 3 => [0x28, 0x7c, 0x28, 0x7c, 0x28]  // 0x23 #
    case 4 => [0x48, 0x54, 0x7c, 0x54, 0x24]  // 0x24 $
    case 5 => [0x4c, 0x24, 0x10, 0x48, 0x64]  // 0x25 %
    case 6 => [0x28, 0x54, 0x58, 0x20, 0x50]  // 0x26 &
    case 7 => [0x00, 0x00, 0x0c, 0x00, 0x00]  // 0x27 '
    case 8 => [0x00, 0x38, 0x44, 0x00, 0x00]  // 0x28 (
    case 9 => [0x00, 0x00, 0x44, 0x38, 0x00]  // 0x29 )
    case 10 => [0x10, 0x54, 0x38, 0x54, 0x10]  // 0x2a *
    case 11 => [0x10, 0x10, 0x7c, 0x10, 0x10]  // 0x2b +
    case 12 => [0x00, 0x20, 0x60, 0x00, 0x00]  // 0x2c ,
    case 13 => [0x10, 0x10, 0x10, 0x10, 0x10]  // 0x2d -
    case 14 => [0x00, 0x60, 0x60, 0x00, 0x00]  // 0x2e .
    case 15 => [0x40, 0x20, 0x10, 0x08, 0x04]  // 0x2f /
    case 16 => [0x38, 0x64, 0x54, 0x4c, 0x38]  // 0x30 0
    case 17 => [0x00, 0x48, 0x7c, 0x40, 0x00]  // 0x31 1
    case 18 => [0x48, 0x64, 0x54, 0x54, 0x48]  // 0x32 2
    case 19 => [0x44, 0x54, 0x54, 0x54, 0x28]  // 0x33 3
    case 20 => [0x30, 0x28, 0x24, 0x7c, 0x20]  // 0x34 4
    case 21 => [0x5c, 0x54, 0x54, 0x54, 0x24]  // 0x35 5
    case 22 => [0x38, 0x54, 0x54, 0x54, 0x20]  // 0x36 6
    case 23 => [0x04, 0x04, 0x64, 0x14, 0x0c]  // 0x37 7
    case 24 => [0x28, 0x54, 0x54, 0x54, 0x28]  // 0x38 8
    case 25 => [0x08, 0x54, 0x54, 0x54, 0x38]  // 0x39 9
    case 26 => [0x00, 0x6c, 0x6c, 0x00, 0x00]  // 0x3a :
    case 27 => [0x00, 0x2c, 0x6c, 0x00, 0x00]  // 0x3b ;
    case 28 => [0x00, 0x10, 0x28, 0x44, 0x00]  // 0x3c <
    case 29 => [0x28, 0x28, 0x28, 0x28, 0x28]  // 0x3d =
    case 30 => [0x00, 0x44, 0x28, 0x10, 0x00]  // 0x3e >
    case 31 => [0x08, 0x04, 0x44, 0x14, 0x08]  // 0x3f ?
    case 32 => [0x38, 0x44, 0x74, 0x54, 0x58]  // 0x40 @
    case 33 => [0x78, 0x14, 0x14, 0x14, 0x78]  // 0x41 A
    case 34 => [0x7c, 0x54, 0x54, 0x54, 0x28]  // 0x42 B
    case 35 => [0x38, 0x44, 0x44, 0x44, 0x28]  // 0x43 C
    case 36 => [0x7c, 0x44, 0x44, 0x44, 0x38]  // 0x44 D
    case 37 => [0x7c, 0x54, 0x54, 0x54, 0x44]  // 0x45 E
    case 38 => [0x7c, 0x14, 0x14, 0x14, 0x04]  // 0x46 F
    case 39 => [0x38, 0x44, 0x44, 0x54, 0x70]  // 0x47 G
    case 40 => [0x7c, 0x10, 0x10, 0x10, 0x7c]  // 0x48 H
    case 41 => [0x00, 0x44, 0x7c, 0x44, 0x00]  // 0x49 I
    case 42 => [0x20, 0x40, 0x40, 0x40, 0x7c]  // 0x4a J
    case 43 => [0x7c, 0x10, 0x10, 0x28, 0x44]  // 0x4b K
    case 44 => [0x7c, 0x40, 0x40, 0x40, 0x40]  // 0x4c L
    case 45 => [0x7c, 0x08, 0x10, 0x08, 0x7c]  // 0x4d M
    case 46 => [0x7c, 0x08, 0x10, 0x20, 0x7c]  // 0x4e N
    case 47 => [0x38, 0x44, 0x44, 0x44, 0x38]  // 0x4f O
    case 48 => [0x7c, 0x14, 0x14, 0x14, 0x08]  // 0x50 P
    case 49 => [0x38, 0x44, 0x54, 0x24, 0x58]  // 0x51 Q
    case 50 => [0x7c, 0x14, 0x14, 0x34, 0x48]  // 0x52 R
    case 51 => [0x48, 0x54, 0x54, 0x54, 0x24]  // 0x53 S
    case 52 => [0x04, 0x04, 0x7c, 0x04, 0x04]  // 0x54 T
    case 53 => [0x3c, 0x40, 0x40, 0x40, 0x3c]  // 0x55 U
    case 54 => [0x1c, 0x20, 0x40, 0x20, 0x1c]  // 0x56 V
    case 55 => [0x7c, 0x20, 0x10, 0x20, 0x7c]  // 0x57 W
    case 56 => [0x44, 0x28, 0x10, 0x28, 0x44]  // 0x58 X
    case 57 => [0x04, 0x08, 0x70, 0x08, 0x04]  // 0x59 Y
    case 58 => [0x44, 0x64, 0x54, 0x4c, 0x44]  // 0x5a Z
    case 59 => [0x00, 0x7c, 0x44, 0x44, 0x00]  // 0x5b [
    case 60 => [0x04, 0x08, 0x10, 0x20, 0x40]  // 0x5c Backslash
    case 61 => [0x00, 0x44, 0x44, 0x7c, 0x00]  // 0x5d ]
    case 62 => [0x10, 0x08, 0x04, 0x08, 0x10]  // 0x5e ^
    case 63 => [0x40, 0x40, 0x40, 0x40, 0x40]  // 0x5f _
    case 64 => [0x00, 0x0c, 0x10, 0x00, 0x00]  // 0x60 `
    case 65 => [0x30, 0x48, 0x48, 0x48, 0x70]  // 0x61 a
    case 66 => [0x7c, 0x48, 0x48, 0x48, 0x30]  // 0x62 b
    case 67 => [0x30, 0x48, 0x48, 0x48, 0x48]  // 0x63 c
    case 68 => [0x30, 0x48, 0x48, 0x48, 0x7c]  // 0x64 d
    case 69 => [0x30, 0x48, 0x58, 0x58, 0x50]  // 0x65 e
    case 70 => [0x20, 0x78, 0x24, 0x08, 0x00]  // 0x66 f
    case 71 => [0x10, 0xa8, 0xa8, 0xa8, 0x70]  // 0x67 g
    case 72 => [0x7c, 0x08, 0x08, 0x08, 0x70]  // 0x68 h
    case 73 => [0x00, 0x50, 0x74, 0x40, 0x00]  // 0x69 i
    case 74 => [0x40, 0x80, 0x90, 0x74, 0x00]  // 0x6a j
    case 75 => [0x7c, 0x10, 0x30, 0x48, 0x00]  // 0x6b k
    case 76 => [0x00, 0x44, 0x7c, 0x40, 0x00]  // 0x6c l
    case 77 => [0x78, 0x08, 0x70, 0x08, 0x70]  // 0x6d m
    case 78 => [0x78, 0x08, 0x08, 0x08, 0x70]  // 0x6e n
    case 79 => [0x30, 0x48, 0x48, 0x48, 0x30]  // 0x6f o
    case 80 => [0xf8, 0x48, 0x48, 0x48, 0x30]  // 0x70 p
    case 81 => [0x30, 0x48, 0x48, 0x48, 0xf8]  // 0x71 q
    case 82 => [0x78, 0x10, 0x08, 0x08, 0x08]  // 0x72 r
    case 83 => [0x50, 0x58, 0x58, 0x58, 0x28]  // 0x73 s
    case 84 => [0x08, 0x3c, 0x48, 0x40, 0x20]  // 0x74 t
    case 85 => [0x38, 0x40, 0x40, 0x40, 0x78]  // 0x75 u
    case 86 => [0x18, 0x20, 0x40, 0x20, 0x18]  // 0x76 v
    case 87 => [0x38, 0x40, 0x38, 0x40, 0x38]  // 0x77 w
    case 88 => [0x50, 0x48, 0x30, 0x48, 0x28]  // 0x78 x
    case 89 => [0x18, 0xa0, 0xa0, 0xa0, 0x78]  // 0x79 y
    case 90 => [0x48, 0x68, 0x68, 0x58, 0x48]  // 0x7a z
    case 91 => [0x00, 0x10, 0x38, 0x44, 0x44]  // 0x7b {
    case 92 => [0x00, 0x00, 0x7c, 0x00, 0x00]  // 0x7c |
    case 93 => [0x44, 0x44, 0x38, 0x10, 0x00]  // 0x7d }
    case 94 => [0x10, 0x08, 0x10, 0x20, 0x10]  // 0x7e ~
    case _ => [0x00, 0x70, 0x50, 0x70, 0x00]  // 0x7f DEL
  }

  /** Big numbers: nine columns of the upper bank followed by nine of the lower bank. */
  function FontBig(g: nat): (r: seq<bv8>)
    requires g < 12
    ensures |r| == 18
  {
    match g
    case 0 => [0xf0, 0xf8, 0x0c, 0x04, 0x04, 0x04, 0x0c, 0xf8, 0xf0,  // 0x30 0  upper bank
               0x0f, 0x1f, 0x30, 0x20, 0x20, 0x20, 0x30, 0x1f, 0x0f]  // lower bank
    case 1 => [0x00, 0x00, 0x10, 0x10, 0xfc, 0xfc, 0x00, 0x00, 0x00,  // 0x31 1  upper bank
               0x00, 0x00, 0x20, 0x20, 0x3f, 0x3f, 0x20, 0x20, 0x00]  // lower bank
    case 2 => [0x18, 0x1c, 0x04, 0x04, 0x04, 0x04, 0x8c, 0xf8, 0x70,  // 0x32 2  upper bank
               0x20, 0x30, 0x38, 0x2c, 0x26, 0x23, 0x21, 0x20, 0x20]  // lower bank
    case 3 => [0x18, 0x1c, 0x04, 0x84, 0x84, 0x84, 0xcc, 0x78, 0x30,  // 0x33 3  upper bank
               0x18, 0x38, 0x20, 0x20, 0x20, 0x20, 0x31, 0x1f, 0x0e]  // lower bank
    case 4 => [0x00, 0x80, 0x40, 0x20, 0x10, 0x08, 0xfc, 0xfc, 0x00,  // 0x34 4  upper bank
               0x03, 0x02, 0x02, 0x02, 0x02, 0x02, 0x3f, 0x3f, 0x02]  // lower bank
    case 5 => [0x00, 0x7c, 0x7c, 0x44, 0x44, 0x44, 0xc4, 0x84, 0x04,  // 0x35 5  upper bank
               0x18, 0x38, 0x20, 0x20, 0x20, 0x20, 0x30, 0x1f, 0x0f]  // lower bank
    case 6 => [0xe0, 0xf0, 0x58, 0x4c, 0x44, 0x44, 0xc4, 0x84, 0x00,  // 0x36 6  upper bank
               0x0f, 0x1f, 0x30, 0x20, 0x20, 0x20, 0x30, 0x1f, 0x0f]  // lower bank
    case 7 => [0x04, 0x04, 0x04, 0x04, 0x04, 0xc4, 0xf4, 0x3c, 0x0c,  // 0x37 7  upper bank
               0x00, 0x00, 0x30, 0x3c, 0x0f, 0x03, 0x00, 0x00, 0x00]  // lower bank
    case 8 => [0x30, 0x78, 0xcc, 0x84, 0x84, 0x84, 0xcc, 0x78, 0x30,  // 0x38 8  upper bank
               0x0e, 0x1f, 0x31, 0x20, 0x20, 0x20, 0x31, 0x1f, 0x0e]  // lower bank
    case 9 => [0xf0, 0xf8, 0x0c, 0x04, 0x04, 0x04, 0x0c, 0xf8, 0xf0,  // 0x39 9  upper bank
               0x00, 0x21, 0x23, 0x22, 0x22, 0x32, 0x1a, 0x0f, 0x07]  // lower bank
    case 10 => [0x00, 0x80, 0x80, 0x80, 0x80, 0x80, 0x80, 0x80, 0x00,  // 0x3a -  upper bank
                0x00, 0x01, 0x01, 0x01, 0x01, 0x01, 0x01, 0x01, 0x00]  // lower bank
    case _ => [0x00, 0x00, 0x00, 0x00, 0x00, 0x00, 0x00, 0x00, 0x00,  // 0x3b .  upper bank
               0x00, 0x00, 0x00, 0x38, 0x38, 0x38, 0x00, 0x00, 0x00]  // lower bank
  }

  /** The three tables as the driver reads them, indexed by glyph and then by column. */
  datatype FontSet = FontSet(Regular: seq<seq<bv8>>, Small: seq<seq<bv8>>, Big: seq<seq<bv8>>)

  /** The shape of the tables: 96 glyphs of 5 columns in the two small fonts, 12 glyphs of 18 bytes in the big one. */
  predicate WellFormed(f: FontSet) {
    |f.Regular| == 96 && |f.Small| == 96 && |f.Big| == 12
    && (forall g :: 0 <= g < 96 ==> |f.Regular[g]| == 5 && |f.Small[g]| == 5)
    && (forall g :: 0 <= g < 12 ==> |f.Big[g]| == 18)
  }

  /** The tables of this module. */
  function Standard(): (f: FontSet)
    ensures WellFormed(f)
    ensures forall g :: 0 <= g < 96 ==> f.Regular[g] == Font0(g) && f.Small[g] == Font1(g)
    ensures forall g :: 0 <= g < 12 ==> f.Big[g] == FontBig(g)
  {
    FontSet(seq(96, g requires 0 <= g < 96 => Font0(g)), seq(96, g requires 0 <= g < 96 => Font1(g)), seq(12, g requires 0 <= g < 12 => FontBig(g)))
  }
}
