/** The 256-entry table of crc64, entry by entry, and the polynomial it is made from. */
module CrcTable {
  /** An unsigned 64-bit word as its eight bytes, least significant first. */
  datatype Word = Word(b0: bv8, b1: bv8, b2: bv8, b3: bv8, b4: bv8, b5: bv8, b6: bv8, b7: bv8)

  function X8(a: bv8, b: bv8): bv8 {
    a ^ b
  }

  function Xor(x: Word, y: Word): Word {
    Word(X8(x.b0, y.b0), X8(x.b1, y.b1), X8(x.b2, y.b2), X8(x.b3, y.b3), X8(x.b4, y.b4), X8(x.b5, y.b5),
      X8(x.b6, y.b6), X8(x.b7, y.b7))
  }

  const ZERO := Word(0, 0, 0, 0, 0, 0, 0, 0)

  function Low(b: bv8): Word {
    Word(b, 0, 0, 0, 0, 0, 0, 0)
  }

  // ---- the table

  function Row0(l: bv8): Word {
    if l == 0 then Word(0x00, 0x00, 0x00, 0x00, 0x00, 0x00, 0x00, 0x00)
    else if l == 1 then Word(0x79, 0x89, 0x35, 0x30, 0xc8, 0x70, 0xd8, 0x7a)
    else if l == 2 then Word(0xf2, 0x12, 0x6b, 0x60, 0x90, 0xe1, 0xb0, 0xf5)
    else if l == 3 then Word(0x8b, 0x9b, 0x5e, 0x50, 0x58, 0x91, 0x68, 0x8f)
    else if l == 4 then Word(0x8f, 0xb6, 0x41, 0x98, 0x73, 0xe5, 0x38, 0xc0)
    else if l == 5 then Word(0xf6, 0x3f, 0x74, 0xa8, 0xbb, 0x95, 0xe0, 0xba)
    else if l == 6 then Word(0x7d, 0xa4, 0x2a, 0xf8, 0xe3, 0x04, 0x88, 0x35)
    else if l == 7 then Word(0x04, 0x2d, 0x1f, 0xc8, 0x2b, 0x74, 0x50, 0x4f)
    else if l == 8 then Word(0x75, 0xfe, 0x14, 0x68, 0xb4, 0xec, 0x28, 0xab)
    else if l == 9 then Word(0x0c, 0x77, 0x21, 0x58, 0x7c, 0x9c, 0xf0, 0xd1)
    else if l == 10 then Word(0x87, 0xec, 0x7f, 0x08, 0x24, 0x0d, 0x98, 0x5e)
    else if l == 11 then Word(0xfe, 0x65, 0x4a, 0x38, 0xec, 0x7d, 0x40, 0x24)
    else if l == 12 then Word(0xfa, 0x48, 0x55, 0xf0, 0xc7, 0x09, 0x10, 0x6b)
    else if l == 13 then Word(0x83, 0xc1, 0x60, 0xc0, 0x0f, 0x79, 0xc8, 0x11)
    else if l == 14 then Word(0x08, 0x5a, 0x3e, 0x90, 0x57, 0xe8, 0xa0, 0x9e)
    else Word(0x71, 0xd3, 0x0b, 0xa0, 0x9f, 0x98, 0x78, 0xe4)
  }

  function Row1(l: bv8): Word {
    if l == 0 then Word(0x81, 0x6f, 0xbe, 0x88, 0x3b, 0xff, 0x08, 0x7d)
    else if l == 1 then Word(0xf8, 0xe6, 0x8b, 0xb8, 0xf3, 0x8f, 0xd0, 0x07)
    else if l == 2 then Word(0x73, 0x7d, 0xd5, 0xe8, 0xab, 0x1e, 0xb8, 0x88)
    else if l == 3 then Word(0x0a, 0xf4, 0xe0, 0xd8, 0x63, 0x6e, 0x60, 0xf2)
    else if l == 4 then Word(0x0e, 0xd9, 0xff, 0x10, 0x48, 0x1a, 0x30, 0xbd)
    else if l == 5 then Word(0x77, 0x50, 0xca, 0x20, 0x80, 0x6a, 0xe8, 0xc7)
    else if l == 6 then Word(0xfc, 0xcb, 0x94, 0x70, 0xd8, 0xfb, 0x80, 0x48)
    else if l == 7 then Word(0x85, 0x42, 0xa1, 0x40, 0x10, 0x8b, 0x58, 0x32)
    else if l == 8 then Word(0xf4, 0x91, 0xaa, 0xe0, 0x8f, 0x13, 0x20, 0xd6)
    else if l == 9 then Word(0x8d, 0x18, 0x9f, 0xd0, 0x47, 0x63, 0xf8, 0xac)
    else if l == 10 then Word(0x06, 0x83, 0xc1, 0x80, 0x1f, 0xf2, 0x90, 0x23)
    else if l == 11 then Word(0x7f, 0x0a, 0xf4, 0xb0, 0xd7, 0x82, 0x48, 0x59)
    else if l == 12 then Word(0x7b, 0x27, 0xeb, 0x78, 0xfc, 0xf6, 0x18, 0x16)
    else if l == 13 then Word(0x02, 0xae, 0xde, 0x48, 0x34, 0x86, 0xc0, 0x6c)
    else if l == 14 then Word(0x89, 0x35, 0x80, 0x18, 0x6c, 0x17, 0xa8, 0xe3)
    else Word(0xf0, 0xbc, 0xb5, 0x28, 0xa4, 0x67, 0x70, 0x99)
  }

  function Row2(l: bv8): Word {
    if l == 0 then Word(0x02, 0xdf, 0x7c, 0x11, 0x77, 0xfe, 0x11, 0xfa)
    else if l == 1 then Word(0x7b, 0x56, 0x49, 0x21, 0xbf, 0x8e, 0xc9, 0x80)
    else if l == 2 then Word(0xf0, 0xcd, 0x17, 0x71, 0xe7, 0x1f, 0xa1, 0x0f)
    else if l == 3 then Word(0x89, 0x44, 0x22, 0x41, 0x2f, 0x6f, 0x79, 0x75)
    else if l == 4 then Word(0x8d, 0x69, 0x3d, 0x89, 0x04, 0x1b, 0x29, 0x3a)
    else if l == 5 then Word(0xf4, 0xe0, 0x08, 0xb9, 0xcc, 0x6b, 0xf1, 0x40)
    else if l == 6 then Word(0x7f, 0x7b, 0x56, 0xe9, 0x94, 0xfa, 0x99, 0xcf)
    else if l == 7 then Word(0x06, 0xf2, 0x63, 0xd9, 0x5c, 0x8a, 0x41, 0xb5)
    else if l == 8 then Word(0x77, 0x21, 0x68, 0x79, 0xc3, 0x12, 0x39, 0x51)
    else if l == 9 then Word(0x0e, 0xa8, 0x5d, 0x49, 0x0b, 0x62, 0xe1, 0x2b)
    else if l == 10 then Word(0x85, 0x33, 0x03, 0x19, 0x53, 0xf3, 0x89, 0xa4)
    else if l == 11 then Word(0xfc, 0xba, 0x36, 0x29, 0x9b, 0x83, 0x51, 0xde)
    else if l == 12 then Word(0xf8, 0x97, 0x29, 0xe1, 0xb0, 0xf7, 0x01, 0x91)
    else if l == 13 then Word(0x81, 0x1e, 0x1c, 0xd1, 0x78, 0x87, 0xd9, 0xeb)
    else if l == 14 then Word(0x0a, 0x85, 0x42, 0x81, 0x20, 0x16, 0xb1, 0x64)
    else Word(0x73, 0x0c, 0x77, 0xb1, 0xe8, 0x66, 0x69, 0x1e)
  }

  function Row3(l: bv8): Word {
    if l == 0 then Word(0x83, 0xb0, 0xc2, 0x99, 0x4c, 0x01, 0x19, 0x87)
    else if l == 1 then Word(0xfa, 0x39, 0xf7, 0xa9, 0x84, 0x71, 0xc1, 0xfd)
    else if l == 2 then Word(0x71, 0xa2, 0xa9, 0xf9, 0xdc, 0xe0, 0xa9, 0x72)
    else if l == 3 then Word(0x08, 0x2b, 0x9c, 0xc9, 0x14, 0x90, 0x71, 0x08)
    else if l == 4 then Word(0x0c, 0x06, 0x83, 0x01, 0x3f, 0xe4, 0x21, 0x47)
    else if l == 5 then Word(0x75, 0x8f, 0xb6, 0x31, 0xf7, 0x94, 0xf9, 0x3d)
    else if l == 6 then Word(0xfe, 0x14, 0xe8, 0x61, 0xaf, 0x05, 0x91, 0xb2)
    else if l == 7 then Word(0x87, 0x9d, 0xdd, 0x51, 0x67, 0x75, 0x49, 0xc8)
    else if l == 8 then Word(0xf6, 0x4e, 0xd6, 0xf1, 0xf8, 0xed, 0x31, 0x2c)
    else if l == 9 then Word(0x8f, 0xc7, 0xe3, 0xc1, 0x30, 0x9d, 0xe9, 0x56)
    else if l == 10 then Word(0x04, 0x5c, 0xbd, 0x91, 0x68, 0x0c, 0x81, 0xd9)
    else if l == 11 then Word(0x7d, 0xd5, 0x88, 0xa1, 0xa0, 0x7c, 0x59, 0xa3)
    else if l == 12 then Word(0x79, 0xf8, 0x97, 0x69, 0x8b, 0x08, 0x09, 0xec)
    else if l == 13 then Word(0x00, 0x71, 0xa2, 0x59, 0x43, 0x78, 0xd1, 0x96)
    else if l == 14 then Word(0x8b, 0xea, 0xfc, 0x09, 0x1b, 0xe9, 0xb9, 0x19)
    else Word(0xf2, 0x63, 0xc9, 0x39, 0xd3, 0x99, 0x61, 0x63)
  }

  function Row4(l: bv8): Word {
    if l == 0 then Word(0x6f, 0x2d, 0x6e, 0x7a, 0xbd, 0xda, 0x7a, 0xdf)
    else if l == 1 then Word(0x16, 0xa4, 0x5b, 0x4a, 0x75, 0xaa, 0xa2, 0xa5)
    else if l == 2 then Word(0x9d, 0x3f, 0x05, 0x1a, 0x2d, 0x3b, 0xca, 0x2a)
    else if l == 3 then Word(0xe4, 0xb6, 0x30, 0x2a, 0xe5, 0x4b, 0x12, 0x50)
    else if l == 4 then Word(0xe0, 0x9b, 0x2f, 0xe2, 0xce, 0x3f, 0x42, 0x1f)
    else if l == 5 then Word(0x99, 0x12, 0x1a, 0xd2, 0x06, 0x4f, 0x9a, 0x65)
    else if l == 6 then Word(0x12, 0x89, 0x44, 0x82, 0x5e, 0xde, 0xf2, 0xea)
    else if l == 7 then Word(0x6b, 0x00, 0x71, 0xb2, 0x96, 0xae, 0x2a, 0x90)
    else if l == 8 then Word(0x1a, 0xd3, 0x7a, 0x12, 0x09, 0x36, 0x52, 0x74)
    else if l == 9 then Word(0x63, 0x5a, 0x4f, 0x22, 0xc1, 0x46, 0x8a, 0x0e)
    else if l == 10 then Word(0xe8, 0xc1, 0x11, 0x72, 0x99, 0xd7, 0xe2, 0x81)
    else if l == 11 then Word(0x91, 0x48, 0x24, 0x42, 0x51, 0xa7, 0x3a, 0xfb)
    else if l == 12 then Word(0x95, 0x65, 0x3b, 0x8a, 0x7a, 0xd3, 0x6a, 0xb4)
    else if l == 13 then Word(0xec, 0xec, 0x0e, 0xba, 0xb2, 0xa3, 0xb2, 0xce)
    else if l == 14 then Word(0x67, 0x77, 0x50, 0xea, 0xea, 0x32, 0xda, 0x41)
    else Word(0x1e, 0xfe, 0x65, 0xda, 0x22, 0x42, 0x02, 0x3b)
  }

  function Row5(l: bv8): Word {
    if l == 0 then Word(0xee, 0x42, 0xd0, 0xf2, 0x86, 0x25, 0x72, 0xa2)
    else if l == 1 then Word(0x97, 0xcb, 0xe5, 0xc2, 0x4e, 0x55, 0xaa, 0xd8)
    else if l == 2 then Word(0x1c, 0x50, 0xbb, 0x92, 0x16, 0xc4, 0xc2, 0x57)
    else if l == 3 then Word(0x65, 0xd9, 0x8e, 0xa2, 0xde, 0xb4, 0x1a, 0x2d)
    else if l == 4 then Word(0x61, 0xf4, 0x91, 0x6a, 0xf5, 0xc0, 0x4a, 0x62)
    else if l == 5 then Word(0x18, 0x7d, 0xa4, 0x5a, 0x3d, 0xb0, 0x92, 0x18)
    else if l == 6 then Word(0x93, 0xe6, 0xfa, 0x0a, 0x65, 0x21, 0xfa, 0x97)
    else if l == 7 then Word(0xea, 0x6f, 0xcf, 0x3a, 0xad, 0x51, 0x22, 0xed)
    else if l == 8 then Word(0x9b, 0xbc, 0xc4, 0x9a, 0x32, 0xc9, 0x5a, 0x09)
    else if l == 9 then Word(0xe2, 0x35, 0xf1, 0xaa, 0xfa, 0xb9, 0x82, 0x73)
    else if l == 10 then Word(0x69, 0xae, 0xaf, 0xfa, 0xa2, 0x28, 0xea, 0xfc)
    else if l == 11 then Word(0x10, 0x27, 0x9a, 0xca, 0x6a, 0x58, 0x32, 0x86)
    else if l == 12 then Word(0x14, 0x0a, 0x85, 0x02, 0x41, 0x2c, 0x62, 0xc9)
    else if l == 13 then Word(0x6d, 0x83, 0xb0, 0x32, 0x89, 0x5c, 0xba, 0xb3)
    else if l == 14 then Word(0xe6, 0x18, 0xee, 0x62, 0xd1, 0xcd, 0xd2, 0x3c)
    else Word(0x9f, 0x91, 0xdb, 0x52, 0x19, 0xbd, 0x0a, 0x46)
  }

  function Row6(l: bv8): Word {
    if l == 0 then Word(0x6d, 0xf2, 0x12, 0x6b, 0xca, 0x24, 0x6b, 0x25)
    else if l == 1 then Word(0x14, 0x7b, 0x27, 0x5b, 0x02, 0x54, 0xb3, 0x5f)
    else if l == 2 then Word(0x9f, 0xe0, 0x79, 0x0b, 0x5a, 0xc5, 0xdb, 0xd0)
    else if l == 3 then Word(0xe6, 0x69, 0x4c, 0x3b, 0x92, 0xb5, 0x03, 0xaa)
    else if l == 4 then Word(0xe2, 0x44, 0x53, 0xf3, 0xb9, 0xc1, 0x53, 0xe5)
    else if l == 5 then Word(0x9b, 0xcd, 0x66, 0xc3, 0x71, 0xb1, 0x8b, 0x9f)
    else if l == 6 then Word(0x10, 0x56, 0x38, 0x93, 0x29, 0x20, 0xe3, 0x10)
    else if l == 7 then Word(0x69, 0xdf, 0x0d, 0xa3, 0xe1, 0x50, 0x3b, 0x6a)
    else if l == 8 then Word(0x18, 0x0c, 0x06, 0x03, 0x7e, 0xc8, 0x43, 0x8e)
    else if l == 9 then Word(0x61, 0x85, 0x33, 0x33, 0xb6, 0xb8, 0x9b, 0xf4)
    else if l == 10 then Word(0xea, 0x1e, 0x6d, 0x63, 0xee, 0x29, 0xf3, 0x7b)
    else if l == 11 then Word(0x93, 0x97, 0x58, 0x53, 0x26, 0x59, 0x2b, 0x01)
    else if l == 12 then Word(0x97, 0xba, 0x47, 0x9b, 0x0d, 0x2d, 0x7b, 0x4e)
    else if l == 13 then Word(0xee, 0x33, 0x72, 0xab, 0xc5, 0x5d, 0xa3, 0x34)
    else if l == 14 then Word(0x65, 0xa8, 0x2c, 0xfb, 0x9d, 0xcc, 0xcb, 0xbb)
    else Word(0x1c, 0x21, 0x19, 0xcb, 0x55, 0xbc, 0x13, 0xc1)
  }

  function Row7(l: bv8): Word {
    if l == 0 then Word(0xec, 0x9d, 0xac, 0xe3, 0xf1, 0xdb, 0x63, 0x58)
    else if l == 1 then Word(0x95, 0x14, 0x99, 0xd3, 0x39, 0xab, 0xbb, 0x22)
    else if l == 2 then Word(0x1e, 0x8f, 0xc7, 0x83, 0x61, 0x3a, 0xd3, 0xad)
    else if l == 3 then Word(0x67, 0x06, 0xf2, 0xb3, 0xa9, 0x4a, 0x0b, 0xd7)
    else if l == 4 then Word(0x63, 0x2b, 0xed, 0x7b, 0x82, 0x3e, 0x5b, 0x98)
    else if l == 5 then Word(0x1a, 0xa2, 0xd8, 0x4b, 0x4a, 0x4e, 0x83, 0xe2)
    else if l == 6 then Word(0x91, 0x39, 0x86, 0x1b, 0x12, 0xdf, 0xeb, 0x6d)
    else if l == 7 then Word(0xe8, 0xb0, 0xb3, 0x2b, 0xda, 0xaf, 0x33, 0x17)
    else if l == 8 then Word(0x99, 0x63, 0xb8, 0x8b, 0x45, 0x37, 0x4b, 0xf3)
    else if l == 9 then Word(0xe0, 0xea, 0x8d, 0xbb, 0x8d, 0x47, 0x93, 0x89)
    else if l == 10 then Word(0x6b, 0x71, 0xd3, 0xeb, 0xd5, 0xd6, 0xfb, 0x06)
    else if l == 11 then Word(0x12, 0xf8, 0xe6, 0xdb, 0x1d, 0xa6, 0x23, 0x7c)
    else if l == 12 then Word(0x16, 0xd5, 0xf9, 0x13, 0x36, 0xd2, 0x73, 0x33)
    else if l == 13 then Word(0x6f, 0x5c, 0xcc, 0x23, 0xfe, 0xa2, 0xab, 0x49)
    else if l == 14 then Word(0xe4, 0xc7, 0x92, 0x73, 0xa6, 0x33, 0xc3, 0xc6)
    else Word(0x9d, 0x4e, 0xa7, 0x43, 0x6e, 0x43, 0x1b, 0xbc)
  }

  function Row8(l: bv8): Word {
    if l == 0 then Word(0xb5, 0xc9, 0x4b, 0xac, 0x29, 0x93, 0xac, 0x95)
    else if l == 1 then Word(0xcc, 0x40, 0x7e, 0x9c, 0xe1, 0xe3, 0x74, 0xef)
    else if l == 2 then Word(0x47, 0xdb, 0x20, 0xcc, 0xb9, 0x72, 0x1c, 0x60)
    else if l == 3 then Word(0x3e, 0x52, 0x15, 0xfc, 0x71, 0x02, 0xc4, 0x1a)
    else if l == 4 then Word(0x3a, 0x7f, 0x0a, 0x34, 0x5a, 0x76, 0x94, 0x55)
    else if l == 5 then Word(0x43, 0xf6, 0x3f, 0x04, 0x92, 0x06, 0x4c, 0x2f)
    else if l == 6 then Word(0xc8, 0x6d, 0x61, 0x54, 0xca, 0x97, 0x24, 0xa0)
    else if l == 7 then Word(0xb1, 0xe4, 0x54, 0x64, 0x02, 0xe7, 0xfc, 0xda)
    else if l == 8 then Word(0xc0, 0x37, 0x5f, 0xc4, 0x9d, 0x7f, 0x84, 0x3e)
    else if l == 9 then Word(0xb9, 0xbe, 0x6a, 0xf4, 0x55, 0x0f, 0x5c, 0x44)
    else if l == 10 then Word(0x32, 0x25, 0x34, 0xa4, 0x0d, 0x9e, 0x34, 0xcb)
    else if l == 11 then Word(0x4b, 0xac, 0x01, 0x94, 0xc5, 0xee, 0xec, 0xb1)
    else if l == 12 then Word(0x4f, 0x81, 0x1e, 0x5c, 0xee, 0x9a, 0xbc, 0xfe)
    else if l == 13 then Word(0x36, 0x08, 0x2b, 0x6c, 0x26, 0xea, 0x64, 0x84)
    else if l == 14 then Word(0xbd, 0x93, 0x75, 0x3c, 0x7e, 0x7b, 0x0c, 0x0b)
    else Word(0xc4, 0x1a, 0x40, 0x0c, 0xb6, 0x0b, 0xd4, 0x71)
  }

  function Row9(l: bv8): Word {
    if l == 0 then Word(0x34, 0xa6, 0xf5, 0x24, 0x12, 0x6c, 0xa4, 0xe8)
    else if l == 1 then Word(0x4d, 0x2f, 0xc0, 0x14, 0xda, 0x1c, 0x7c, 0x92)
    else if l == 2 then Word(0xc6, 0xb4, 0x9e, 0x44, 0x82, 0x8d, 0x14, 0x1d)
    else if l == 3 then Word(0xbf, 0x3d, 0xab, 0x74, 0x4a, 0xfd, 0xcc, 0x67)
    else if l == 4 then Word(0xbb, 0x10, 0xb4, 0xbc, 0x61, 0x89, 0x9c, 0x28)
    else if l == 5 then Word(0xc2, 0x99, 0x81, 0x8c, 0xa9, 0xf9, 0x44, 0x52)
    else if l == 6 then Word(0x49, 0x02, 0xdf, 0xdc, 0xf1, 0x68, 0x2c, 0xdd)
    else if l == 7 then Word(0x30, 0x8b, 0xea, 0xec, 0x39, 0x18, 0xf4, 0xa7)
    else if l == 8 then Word(0x41, 0x58, 0xe1, 0x4c, 0xa6, 0x80, 0x8c, 0x43)
    else if l == 9 then Word(0x38, 0xd1, 0xd4, 0x7c, 0x6e, 0xf0, 0x54, 0x39)
    else if l == 10 then Word(0xb3, 0x4a, 0x8a, 0x2c, 0x36, 0x61, 0x3c, 0xb6)
    else if l == 11 then Word(0xca, 0xc3, 0xbf, 0x1c, 0xfe, 0x11, 0xe4, 0xcc)
    else if l == 12 then Word(0xce, 0xee, 0xa0, 0xd4, 0xd5, 0x65, 0xb4, 0x83)
    else if l == 13 then Word(0xb7, 0x67, 0x95, 0xe4, 0x1d, 0x15, 0x6c, 0xf9)
    else if l == 14 then Word(0x3c, 0xfc, 0xcb, 0xb4, 0x45, 0x84, 0x04, 0x76)
    else Word(0x45, 0x75, 0xfe, 0x84, 0x8d, 0xf4, 0xdc, 0x0c)
  }

  function RowA(l: bv8): Word {
    if l == 0 then Word(0xb7, 0x16, 0x37, 0xbd, 0x5e, 0x6d, 0xbd, 0x6f)
    else if l == 1 then Word(0xce, 0x9f, 0x02, 0x8d, 0x96, 0x1d, 0x65, 0x15)
    else if l == 2 then Word(0x45, 0x04, 0x5c, 0xdd, 0xce, 0x8c, 0x0d, 0x9a)
    else if l == 3 then Word(0x3c, 0x8d, 0x69, 0xed, 0x06, 0xfc, 0xd5, 0xe0)
    else if l == 4 then Word(0x38, 0xa0, 0x76, 0x25, 0x2d, 0x88, 0x85, 0xaf)
    else if l == 5 then Word(0x41, 0x29, 0x43, 0x15, 0xe5, 0xf8, 0x5d, 0xd5)
    else if l == 6 then Word(0xca, 0xb2, 0x1d, 0x45, 0xbd, 0x69, 0x35, 0x5a)
    else if l == 7 then Word(0xb3, 0x3b, 0x28, 0x75, 0x75, 0x19, 0xed, 0x20)
    else if l == 8 then Word(0xc2, 0xe8, 0x23, 0xd5, 0xea, 0x81, 0x95, 0xc4)
    else if l == 9 then Word(0xbb, 0x61, 0x16, 0xe5, 0x22, 0xf1, 0x4d, 0xbe)
    else if l == 10 then Word(0x30, 0xfa, 0x48, 0xb5, 0x7a, 0x60, 0x25, 0x31)
    else if l == 11 then Word(0x49, 0x73, 0x7d, 0x85, 0xb2, 0x10, 0xfd, 0x4b)
    else if l == 12 then Word(0x4d, 0x5e, 0x62, 0x4d, 0x99, 0x64, 0xad, 0x04)
    else if l == 13 then Word(0x34, 0xd7, 0x57, 0x7d, 0x51, 0x14, 0x75, 0x7e)
    else if l == 14 then Word(0xbf, 0x4c, 0x09, 0x2d, 0x09, 0x85, 0x1d, 0xf1)
    else Word(0xc6, 0xc5, 0x3c, 0x1d, 0xc1, 0xf5, 0xc5, 0x8b)
  }

  function RowB(l: bv8): Word {
    if l == 0 then Word(0x36, 0x79, 0x89, 0x35, 0x65, 0x92, 0xb5, 0x12)
    else if l == 1 then Word(0x4f, 0xf0, 0xbc, 0x05, 0xad, 0xe2, 0x6d, 0x68)
    else if l == 2 then Word(0xc4, 0x6b, 0xe2, 0x55, 0xf5, 0x73, 0x05, 0xe7)
    else if l == 3 then Word(0xbd, 0xe2, 0xd7, 0x65, 0x3d, 0x03, 0xdd, 0x9d)
    else if l == 4 then Word(0xb9, 0xcf, 0xc8, 0xad, 0x16, 0x77, 0x8d, 0xd2)
    else if l == 5 then Word(0xc0, 0x46, 0xfd, 0x9d, 0xde, 0x07, 0x55, 0xa8)
    else if l == 6 then Word(0x4b, 0xdd, 0xa3, 0xcd, 0x86, 0x96, 0x3d, 0x27)
    else if l == 7 then Word(0x32, 0x54, 0x96, 0xfd, 0x4e, 0xe6, 0xe5, 0x5d)
    else if l == 8 then Word(0x43, 0x87, 0x9d, 0x5d, 0xd1, 0x7e, 0x9d, 0xb9)
    else if l == 9 then Word(0x3a, 0x0e, 0xa8, 0x6d, 0x19, 0x0e, 0x45, 0xc3)
    else if l == 10 then Word(0xb1, 0x95, 0xf6, 0x3d, 0x41, 0x9f, 0x2d, 0x4c)
    else if l == 11 then Word(0xc8, 0x1c, 0xc3, 0x0d, 0x89, 0xef, 0xf5, 0x36)
    else if l == 12 then Word(0xcc, 0x31, 0xdc, 0xc5, 0xa2, 0x9b, 0xa5, 0x79)
    else if l == 13 then Word(0xb5, 0xb8, 0xe9, 0xf5, 0x6a, 0xeb, 0x7d, 0x03)
    else if l == 14 then Word(0x3e, 0x23, 0xb7, 0xa5, 0x32, 0x7a, 0x15, 0x8c)
    else Word(0x47, 0xaa, 0x82, 0x95, 0xfa, 0x0a, 0xcd, 0xf6)
  }

  function RowC(l: bv8): Word {
    if l == 0 then Word(0xda, 0xe4, 0x25, 0xd6, 0x94, 0x49, 0xd6, 0x4a)
    else if l == 1 then Word(0xa3, 0x6d, 0x10, 0xe6, 0x5c, 0x39, 0x0e, 0x30)
    else if l == 2 then Word(0x28, 0xf6, 0x4e, 0xb6, 0x04, 0xa8, 0x66, 0xbf)
    else if l == 3 then Word(0x51, 0x7f, 0x7b, 0x86, 0xcc, 0xd8, 0xbe, 0xc5)
    else if l == 4 then Word(0x55, 0x52, 0x64, 0x4e, 0xe7, 0xac, 0xee, 0x8a)
    else if l == 5 then Word(0x2c, 0xdb, 0x51, 0x7e, 0x2f, 0xdc, 0x36, 0xf0)
    else if l == 6 then Word(0xa7, 0x40, 0x0f, 0x2e, 0x77, 0x4d, 0x5e, 0x7f)
    else if l == 7 then Word(0xde, 0xc9, 0x3a, 0x1e, 0xbf, 0x3d, 0x86, 0x05)
    else if l == 8 then Word(0xaf, 0x1a, 0x31, 0xbe, 0x20, 0xa5, 0xfe, 0xe1)
    else if l == 9 then Word(0xd6, 0x93, 0x04, 0x8e, 0xe8, 0xd5, 0x26, 0x9b)
    else if l == 10 then Word(0x5d, 0x08, 0x5a, 0xde, 0xb0, 0x44, 0x4e, 0x14)
    else if l == 11 then Word(0x24, 0x81, 0x6f, 0xee, 0x78, 0x34, 0x96, 0x6e)
    else if l == 12 then Word(0x20, 0xac, 0x70, 0x26, 0x53, 0x40, 0xc6, 0x21)
    else if l == 13 then Word(0x59, 0x25, 0x45, 0x16, 0x9b, 0x30, 0x1e, 0x5b)
    else if l == 14 then Word(0xd2, 0xbe, 0x1b, 0x46, 0xc3, 0xa1, 0x76, 0xd4)
    else Word(0xab, 0x37, 0x2e, 0x76, 0x0b, 0xd1, 0xae, 0xae)
  }

  function RowD(l: bv8): Word {
    if l == 0 then Word(0x5b, 0x8b, 0x9b, 0x5e, 0xaf, 0xb6, 0xde, 0x37)
    else if l == 1 then Word(0x22, 0x02, 0xae, 0x6e, 0x67, 0xc6, 0x06, 0x4d)
    else if l == 2 then Word(0xa9, 0x99, 0xf0, 0x3e, 0x3f, 0x57, 0x6e, 0xc2)
    else if l == 3 then Word(0xd0, 0x10, 0xc5, 0x0e, 0xf7, 0x27, 0xb6, 0xb8)
    else if l == 4 then Word(0xd4, 0x3d, 0xda, 0xc6, 0xdc, 0x53, 0xe6, 0xf7)
    else if l == 5 then Word(0xad, 0xb4, 0xef, 0xf6, 0x14, 0x23, 0x3e, 0x8d)
    else if l == 6 then Word(0x26, 0x2f, 0xb1, 0xa6, 0x4c, 0xb2, 0x56, 0x02)
    else if l == 7 then Word(0x5f, 0xa6, 0x84, 0x96, 0x84, 0xc2, 0x8e, 0x78)
    else if l == 8 then Word(0x2e, 0x75, 0x8f, 0x36, 0x1b, 0x5a, 0xf6, 0x9c)
    else if l == 9 then Word(0x57, 0xfc, 0xba, 0x06, 0xd3, 0x2a, 0x2e, 0xe6)
    else if l == 10 then Word(0xdc, 0x67, 0xe4, 0x56, 0x8b, 0xbb, 0x46, 0x69)
    else if l == 11 then Word(0xa5, 0xee, 0xd1, 0x66, 0x43, 0xcb, 0x9e, 0x13)
    else if l == 12 then Word(0xa1, 0xc3, 0xce, 0xae, 0x68, 0xbf, 0xce, 0x5c)
    else if l == 13 then Word(0xd8, 0x4a, 0xfb, 0x9e, 0xa0, 0xcf, 0x16, 0x26)
    else if l == 14 then Word(0x53, 0xd1, 0xa5, 0xce, 0xf8, 0x5e, 0x7e, 0xa9)
    else Word(0x2a, 0x58, 0x90, 0xfe, 0x30, 0x2e, 0xa6, 0xd3)
  }

  function RowE(l: bv8): Word {
    if l == 0 then Word(0xd8, 0x3b, 0x59, 0xc7, 0xe3, 0xb7, 0xc7, 0xb0)
    else if l == 1 then Word(0xa1, 0xb2, 0x6c, 0xf7, 0x2b, 0xc7, 0x1f, 0xca)
    else if l == 2 then Word(0x2a, 0x29, 0x32, 0xa7, 0x73, 0x56, 0x77, 0x45)
    else if l == 3 then Word(0x53, 0xa0, 0x07, 0x97, 0xbb, 0x26, 0xaf, 0x3f)
    else if l == 4 then Word(0x57, 0x8d, 0x18, 0x5f, 0x90, 0x52, 0xff, 0x70)
    else if l == 5 then Word(0x2e, 0x04, 0x2d, 0x6f, 0x58, 0x22, 0x27, 0x0a)
    else if l == 6 then Word(0xa5, 0x9f, 0x73, 0x3f, 0x00, 0xb3, 0x4f, 0x85)
    else if l == 7 then Word(0xdc, 0x16, 0x46, 0x0f, 0xc8, 0xc3, 0x97, 0xff)
    else if l == 8 then Word(0xad, 0xc5, 0x4d, 0xaf, 0x57, 0x5b, 0xef, 0x1b)
    else if l == 9 then Word(0xd4, 0x4c, 0x78, 0x9f, 0x9f, 0x2b, 0x37, 0x61)
    else if l == 10 then Word(0x5f, 0xd7, 0x26, 0xcf, 0xc7, 0xba, 0x5f, 0xee)
    else if l == 11 then Word(0x26, 0x5e, 0x13, 0xff, 0x0f, 0xca, 0x87, 0x94)
    else if l == 12 then Word(0x22, 0x73, 0x0c, 0x37, 0x24, 0xbe, 0xd7, 0xdb)
    else if l == 13 then Word(0x5b, 0xfa, 0x39, 0x07, 0xec, 0xce, 0x0f, 0xa1)
    else if l == 14 then Word(0xd0, 0x61, 0x67, 0x57, 0xb4, 0x5f, 0x67, 0x2e)
    else Word(0xa9, 0xe8, 0x52, 0x67, 0x7c, 0x2f, 0xbf, 0x54)
  }

  function RowF(l: bv8): Word {
    if l == 0 then Word(0x59, 0x54, 0xe7, 0x4f, 0xd8, 0x48, 0xcf, 0xcd)
    else if l == 1 then Word(0x20, 0xdd, 0xd2, 0x7f, 0x10, 0x38, 0x17, 0xb7)
    else if l == 2 then Word(0xab, 0x46, 0x8c, 0x2f, 0x48, 0xa9, 0x7f, 0x38)
    else if l == 3 then Word(0xd2, 0xcf, 0xb9, 0x1f, 0x80, 0xd9, 0xa7, 0x42)
    else if l == 4 then Word(0xd6, 0xe2, 0xa6, 0xd7, 0xab, 0xad, 0xf7, 0x0d)
    else if l == 5 then Word(0xaf, 0x6b, 0x93, 0xe7, 0x63, 0xdd, 0x2f, 0x77)
    else if l == 6 then Word(0x24, 0xf0, 0xcd, 0xb7, 0x3b, 0x4c, 0x47, 0xf8)
    else if l == 7 then Word(0x5d, 0x79, 0xf8, 0x87, 0xf3, 0x3c, 0x9f, 0x82)
    else if l == 8 then Word(0x2c, 0xaa, 0xf3, 0x27, 0x6c, 0xa4, 0xe7, 0x66)
    else if l == 9 then Word(0x55, 0x23, 0xc6, 0x17, 0xa4, 0xd4, 0x3f, 0x1c)
    else if l == 10 then Word(0xde, 0xb8, 0x98, 0x47, 0xfc, 0x45, 0x57, 0x93)
    else if l == 11 then Word(0xa7, 0x31, 0xad, 0x77, 0x34, 0x35, 0x8f, 0xe9)
    else if l == 12 then Word(0xa3, 0x1c, 0xb2, 0xbf, 0x1f, 0x41, 0xdf, 0xa6)
    else if l == 13 then Word(0xda, 0x95, 0x87, 0x8f, 0xd7, 0x31, 0x07, 0xdc)
    else if l == 14 then Word(0x51, 0x0e, 0xd9, 0xdf, 0x8f, 0xa0, 0x6f, 0x53)
    else Word(0x28, 0x87, 0xec, 0xef, 0x47, 0xd0, 0xb7, 0x29)
  }

  function Row(h: bv8, l: bv8): Word {
    if h < 8 then RowLow(h, l) else RowHigh(h, l)
  }

  function RowLow(h: bv8, l: bv8): Word {
    if h == 0 then Row0(l)
    else if h == 1 then Row1(l)
    else if h == 2 then Row2(l)
    else if h == 3 then Row3(l)
    else if h == 4 then Row4(l)
    else if h == 5 then Row5(l)
    else if h == 6 then Row6(l)
    else Row7(l)
  }

  function RowHigh(h: bv8, l: bv8): Word {
    if h == 8 then Row8(l)
    else if h == 9 then Row9(l)
    else if h == 10 then RowA(l)
    else if h == 11 then RowB(l)
    else if h == 12 then RowC(l)
    else if h == 13 then RowD(l)
    else if h == 14 then RowE(l)
    else RowF(l)
  }

  /** crc64_tab[i]. */
  function Entry(i: bv8): Word {
    Row(i >> 4, i & 15)
  }

  // ---- the table is linear

  /** c if bit b of i is set. */
  function On(i: bv8, b: nat, c: bv8): bv8
    requires b < 8
  {
    if (i >> b) & 1 == 1 then c else 0
  }

  function Sum0(i: bv8): bv8 {
    On(i, 0, 0x79) ^ On(i, 1, 0xf2) ^ On(i, 2, 0x8f) ^ On(i, 3, 0x75)
    ^ On(i, 4, 0x81) ^ On(i, 5, 0x02) ^ On(i, 6, 0x6f) ^ On(i, 7, 0xb5)
  }

  function Sum1(i: bv8): bv8 {
    On(i, 0, 0x89) ^ On(i, 1, 0x12) ^ On(i, 2, 0xb6) ^ On(i, 3, 0xfe)
    ^ On(i, 4, 0x6f) ^ On(i, 5, 0xdf) ^ On(i, 6, 0x2d) ^ On(i, 7, 0xc9)
  }

  function Sum2(i: bv8): bv8 {
    On(i, 0, 0x35) ^ On(i, 1, 0x6b) ^ On(i, 2, 0x41) ^ On(i, 3, 0x14)
    ^ On(i, 4, 0xbe) ^ On(i, 5, 0x7c) ^ On(i, 6, 0x6e) ^ On(i, 7, 0x4b)
  }

  function Sum3(i: bv8): bv8 {
    On(i, 0, 0x30) ^ On(i, 1, 0x60) ^ On(i, 2, 0x98) ^ On(i, 3, 0x68)
    ^ On(i, 4, 0x88) ^ On(i, 5, 0x11) ^ On(i, 6, 0x7a) ^ On(i, 7, 0xac)
  }

  function Sum4(i: bv8): bv8 {
    On(i, 0, 0xc8) ^ On(i, 1, 0x90) ^ On(i, 2, 0x73) ^ On(i, 3, 0xb4)
    ^ On(i, 4, 0x3b) ^ On(i, 5, 0x77) ^ On(i, 6, 0xbd) ^ On(i, 7, 0x29)
  }

  function Sum5(i: bv8): bv8 {
    On(i, 0, 0x70) ^ On(i, 1, 0xe1) ^ On(i, 2, 0xe5) ^ On(i, 3, 0xec)
    ^ On(i, 4, 0xff) ^ On(i, 5, 0xfe) ^ On(i, 6, 0xda) ^ On(i, 7, 0x93)
  }

  function Sum6(i: bv8): bv8 {
    On(i, 0, 0xd8) ^ On(i, 1, 0xb0) ^ On(i, 2, 0x38) ^ On(i, 3, 0x28)
    ^ On(i, 4, 0x08) ^ On(i, 5, 0x11) ^ On(i, 6, 0x7a) ^ On(i, 7, 0xac)
  }

  function Sum7(i: bv8): bv8 {
    On(i, 0, 0x7a) ^ On(i, 1, 0xf5) ^ On(i, 2, 0xc0) ^ On(i, 3, 0xab)
    ^ On(i, 4, 0x7d) ^ On(i, 5, 0xfa) ^ On(i, 6, 0xdf) ^ On(i, 7, 0x95)
  }

  /** The entries for the bits of i, added up. */
  function Sum(i: bv8): Word {
    Word(Sum0(i), Sum1(i), Sum2(i), Sum3(i), Sum4(i), Sum5(i), Sum6(i), Sum7(i))
  }

  lemma RowSum0(l: bv8)
    requires l < 16
    ensures Row0(l) == Sum(0x00 | l)
  {
    match l
    case 0 => case 1 => case 2 => case 3 => case 4 => case 5 => case 6 => case 7 =>
    case 8 => case 9 => case 10 => case 11 => case 12 => case 13 => case 14 =>
    case _ => assert l == 15;
  }

  lemma RowSum1(l: bv8)
    requires l < 16
    ensures Row1(l) == Sum(0x10 | l)
  {
    match l
    case 0 => case 1 => case 2 => case 3 => case 4 => case 5 => case 6 => case 7 =>
    case 8 => case 9 => case 10 => case 11 => case 12 => case 13 => case 14 =>
    case _ => assert l == 15;
  }

  lemma RowSum2(l: bv8)
    requires l < 16
    ensures Row2(l) == Sum(0x20 | l)
  {
    match l
    case 0 => case 1 => case 2 => case 3 => case 4 => case 5 => case 6 => case 7 =>
    case 8 => case 9 => case 10 => case 11 => case 12 => case 13 => case 14 =>
    case _ => assert l == 15;
  }

  lemma RowSum3(l: bv8)
    requires l < 16
    ensures Row3(l) == Sum(0x30 | l)
  {
    match l
    case 0 => case 1 => case 2 => case 3 => case 4 => case 5 => case 6 => case 7 =>
    case 8 => case 9 => case 10 => case 11 => case 12 => case 13 => case 14 =>
    case _ => assert l == 15;
  }

  lemma RowSum4(l: bv8)
    requires l < 16
    ensures Row4(l) == Sum(0x40 | l)
  {
    match l
    case 0 => case 1 => case 2 => case 3 => case 4 => case 5 => case 6 => case 7 =>
    case 8 => case 9 => case 10 => case 11 => case 12 => case 13 => case 14 =>
    case _ => assert l == 15;
  }

  lemma RowSum5(l: bv8)
    requires l < 16
    ensures Row5(l) == Sum(0x50 | l)
  {
    match l
    case 0 => case 1 => case 2 => case 3 => case 4 => case 5 => case 6 => case 7 =>
    case 8 => case 9 => case 10 => case 11 => case 12 => case 13 => case 14 =>
    case _ => assert l == 15;
  }

  lemma RowSum6(l: bv8)
    requires l < 16
    ensures Row6(l) == Sum(0x60 | l)
  {
    match l
    case 0 => case 1 => case 2 => case 3 => case 4 => case 5 => case 6 => case 7 =>
    case 8 => case 9 => case 10 => case 11 => case 12 => case 13 => case 14 =>
    case _ => assert l == 15;
  }

  lemma RowSum7(l: bv8)
    requires l < 16
    ensures Row7(l) == Sum(0x70 | l)
  {
    match l
    case 0 => case 1 => case 2 => case 3 => case 4 => case 5 => case 6 => case 7 =>
    case 8 => case 9 => case 10 => case 11 => case 12 => case 13 => case 14 =>
    case _ => assert l == 15;
  }

  lemma RowSum8(l: bv8)
    requires l < 16
    ensures Row8(l) == Sum(0x80 | l)
  {
    match l
    case 0 => case 1 => case 2 => case 3 => case 4 => case 5 => case 6 => case 7 =>
    case 8 => case 9 => case 10 => case 11 => case 12 => case 13 => case 14 =>
    case _ => assert l == 15;
  }

  lemma RowSum9(l: bv8)
    requires l < 16
    ensures Row9(l) == Sum(0x90 | l)
  {
    match l
    case 0 => case 1 => case 2 => case 3 => case 4 => case 5 => case 6 => case 7 =>
    case 8 => case 9 => case 10 => case 11 => case 12 => case 13 => case 14 =>
    case _ => assert l == 15;
  }

  lemma RowSumA(l: bv8)
    requires l < 16
    ensures RowA(l) == Sum(0xa0 | l)
  {
    match l
    case 0 => case 1 => case 2 => case 3 => case 4 => case 5 => case 6 => case 7 =>
    case 8 => case 9 => case 10 => case 11 => case 12 => case 13 => case 14 =>
    case _ => assert l == 15;
  }

  lemma RowSumB(l: bv8)
    requires l < 16
    ensures RowB(l) == Sum(0xb0 | l)
  {
    match l
    case 0 => case 1 => case 2 => case 3 => case 4 => case 5 => case 6 => case 7 =>
    case 8 => case 9 => case 10 => case 11 => case 12 => case 13 => case 14 =>
    case _ => assert l == 15;
  }

  lemma RowSumC(l: bv8)
    requires l < 16
    ensures RowC(l) == Sum(0xc0 | l)
  {
    match l
    case 0 => case 1 => case 2 => case 3 => case 4 => case 5 => case 6 => case 7 =>
    case 8 => case 9 => case 10 => case 11 => case 12 => case 13 => case 14 =>
    case _ => assert l == 15;
  }

  lemma RowSumD(l: bv8)
    requires l < 16
    ensures RowD(l) == Sum(0xd0 | l)
  {
    match l
    case 0 => case 1 => case 2 => case 3 => case 4 => case 5 => case 6 => case 7 =>
    case 8 => case 9 => case 10 => case 11 => case 12 => case 13 => case 14 =>
    case _ => assert l == 15;
  }

  lemma RowSumE(l: bv8)
    requires l < 16
    ensures RowE(l) == Sum(0xe0 | l)
  {
    match l
    case 0 => case 1 => case 2 => case 3 => case 4 => case 5 => case 6 => case 7 =>
    case 8 => case 9 => case 10 => case 11 => case 12 => case 13 => case 14 =>
    case _ => assert l == 15;
  }

  lemma RowSumF(l: bv8)
    requires l < 16
    ensures RowF(l) == Sum(0xf0 | l)
  {
    match l
    case 0 => case 1 => case 2 => case 3 => case 4 => case 5 => case 6 => case 7 =>
    case 8 => case 9 => case 10 => case 11 => case 12 => case 13 => case 14 =>
    case _ => assert l == 15;
  }

  /** An index from its row and its place in it. */
  lemma Place(i: bv8, h: bv8)
    requires i >> 4 == h
    ensures h < 16 && i & 15 < 16 && (h << 4) | (i & 15) == i
  {
  }

  lemma RowLowSum(h: bv8, l: bv8)
    requires h < 8 && l < 16
    ensures RowLow(h, l) == Sum((h << 4) | l)
  {
    hide Sum, Row0, Row1, Row2, Row3, Row4, Row5, Row6, Row7;
    match h
    case 0 => RowSum0(l);
    case 1 => RowSum1(l);
    case 2 => RowSum2(l);
    case 3 => RowSum3(l);
    case 4 => RowSum4(l);
    case 5 => RowSum5(l);
    case 6 => RowSum6(l);
    case _ =>
      assert h == 7;
      RowSum7(l);
  }

  lemma RowHighSum(h: bv8, l: bv8)
    requires 8 <= h < 16 && l < 16
    ensures RowHigh(h, l) == Sum((h << 4) | l)
  {
    hide Sum, Row8, Row9, RowA, RowB, RowC, RowD, RowE, RowF;
    match h
    case 8 => RowSum8(l);
    case 9 => RowSum9(l);
    case 10 => RowSumA(l);
    case 11 => RowSumB(l);
    case 12 => RowSumC(l);
    case 13 => RowSumD(l);
    case 14 => RowSumE(l);
    case _ =>
      assert h == 15;
      RowSumF(l);
  }

  lemma RowSum(h: bv8, l: bv8)
    requires h < 16 && l < 16
    ensures Row(h, l) == Sum((h << 4) | l)
  {
    hide Sum, RowLow, RowHigh;
    if h < 8 {
      RowLowSum(h, l);
    } else {
      RowHighSum(h, l);
    }
  }

  /** Every entry is the sum of the entries for its index's bits. */
  lemma EntrySum(i: bv8)
    ensures Entry(i) == Sum(i)
  {
    var h, l := i >> 4, i & 15;
    assert Entry(i) == Row(h, l);
    hide *;
    Place(i, h);
    RowSum(h, l);
  }

  /** The index an entry's top byte comes from. */
  function IndexOf(t: bv8): bv8 {
    On(t, 0, 0x6b) ^ On(t, 1, 0xd6) ^ On(t, 2, 0xac) ^ On(t, 3, 0x33) ^
    On(t, 4, 0x66) ^ On(t, 5, 0xa7) ^ On(t, 6, 0x25) ^ On(t, 7, 0x21)
  }

  /** No two entries share their top byte. */
  lemma TopByte(i: bv8)
    ensures IndexOf(Entry(i).b7) == i
  {
    EntrySum(i);
    hide Entry;
    SumIndex(i);
  }

  lemma SumIndex(i: bv8)
    ensures IndexOf(Sum7(i)) == i
  {
  }

  // ---- the table is the polynomial's

  /** The reversed coefficients of the polynomial 0xad93d23594c935a9. */
  const POLY := Word(0xb5, 0xc9, 0x4b, 0xac, 0x29, 0x93, 0xac, 0x95)

  function Carry(low: bv8, high: bv8): bv8 {
    (low >> 1) | (high << 7)
  }

  function Half(x: Word): Word {
    Word(Carry(x.b0, x.b1), Carry(x.b1, x.b2), Carry(x.b2, x.b3), Carry(x.b3, x.b4), Carry(x.b4, x.b5),
      Carry(x.b5, x.b6), Carry(x.b6, x.b7), Carry(x.b7, 0))
  }

  /** What a bit shifted out adds. */
  function LowBit(b: bv8): Word {
    if b & 1 == 1 then POLY else ZERO
  }

  /** One bit of polynomial division. */
  function Shift(x: Word): Word {
    Xor(Half(x), LowBit(x.b0))
  }

  function ShiftN(x: Word, n: nat): Word
    decreases n
  {
    if n == 0 then x else ShiftN(Shift(x), n - 1)
  }

  lemma CarryXor(a: bv8, b: bv8, c: bv8, d: bv8)
    ensures Carry(X8(a, b), X8(c, d)) == X8(Carry(a, c), Carry(b, d))
  {
  }

  lemma HalfXor(x: Word, y: Word)
    ensures Half(Xor(x, y)) == Xor(Half(x), Half(y))
  {
    assert X8(0, 0) == 0;
    hide Carry, X8;
    CarryXor(x.b0, y.b0, x.b1, y.b1);
    CarryXor(x.b1, y.b1, x.b2, y.b2);
    CarryXor(x.b2, y.b2, x.b3, y.b3);
    CarryXor(x.b3, y.b3, x.b4, y.b4);
    CarryXor(x.b4, y.b4, x.b5, y.b5);
    CarryXor(x.b5, y.b5, x.b6, y.b6);
    CarryXor(x.b6, y.b6, x.b7, y.b7);
    CarryXor(x.b7, y.b7, 0, 0);
  }

  lemma XorAssoc(a: bv8, b: bv8, c: bv8)
    ensures X8(X8(a, b), c) == X8(a, X8(b, c))
  {
  }

  lemma XorComm(a: bv8, b: bv8)
    ensures X8(a, b) == X8(b, a)
  {
  }

  lemma Regroup(a: bv8, b: bv8, c: bv8, d: bv8)
    ensures X8(X8(a, b), X8(c, d)) == X8(X8(a, c), X8(b, d))
  {
    hide X8;
    XorAssoc(a, b, X8(c, d));
    XorAssoc(b, c, d);
    XorComm(b, c);
    XorAssoc(c, b, d);
    XorAssoc(a, c, X8(b, d));
  }

  lemma XorRegroup(a: Word, b: Word, c: Word, d: Word)
    ensures Xor(Xor(a, b), Xor(c, d)) == Xor(Xor(a, c), Xor(b, d))
  {
    hide X8;
    Regroup(a.b0, b.b0, c.b0, d.b0);
    Regroup(a.b1, b.b1, c.b1, d.b1);
    Regroup(a.b2, b.b2, c.b2, d.b2);
    Regroup(a.b3, b.b3, c.b3, d.b3);
    Regroup(a.b4, b.b4, c.b4, d.b4);
    Regroup(a.b5, b.b5, c.b5, d.b5);
    Regroup(a.b6, b.b6, c.b6, d.b6);
    Regroup(a.b7, b.b7, c.b7, d.b7);
  }

  lemma LowBitXor(a: bv8, b: bv8)
    ensures LowBit(X8(a, b)) == Xor(LowBit(a), LowBit(b))
  {
  }

  lemma ShiftXor(x: Word, y: Word)
    ensures Shift(Xor(x, y)) == Xor(Shift(x), Shift(y))
  {
    assert Xor(x, y).b0 == X8(x.b0, y.b0);
    hide Half, LowBit, Xor, X8;
    HalfXor(x, y);
    LowBitXor(x.b0, y.b0);
    XorRegroup(Half(x), LowBit(x.b0), Half(y), LowBit(y.b0));
  }

  /** Division is linear. */
  lemma {:induction false} ShiftNXor(x: Word, y: Word, n: nat)
    ensures ShiftN(Xor(x, y), n) == Xor(ShiftN(x, n), ShiftN(y, n))
    decreases n
  {
    hide Shift, Xor;
    if n > 0 {
      ShiftXor(x, y);
      ShiftNXor(Shift(x), Shift(y), n - 1);
    }
  }

  lemma {:induction false} ShiftNAdd(x: Word, m: nat, n: nat)
    ensures ShiftN(x, m + n) == ShiftN(ShiftN(x, m), n)
    decreases m
  {
    hide Shift;
    if m > 0 {
      ShiftNAdd(Shift(x), m - 1, n);
    }
  }

  /** The polynomial divided k bits on. */
  function Power(k: nat): Word
    requires k < 8
  {
    if k == 0 then Word(0xb5, 0xc9, 0x4b, 0xac, 0x29, 0x93, 0xac, 0x95)
    else if k == 1 then Word(0x6f, 0x2d, 0x6e, 0x7a, 0xbd, 0xda, 0x7a, 0xdf)
    else if k == 2 then Word(0x02, 0xdf, 0x7c, 0x11, 0x77, 0xfe, 0x11, 0xfa)
    else if k == 3 then Word(0x81, 0x6f, 0xbe, 0x88, 0x3b, 0xff, 0x08, 0x7d)
    else if k == 4 then Word(0x75, 0xfe, 0x14, 0x68, 0xb4, 0xec, 0x28, 0xab)
    else if k == 5 then Word(0x8f, 0xb6, 0x41, 0x98, 0x73, 0xe5, 0x38, 0xc0)
    else if k == 6 then Word(0xf2, 0x12, 0x6b, 0x60, 0x90, 0xe1, 0xb0, 0xf5)
    else Word(0x79, 0x89, 0x35, 0x30, 0xc8, 0x70, 0xd8, 0x7a)
  }

  lemma PowerNext(k: nat)
    requires k < 7
    ensures Shift(Power(k)) == Power(k + 1)
  {
    match k
    case 0 => case 1 => case 2 => case 3 => case 4 => case 5 =>
    case _ => assert k == 6;
  }

  lemma {:induction false} PowerShift(k: nat)
    requires k < 8
    ensures ShiftN(POLY, k) == Power(k)
  {
    hide Shift, Power;
    Powers();
    if k > 0 {
      PowerShift(k - 1);
      ShiftNAdd(POLY, k - 1, 1);
      PowerNext(k - 1);
      assert ShiftN(Power(k - 1), 1) == ShiftN(Shift(Power(k - 1)), 0);
    }
  }

  function Bit(b: nat): bv8
    requires b < 8
  {
    1 << b
  }

  lemma HalfBit(x: bv8)
    requires x & 1 == 0
    ensures Shift(Low(x)) == Low(x >> 1)
  {
  }

  lemma BitHalves(b: nat)
    requires 0 < b < 8
    ensures Bit(b) & 1 == 0 && Bit(b) >> 1 == Bit(b - 1)
  {
  }

  /** A single bit moves towards the end. */
  lemma BitNext(b: nat)
    requires 0 < b < 8
    ensures Shift(Low(Bit(b))) == Low(Bit(b - 1))
  {
    BitHalves(b);
    hide *;
    HalfBit(Bit(b));
  }

  lemma BitLast()
    ensures Shift(Low(Bit(0))) == POLY
  {
  }

  lemma {:induction false} BitShift(b: nat, n: nat)
    requires b < 8 && b < n
    ensures ShiftN(Low(Bit(b)), n) == ShiftN(POLY, n - b - 1)
    decreases b
  {
    hide Shift, Bit, Low;
    if b == 0 {
      BitLast();
    } else {
      BitNext(b);
      BitShift(b - 1, n - 1);
    }
  }

  /** What eight bits of division make of a byte with one bit set. */
  lemma BitPower(b: nat)
    requires b < 8
    ensures ShiftN(Low(Bit(b)), 8) == Power(7 - b)
  {
    hide *;
    var n := 8;
    BitShift(b, n);
    PowerShift(7 - b);
  }

  /** The lowest n bits of i. */
  function Bits(i: bv8, n: nat): bv8
    requires n <= 8
    decreases n
  {
    if n == 0 then 0 else X8(Bits(i, n - 1), On(i, n - 1, Bit(n - 1)))
  }

  function Pick(i: bv8, b: nat): Word
    requires b < 8
  {
    if (i >> b) & 1 == 1 then Power(7 - b) else ZERO
  }

  function Picks(i: bv8, n: nat): Word
    requires n <= 8
    decreases n
  {
    if n == 0 then ZERO else Xor(Picks(i, n - 1), Pick(i, n - 1))
  }

  lemma {:induction false} ZeroShift(n: nat)
    ensures ShiftN(ZERO, n) == ZERO
    decreases n
  {
    assert Shift(ZERO) == ZERO;
    hide Shift;
    if n > 0 {
      ZeroShift(n - 1);
    }
  }

  lemma PickShift(i: bv8, b: nat, n: nat)
    requires b < 8 && n == 8
    ensures ShiftN(Low(On(i, b, Bit(b))), n) == Pick(i, b)
  {
    assert Low(0) == ZERO;
    hide ShiftN, Power, Bit, Low;
    if (i >> b) & 1 == 1 {
      BitPower(b);
    } else {
      ZeroShift(n);
    }
  }

  lemma {:induction false} PicksShift(i: bv8, n: nat, m: nat)
    requires n <= 8 && m == 8
    ensures ShiftN(Low(Bits(i, n)), m) == Picks(i, n)
    decreases n
  {
    hide ShiftN, Pick, On, Bit, X8;
    if n == 0 {
      ZeroShift(m);
    } else {
      LowXor(Bits(i, n - 1), On(i, n - 1, Bit(n - 1)));
      hide Low, Xor;
      ShiftNXor(Low(Bits(i, n - 1)), Low(On(i, n - 1, Bit(n - 1))), m);
      PicksShift(i, n - 1, m);
      PickShift(i, n - 1, m);
    }
  }

  lemma LowXor(a: bv8, b: bv8)
    ensures Low(X8(a, b)) == Xor(Low(a), Low(b))
  {
    assert X8(0, 0) == 0;
  }

  lemma BitsUp(i: bv8)
    ensures Bits(i, 4) == X8(X8(X8(On(i, 0, Bit(0)), On(i, 1, Bit(1))), On(i, 2, Bit(2))), On(i, 3, Bit(3)))
    ensures Bits(i, 8)
         == X8(X8(X8(X8(Bits(i, 4), On(i, 4, Bit(4))), On(i, 5, Bit(5))), On(i, 6, Bit(6))), On(i, 7, Bit(7)))
  {
    hide X8, On, Bit;
    ZeroX8(On(i, 0, Bit(0)));
    assert Bits(i, 1) == X8(0, On(i, 0, Bit(0)));
    assert Bits(i, 2) == X8(Bits(i, 1), On(i, 1, Bit(1)));
    assert Bits(i, 3) == X8(Bits(i, 2), On(i, 2, Bit(2)));
    assert Bits(i, 4) == X8(Bits(i, 3), On(i, 3, Bit(3)));
    assert Bits(i, 5) == X8(Bits(i, 4), On(i, 4, Bit(4)));
    assert Bits(i, 6) == X8(Bits(i, 5), On(i, 5, Bit(5)));
    assert Bits(i, 7) == X8(Bits(i, 6), On(i, 6, Bit(6)));
    assert Bits(i, 8) == X8(Bits(i, 7), On(i, 7, Bit(7)));
  }

  lemma ZeroX8(a: bv8)
    ensures X8(0, a) == a && X8(a, 0) == a
  {
  }

  lemma BitsAre(i: bv8)
    ensures X8(X8(X8(X8(X8(X8(X8(On(i, 0, 1), On(i, 1, 2)), On(i, 2, 4)), On(i, 3, 8)), On(i, 4, 16)), On(i, 5, 32)),
      On(i, 6, 64)), On(i, 7, 128)) == i
  {
  }

  lemma BitValues()
    ensures Bit(0) == 1 && Bit(1) == 2 && Bit(2) == 4 && Bit(3) == 8
    ensures Bit(4) == 16 && Bit(5) == 32 && Bit(6) == 64 && Bit(7) == 128
  {
  }

  lemma BitsAll(i: bv8)
    ensures Bits(i, 8) == i
  {
    hide *;
    BitsUp(i);
    BitValues();
    BitsAre(i);
  }

  lemma PickByte(i: bv8, b: nat)
    requires b < 8
    ensures var p := Power(7 - b); Pick(i, b) == Word(On(i, b, p.b0), On(i, b, p.b1), On(i, b, p.b2), On(i, b, p.b3),
      On(i, b, p.b4), On(i, b, p.b5), On(i, b, p.b6), On(i, b, p.b7))
  {
    hide Power;
  }

  lemma PicksUp(i: bv8)
    ensures Picks(i, 4) == Xor(Xor(Xor(Pick(i, 0), Pick(i, 1)), Pick(i, 2)), Pick(i, 3))
    ensures Picks(i, 8) == Xor(Xor(Xor(Xor(Picks(i, 4), Pick(i, 4)), Pick(i, 5)), Pick(i, 6)), Pick(i, 7))
  {
    hide Xor, Pick;
    XorZero(Pick(i, 0));
    assert Picks(i, 1) == Xor(ZERO, Pick(i, 0));
    assert Picks(i, 2) == Xor(Picks(i, 1), Pick(i, 1));
    assert Picks(i, 3) == Xor(Picks(i, 2), Pick(i, 2));
    assert Picks(i, 4) == Xor(Picks(i, 3), Pick(i, 3));
    assert Picks(i, 5) == Xor(Picks(i, 4), Pick(i, 4));
    assert Picks(i, 6) == Xor(Picks(i, 5), Pick(i, 5));
    assert Picks(i, 7) == Xor(Picks(i, 6), Pick(i, 6));
    assert Picks(i, 8) == Xor(Picks(i, 7), Pick(i, 7));
  }

  lemma XorZero(x: Word)
    ensures Xor(ZERO, x) == x
  {
    ZeroX8(x.b0);
    ZeroX8(x.b1);
    ZeroX8(x.b2);
    ZeroX8(x.b3);
    ZeroX8(x.b4);
    ZeroX8(x.b5);
    ZeroX8(x.b6);
    ZeroX8(x.b7);
    hide X8;
  }

  function Add8(a: bv8, b: bv8, c: bv8, d: bv8, e: bv8, f: bv8, g: bv8, h: bv8): bv8 {
    a ^ b ^ c ^ d ^ e ^ f ^ g ^ h
  }

  lemma SumAdd0(i: bv8)
    ensures Sum0(i) == Add8(On(i, 0, 0x79), On(i, 1, 0xf2), On(i, 2, 0x8f), On(i, 3, 0x75),
      On(i, 4, 0x81), On(i, 5, 0x02), On(i, 6, 0x6f), On(i, 7, 0xb5))
  {
    hide On;
  }

  lemma SumAdd1(i: bv8)
    ensures Sum1(i) == Add8(On(i, 0, 0x89), On(i, 1, 0x12), On(i, 2, 0xb6), On(i, 3, 0xfe),
      On(i, 4, 0x6f), On(i, 5, 0xdf), On(i, 6, 0x2d), On(i, 7, 0xc9))
  {
    hide On;
  }

  lemma SumAdd2(i: bv8)
    ensures Sum2(i) == Add8(On(i, 0, 0x35), On(i, 1, 0x6b), On(i, 2, 0x41), On(i, 3, 0x14),
      On(i, 4, 0xbe), On(i, 5, 0x7c), On(i, 6, 0x6e), On(i, 7, 0x4b))
  {
    hide On;
  }

  lemma SumAdd3(i: bv8)
    ensures Sum3(i) == Add8(On(i, 0, 0x30), On(i, 1, 0x60), On(i, 2, 0x98), On(i, 3, 0x68),
      On(i, 4, 0x88), On(i, 5, 0x11), On(i, 6, 0x7a), On(i, 7, 0xac))
  {
    hide On;
  }

  lemma SumAdd4(i: bv8)
    ensures Sum4(i) == Add8(On(i, 0, 0xc8), On(i, 1, 0x90), On(i, 2, 0x73), On(i, 3, 0xb4),
      On(i, 4, 0x3b), On(i, 5, 0x77), On(i, 6, 0xbd), On(i, 7, 0x29))
  {
    hide On;
  }

  lemma SumAdd5(i: bv8)
    ensures Sum5(i) == Add8(On(i, 0, 0x70), On(i, 1, 0xe1), On(i, 2, 0xe5), On(i, 3, 0xec),
      On(i, 4, 0xff), On(i, 5, 0xfe), On(i, 6, 0xda), On(i, 7, 0x93))
  {
    hide On;
  }

  lemma SumAdd6(i: bv8)
    ensures Sum6(i) == Add8(On(i, 0, 0xd8), On(i, 1, 0xb0), On(i, 2, 0x38), On(i, 3, 0x28),
      On(i, 4, 0x08), On(i, 5, 0x11), On(i, 6, 0x7a), On(i, 7, 0xac))
  {
    hide On;
  }

  lemma SumAdd7(i: bv8)
    ensures Sum7(i) == Add8(On(i, 0, 0x7a), On(i, 1, 0xf5), On(i, 2, 0xc0), On(i, 3, 0xab),
      On(i, 4, 0x7d), On(i, 5, 0xfa), On(i, 6, 0xdf), On(i, 7, 0x95))
  {
    hide On;
  }

  lemma AddChain(a: bv8, b: bv8, c: bv8, d: bv8, e: bv8, f: bv8, g: bv8, h: bv8)
    ensures X8(X8(X8(X8(X8(X8(X8(a, b), c), d), e), f), g), h) == Add8(a, b, c, d, e, f, g, h)
  {
  }

  lemma XorChain(w0: Word, w1: Word, w2: Word, w3: Word, w4: Word, w5: Word, w6: Word, w7: Word)
    ensures Xor(Xor(Xor(Xor(Xor(Xor(Xor(w0, w1), w2), w3), w4), w5), w6), w7)
      == Word(
           Add8(w0.b0, w1.b0, w2.b0, w3.b0, w4.b0, w5.b0, w6.b0, w7.b0),
           Add8(w0.b1, w1.b1, w2.b1, w3.b1, w4.b1, w5.b1, w6.b1, w7.b1),
           Add8(w0.b2, w1.b2, w2.b2, w3.b2, w4.b2, w5.b2, w6.b2, w7.b2),
           Add8(w0.b3, w1.b3, w2.b3, w3.b3, w4.b3, w5.b3, w6.b3, w7.b3),
           Add8(w0.b4, w1.b4, w2.b4, w3.b4, w4.b4, w5.b4, w6.b4, w7.b4),
           Add8(w0.b5, w1.b5, w2.b5, w3.b5, w4.b5, w5.b5, w6.b5, w7.b5),
           Add8(w0.b6, w1.b6, w2.b6, w3.b6, w4.b6, w5.b6, w6.b6, w7.b6),
           Add8(w0.b7, w1.b7, w2.b7, w3.b7, w4.b7, w5.b7, w6.b7, w7.b7))
  {
    AddChain(w0.b0, w1.b0, w2.b0, w3.b0, w4.b0, w5.b0, w6.b0, w7.b0);
    AddChain(w0.b1, w1.b1, w2.b1, w3.b1, w4.b1, w5.b1, w6.b1, w7.b1);
    AddChain(w0.b2, w1.b2, w2.b2, w3.b2, w4.b2, w5.b2, w6.b2, w7.b2);
    AddChain(w0.b3, w1.b3, w2.b3, w3.b3, w4.b3, w5.b3, w6.b3, w7.b3);
    AddChain(w0.b4, w1.b4, w2.b4, w3.b4, w4.b4, w5.b4, w6.b4, w7.b4);
    AddChain(w0.b5, w1.b5, w2.b5, w3.b5, w4.b5, w5.b5, w6.b5, w7.b5);
    AddChain(w0.b6, w1.b6, w2.b6, w3.b6, w4.b6, w5.b6, w6.b6, w7.b6);
    AddChain(w0.b7, w1.b7, w2.b7, w3.b7, w4.b7, w5.b7, w6.b7, w7.b7);
    hide X8, Add8;
  }

  lemma PicksSum(i: bv8)
    ensures Picks(i, 8) == Sum(i)
  {
    hide Picks, Pick, On, Xor, Add8, Power, Sum0, Sum1, Sum2, Sum3, Sum4, Sum5, Sum6, Sum7;
    PicksUp(i);
    XorChain(Pick(i, 0), Pick(i, 1), Pick(i, 2), Pick(i, 3), Pick(i, 4), Pick(i, 5), Pick(i, 6), Pick(i, 7));
    PickByte(i, 0);
    PickByte(i, 1);
    PickByte(i, 2);
    PickByte(i, 3);
    PickByte(i, 4);
    PickByte(i, 5);
    PickByte(i, 6);
    PickByte(i, 7);
    Powers();
    SumAdd0(i);
    SumAdd1(i);
    SumAdd2(i);
    SumAdd3(i);
    SumAdd4(i);
    SumAdd5(i);
    SumAdd6(i);
    SumAdd7(i);
  }

  lemma Powers()
    ensures Power(0) == Word(0xb5, 0xc9, 0x4b, 0xac, 0x29, 0x93, 0xac, 0x95)
    ensures Power(1) == Word(0x6f, 0x2d, 0x6e, 0x7a, 0xbd, 0xda, 0x7a, 0xdf)
    ensures Power(2) == Word(0x02, 0xdf, 0x7c, 0x11, 0x77, 0xfe, 0x11, 0xfa)
    ensures Power(3) == Word(0x81, 0x6f, 0xbe, 0x88, 0x3b, 0xff, 0x08, 0x7d)
    ensures Power(4) == Word(0x75, 0xfe, 0x14, 0x68, 0xb4, 0xec, 0x28, 0xab)
    ensures Power(5) == Word(0x8f, 0xb6, 0x41, 0x98, 0x73, 0xe5, 0x38, 0xc0)
    ensures Power(6) == Word(0xf2, 0x12, 0x6b, 0x60, 0x90, 0xe1, 0xb0, 0xf5)
    ensures Power(7) == Word(0x79, 0x89, 0x35, 0x30, 0xc8, 0x70, 0xd8, 0x7a)
  {
  }

  /** The table holds, for every byte, its remainder by the polynomial after eight bits of division. */
  lemma EntryIsDivision(i: bv8)
    ensures Entry(i) == ShiftN(Low(i), 8)
  {
    hide *;
    var n := 8;
    EntrySum(i);
    PicksSum(i);
    BitsAll(i);
    PicksShift(i, n, n);
  }
}
