/** The substitution box is the affine image of the field inverse, section 5.1.1 of FIPS 197. */
module AesSbox {
  import opened Bits
  import opened ByteField
  import opened AesTables
  import opened AesRound

  /** Polynomials modulo x^8 + 1: multiplication by x rotates the bits. */
  const CYCLE: Modulus := 0x101

  /** The affine map: every bit is the sum of five neighbours and a constant bit. */
  function Affine(x: Byte): Byte {
    XorByte(Product(CYCLE, x, 0x1F), 0x63)
  }

  // ---- tables the proof walks through -------------------------------------------------------

  /** The field inverse. */
  function Inverse(b: Byte): Byte {
    if b < 0x10 then Entry(b, 0x00, 0x01, 0x8D, 0xF6, 0xCB, 0x52, 0x7B, 0xD1, 0xE8, 0x4F, 0x29, 0xC0, 0xB0, 0xE1, 0xE5, 0xC7)
    else if b < 0x20 then Entry(b - 0x10, 0x74, 0xB4, 0xAA, 0x4B, 0x99, 0x2B, 0x60, 0x5F, 0x58, 0x3F, 0xFD, 0xCC, 0xFF, 0x40, 0xEE, 0xB2)
    else if b < 0x30 then Entry(b - 0x20, 0x3A, 0x6E, 0x5A, 0xF1, 0x55, 0x4D, 0xA8, 0xC9, 0xC1, 0x0A, 0x98, 0x15, 0x30, 0x44, 0xA2, 0xC2)
    else if b < 0x40 then Entry(b - 0x30, 0x2C, 0x45, 0x92, 0x6C, 0xF3, 0x39, 0x66, 0x42, 0xF2, 0x35, 0x20, 0x6F, 0x77, 0xBB, 0x59, 0x19)
    else if b < 0x50 then Entry(b - 0x40, 0x1D, 0xFE, 0x37, 0x67, 0x2D, 0x31, 0xF5, 0x69, 0xA7, 0x64, 0xAB, 0x13, 0x54, 0x25, 0xE9, 0x09)
    else if b < 0x60 then Entry(b - 0x50, 0xED, 0x5C, 0x05, 0xCA, 0x4C, 0x24, 0x87, 0xBF, 0x18, 0x3E, 0x22, 0xF0, 0x51, 0xEC, 0x61, 0x17)
    else if b < 0x70 then Entry(b - 0x60, 0x16, 0x5E, 0xAF, 0xD3, 0x49, 0xA6, 0x36, 0x43, 0xF4, 0x47, 0x91, 0xDF, 0x33, 0x93, 0x21, 0x3B)
    else if b < 0x80 then Entry(b - 0x70, 0x79, 0xB7, 0x97, 0x85, 0x10, 0xB5, 0xBA, 0x3C, 0xB6, 0x70, 0xD0, 0x06, 0xA1, 0xFA, 0x81, 0x82)
    else if b < 0x90 then Entry(b - 0x80, 0x83, 0x7E, 0x7F, 0x80, 0x96, 0x73, 0xBE, 0x56, 0x9B, 0x9E, 0x95, 0xD9, 0xF7, 0x02, 0xB9, 0xA4)
    else if b < 0xA0 then Entry(b - 0x90, 0xDE, 0x6A, 0x32, 0x6D, 0xD8, 0x8A, 0x84, 0x72, 0x2A, 0x14, 0x9F, 0x88, 0xF9, 0xDC, 0x89, 0x9A)
    else if b < 0xB0 then Entry(b - 0xA0, 0xFB, 0x7C, 0x2E, 0xC3, 0x8F, 0xB8, 0x65, 0x48, 0x26, 0xC8, 0x12, 0x4A, 0xCE, 0xE7, 0xD2, 0x62)
    else if b < 0xC0 then Entry(b - 0xB0, 0x0C, 0xE0, 0x1F, 0xEF, 0x11, 0x75, 0x78, 0x71, 0xA5, 0x8E, 0x76, 0x3D, 0xBD, 0xBC, 0x86, 0x57)
    else if b < 0xD0 then Entry(b - 0xC0, 0x0B, 0x28, 0x2F, 0xA3, 0xDA, 0xD4, 0xE4, 0x0F, 0xA9, 0x27, 0x53, 0x04, 0x1B, 0xFC, 0xAC, 0xE6)
    else if b < 0xE0 then Entry(b - 0xD0, 0x7A, 0x07, 0xAE, 0x63, 0xC5, 0xDB, 0xE2, 0xEA, 0x94, 0x8B, 0xC4, 0xD5, 0x9D, 0xF8, 0x90, 0x6B)
    else if b < 0xF0 then Entry(b - 0xE0, 0xB1, 0x0D, 0xD6, 0xEB, 0xC6, 0x0E, 0xCF, 0xAD, 0x08, 0x4E, 0xD7, 0xE3, 0x5D, 0x50, 0x1E, 0xB3)
    else Entry(b - 0xF0, 0x5B, 0x23, 0x38, 0x34, 0x68, 0x46, 0x03, 0x8C, 0xDD, 0x9C, 0x7D, 0xA0, 0xCD, 0x1A, 0x41, 0x1C)
  }

  /** Doubling in the field. */
  function Twice(v: Byte): Byte {
    if v < 0x80 then 2 * v
    else if v < 0x90 then Entry(v - 0x80, 0x1B, 0x19, 0x1F, 0x1D, 0x13, 0x11, 0x17, 0x15, 0x0B, 0x09, 0x0F, 0x0D, 0x03, 0x01, 0x07, 0x05)
    else if v < 0xA0 then Entry(v - 0x90, 0x3B, 0x39, 0x3F, 0x3D, 0x33, 0x31, 0x37, 0x35, 0x2B, 0x29, 0x2F, 0x2D, 0x23, 0x21, 0x27, 0x25)
    else if v < 0xB0 then Entry(v - 0xA0, 0x5B, 0x59, 0x5F, 0x5D, 0x53, 0x51, 0x57, 0x55, 0x4B, 0x49, 0x4F, 0x4D, 0x43, 0x41, 0x47, 0x45)
    else if v < 0xC0 then Entry(v - 0xB0, 0x7B, 0x79, 0x7F, 0x7D, 0x73, 0x71, 0x77, 0x75, 0x6B, 0x69, 0x6F, 0x6D, 0x63, 0x61, 0x67, 0x65)
    else if v < 0xD0 then Entry(v - 0xC0, 0x9B, 0x99, 0x9F, 0x9D, 0x93, 0x91, 0x97, 0x95, 0x8B, 0x89, 0x8F, 0x8D, 0x83, 0x81, 0x87, 0x85)
    else if v < 0xE0 then Entry(v - 0xD0, 0xBB, 0xB9, 0xBF, 0xBD, 0xB3, 0xB1, 0xB7, 0xB5, 0xAB, 0xA9, 0xAF, 0xAD, 0xA3, 0xA1, 0xA7, 0xA5)
    else if v < 0xF0 then Entry(v - 0xE0, 0xDB, 0xD9, 0xDF, 0xDD, 0xD3, 0xD1, 0xD7, 0xD5, 0xCB, 0xC9, 0xCF, 0xCD, 0xC3, 0xC1, 0xC7, 0xC5)
    else Entry(v - 0xF0, 0xFB, 0xF9, 0xFF, 0xFD, 0xF3, 0xF1, 0xF7, 0xF5, 0xEB, 0xE9, 0xEF, 0xED, 0xE3, 0xE1, 0xE7, 0xE5)
  }

  /** The byte whose double this is. */
  function Halve(b: Byte): Byte {
    if b < 0x10 then Entry(b, 0x00, 0x8D, 0x01, 0x8C, 0x02, 0x8F, 0x03, 0x8E, 0x04, 0x89, 0x05, 0x88, 0x06, 0x8B, 0x07, 0x8A)
    else if b < 0x20 then Entry(b - 0x10, 0x08, 0x85, 0x09, 0x84, 0x0A, 0x87, 0x0B, 0x86, 0x0C, 0x81, 0x0D, 0x80, 0x0E, 0x83, 0x0F, 0x82)
    else if b < 0x30 then Entry(b - 0x20, 0x10, 0x9D, 0x11, 0x9C, 0x12, 0x9F, 0x13, 0x9E, 0x14, 0x99, 0x15, 0x98, 0x16, 0x9B, 0x17, 0x9A)
    else if b < 0x40 then Entry(b - 0x30, 0x18, 0x95, 0x19, 0x94, 0x1A, 0x97, 0x1B, 0x96, 0x1C, 0x91, 0x1D, 0x90, 0x1E, 0x93, 0x1F, 0x92)
    else if b < 0x50 then Entry(b - 0x40, 0x20, 0xAD, 0x21, 0xAC, 0x22, 0xAF, 0x23, 0xAE, 0x24, 0xA9, 0x25, 0xA8, 0x26, 0xAB, 0x27, 0xAA)
    else if b < 0x60 then Entry(b - 0x50, 0x28, 0xA5, 0x29, 0xA4, 0x2A, 0xA7, 0x2B, 0xA6, 0x2C, 0xA1, 0x2D, 0xA0, 0x2E, 0xA3, 0x2F, 0xA2)
    else if b < 0x70 then Entry(b - 0x60, 0x30, 0xBD, 0x31, 0xBC, 0x32, 0xBF, 0x33, 0xBE, 0x34, 0xB9, 0x35, 0xB8, 0x36, 0xBB, 0x37, 0xBA)
    else if b < 0x80 then Entry(b - 0x70, 0x38, 0xB5, 0x39, 0xB4, 0x3A, 0xB7, 0x3B, 0xB6, 0x3C, 0xB1, 0x3D, 0xB0, 0x3E, 0xB3, 0x3F, 0xB2)
    else if b < 0x90 then Entry(b - 0x80, 0x40, 0xCD, 0x41, 0xCC, 0x42, 0xCF, 0x43, 0xCE, 0x44, 0xC9, 0x45, 0xC8, 0x46, 0xCB, 0x47, 0xCA)
    else if b < 0xA0 then Entry(b - 0x90, 0x48, 0xC5, 0x49, 0xC4, 0x4A, 0xC7, 0x4B, 0xC6, 0x4C, 0xC1, 0x4D, 0xC0, 0x4E, 0xC3, 0x4F, 0xC2)
    else if b < 0xB0 then Entry(b - 0xA0, 0x50, 0xDD, 0x51, 0xDC, 0x52, 0xDF, 0x53, 0xDE, 0x54, 0xD9, 0x55, 0xD8, 0x56, 0xDB, 0x57, 0xDA)
    else if b < 0xC0 then Entry(b - 0xB0, 0x58, 0xD5, 0x59, 0xD4, 0x5A, 0xD7, 0x5B, 0xD6, 0x5C, 0xD1, 0x5D, 0xD0, 0x5E, 0xD3, 0x5F, 0xD2)
    else if b < 0xD0 then Entry(b - 0xC0, 0x60, 0xED, 0x61, 0xEC, 0x62, 0xEF, 0x63, 0xEE, 0x64, 0xE9, 0x65, 0xE8, 0x66, 0xEB, 0x67, 0xEA)
    else if b < 0xE0 then Entry(b - 0xD0, 0x68, 0xE5, 0x69, 0xE4, 0x6A, 0xE7, 0x6B, 0xE6, 0x6C, 0xE1, 0x6D, 0xE0, 0x6E, 0xE3, 0x6F, 0xE2)
    else if b < 0xF0 then Entry(b - 0xE0, 0x70, 0xFD, 0x71, 0xFC, 0x72, 0xFF, 0x73, 0xFE, 0x74, 0xF9, 0x75, 0xF8, 0x76, 0xFB, 0x77, 0xFA)
    else Entry(b - 0xF0, 0x78, 0xF5, 0x79, 0xF4, 0x7A, 0xF7, 0x7B, 0xF6, 0x7C, 0xF1, 0x7D, 0xF0, 0x7E, 0xF3, 0x7F, 0xF2)
  }

  /** How many halvings lead to 1, 3, 5, 15 or 17. */
  function Rank(b: Byte): Byte {
    if b < 0x10 then Entry(b, 0x00, 0x00, 0x01, 0x00, 0x02, 0x00, 0x01, 0x12, 0x03, 0x12, 0x01, 0x04, 0x02, 0x28, 0x13, 0x00)
    else if b < 0x20 then Entry(b - 0x10, 0x04, 0x00, 0x13, 0x1F, 0x02, 0x1A, 0x05, 0x28, 0x03, 0x23, 0x29, 0x08, 0x14, 0x2D, 0x01, 0x1C)
    else if b < 0x30 then Entry(b - 0x20, 0x05, 0x1C, 0x01, 0x30, 0x14, 0x26, 0x20, 0x2D, 0x03, 0x09, 0x1B, 0x23, 0x06, 0x08, 0x29, 0x0F)
    else if b < 0x40 then Entry(b - 0x30, 0x04, 0x0C, 0x24, 0x29, 0x2A, 0x15, 0x09, 0x20, 0x15, 0x1E, 0x2E, 0x17, 0x02, 0x10, 0x1D, 0x1A)
    else if b < 0x50 then Entry(b - 0x40, 0x06, 0x1A, 0x1D, 0x26, 0x02, 0x31, 0x31, 0x10, 0x15, 0x18, 0x27, 0x1E, 0x21, 0x0D, 0x2E, 0x2B)
    else if b < 0x60 then Entry(b - 0x50, 0x04, 0x13, 0x0A, 0x0C, 0x1C, 0x29, 0x24, 0x0E, 0x07, 0x20, 0x09, 0x06, 0x2A, 0x24, 0x10, 0x15)
    else if b < 0x70 then Entry(b - 0x60, 0x05, 0x23, 0x0D, 0x12, 0x25, 0x30, 0x2A, 0x17, 0x2B, 0x2D, 0x16, 0x2C, 0x0A, 0x2E, 0x21, 0x26)
    else if b < 0x80 then Entry(b - 0x70, 0x16, 0x0F, 0x1F, 0x0B, 0x2F, 0x2F, 0x18, 0x08, 0x03, 0x27, 0x11, 0x09, 0x1E, 0x19, 0x1B, 0x22)
    else if b < 0x90 then Entry(b - 0x80, 0x07, 0x22, 0x1B, 0x2C, 0x1E, 0x32, 0x27, 0x19, 0x03, 0x11, 0x32, 0x27, 0x32, 0x32, 0x11, 0x32)
    else if b < 0xA0 then Entry(b - 0x90, 0x16, 0x1D, 0x19, 0x0F, 0x28, 0x0B, 0x1F, 0x14, 0x22, 0x08, 0x0E, 0x07, 0x2F, 0x1B, 0x2C, 0x25)
    else if b < 0xB0 then Entry(b - 0xA0, 0x05, 0x1F, 0x14, 0x23, 0x0B, 0x12, 0x0D, 0x28, 0x1D, 0x17, 0x2A, 0x0C, 0x25, 0x19, 0x0F, 0x30)
    else if b < 0xC0 then Entry(b - 0xB0, 0x08, 0x26, 0x21, 0x18, 0x0A, 0x0E, 0x07, 0x2E, 0x2B, 0x2C, 0x25, 0x2D, 0x11, 0x22, 0x16, 0x2F)
    else if b < 0xD0 then Entry(b - 0xC0, 0x06, 0x07, 0x24, 0x1A, 0x0E, 0x1C, 0x13, 0x0A, 0x26, 0x10, 0x31, 0x31, 0x2B, 0x21, 0x18, 0x31)
    else if b < 0xE0 then Entry(b - 0xD0, 0x2C, 0x2B, 0x2E, 0x21, 0x17, 0x25, 0x2D, 0x0D, 0x0B, 0x16, 0x2F, 0x18, 0x22, 0x1E, 0x27, 0x11)
    else if b < 0xF0 then Entry(b - 0xE0, 0x17, 0x15, 0x10, 0x1D, 0x20, 0x2A, 0x0C, 0x24, 0x30, 0x0F, 0x30, 0x20, 0x19, 0x06, 0x09, 0x1B)
    else Entry(b - 0xF0, 0x04, 0x0D, 0x28, 0x13, 0x12, 0x0C, 0x0A, 0x0B, 0x1F, 0x0E, 0x1A, 0x05, 0x1C, 0x14, 0x23, 0x29)
  }

  /** The linear part of the affine map. */
  function Spread(b: Byte): Byte {
    if b < 0x10 then Entry(b, 0x00, 0x1F, 0x3E, 0x21, 0x7C, 0x63, 0x42, 0x5D, 0xF8, 0xE7, 0xC6, 0xD9, 0x84, 0x9B, 0xBA, 0xA5)
    else if b < 0x20 then Entry(b - 0x10, 0xF1, 0xEE, 0xCF, 0xD0, 0x8D, 0x92, 0xB3, 0xAC, 0x09, 0x16, 0x37, 0x28, 0x75, 0x6A, 0x4B, 0x54)
    else if b < 0x30 then Entry(b - 0x20, 0xE3, 0xFC, 0xDD, 0xC2, 0x9F, 0x80, 0xA1, 0xBE, 0x1B, 0x04, 0x25, 0x3A, 0x67, 0x78, 0x59, 0x46)
    else if b < 0x40 then Entry(b - 0x30, 0x12, 0x0D, 0x2C, 0x33, 0x6E, 0x71, 0x50, 0x4F, 0xEA, 0xF5, 0xD4, 0xCB, 0x96, 0x89, 0xA8, 0xB7)
    else if b < 0x50 then Entry(b - 0x40, 0xC7, 0xD8, 0xF9, 0xE6, 0xBB, 0xA4, 0x85, 0x9A, 0x3F, 0x20, 0x01, 0x1E, 0x43, 0x5C, 0x7D, 0x62)
    else if b < 0x60 then Entry(b - 0x50, 0x36, 0x29, 0x08, 0x17, 0x4A, 0x55, 0x74, 0x6B, 0xCE, 0xD1, 0xF0, 0xEF, 0xB2, 0xAD, 0x8C, 0x93)
    else if b < 0x70 then Entry(b - 0x60, 0x24, 0x3B, 0x1A, 0x05, 0x58, 0x47, 0x66, 0x79, 0xDC, 0xC3, 0xE2, 0xFD, 0xA0, 0xBF, 0x9E, 0x81)
    else if b < 0x80 then Entry(b - 0x70, 0xD5, 0xCA, 0xEB, 0xF4, 0xA9, 0xB6, 0x97, 0x88, 0x2D, 0x32, 0x13, 0x0C, 0x51, 0x4E, 0x6F, 0x70)
    else if b < 0x90 then Entry(b - 0x80, 0x8F, 0x90, 0xB1, 0xAE, 0xF3, 0xEC, 0xCD, 0xD2, 0x77, 0x68, 0x49, 0x56, 0x0B, 0x14, 0x35, 0x2A)
    else if b < 0xA0 then Entry(b - 0x90, 0x7E, 0x61, 0x40, 0x5F, 0x02, 0x1D, 0x3C, 0x23, 0x86, 0x99, 0xB8, 0xA7, 0xFA, 0xE5, 0xC4, 0xDB)
    else if b < 0xB0 then Entry(b - 0xA0, 0x6C, 0x73, 0x52, 0x4D, 0x10, 0x0F, 0x2E, 0x31, 0x94, 0x8B, 0xAA, 0xB5, 0xE8, 0xF7, 0xD6, 0xC9)
    else if b < 0xC0 then Entry(b - 0xB0, 0x9D, 0x82, 0xA3, 0xBC, 0xE1, 0xFE, 0xDF, 0xC0, 0x65, 0x7A, 0x5B, 0x44, 0x19, 0x06, 0x27, 0x38)
    else if b < 0xD0 then Entry(b - 0xC0, 0x48, 0x57, 0x76, 0x69, 0x34, 0x2B, 0x0A, 0x15, 0xB0, 0xAF, 0x8E, 0x91, 0xCC, 0xD3, 0xF2, 0xED)
    else if b < 0xE0 then Entry(b - 0xD0, 0xB9, 0xA6, 0x87, 0x98, 0xC5, 0xDA, 0xFB, 0xE4, 0x41, 0x5E, 0x7F, 0x60, 0x3D, 0x22, 0x03, 0x1C)
    else if b < 0xF0 then Entry(b - 0xE0, 0xAB, 0xB4, 0x95, 0x8A, 0xD7, 0xC8, 0xE9, 0xF6, 0x53, 0x4C, 0x6D, 0x72, 0x2F, 0x30, 0x11, 0x0E)
    else Entry(b - 0xF0, 0x5A, 0x45, 0x64, 0x7B, 0x26, 0x39, 0x18, 0x07, 0xA2, 0xBD, 0x9C, 0x83, 0xDE, 0xC1, 0xE0, 0xFF)
  }

  predicate Start(b: Byte) {
    b == 1 || b == 3 || b == 5 || b == 15 || b == 17
  }

  // ---- the tables agree with each other ------------------------------------------------------

  lemma Halved0(b: Byte)
    requires 0x00 <= b < 0x20 && b != 0
    ensures Twice(Halve(b)) == b && Inverse(Halve(b)) == Twice(Inverse(b)) && Halve(b) != 0
  {
  }

  lemma Halved32(b: Byte)
    requires 0x20 <= b < 0x40 && b != 0
    ensures Twice(Halve(b)) == b && Inverse(Halve(b)) == Twice(Inverse(b)) && Halve(b) != 0
  {
  }

  lemma Halved64(b: Byte)
    requires 0x40 <= b < 0x60 && b != 0
    ensures Twice(Halve(b)) == b && Inverse(Halve(b)) == Twice(Inverse(b)) && Halve(b) != 0
  {
  }

  lemma Halved96(b: Byte)
    requires 0x60 <= b < 0x80 && b != 0
    ensures Twice(Halve(b)) == b && Inverse(Halve(b)) == Twice(Inverse(b)) && Halve(b) != 0
  {
  }

  lemma Halved128(b: Byte)
    requires 0x80 <= b < 0xA0 && b != 0
    ensures Twice(Halve(b)) == b && Inverse(Halve(b)) == Twice(Inverse(b)) && Halve(b) != 0
  {
  }

  lemma Halved160(b: Byte)
    requires 0xA0 <= b < 0xC0 && b != 0
    ensures Twice(Halve(b)) == b && Inverse(Halve(b)) == Twice(Inverse(b)) && Halve(b) != 0
  {
  }

  lemma Halved192(b: Byte)
    requires 0xC0 <= b < 0xE0 && b != 0
    ensures Twice(Halve(b)) == b && Inverse(Halve(b)) == Twice(Inverse(b)) && Halve(b) != 0
  {
  }

  lemma Halved224(b: Byte)
    requires 0xE0 <= b < 0x100 && b != 0
    ensures Twice(Halve(b)) == b && Inverse(Halve(b)) == Twice(Inverse(b)) && Halve(b) != 0
  {
  }

  /** Halving a byte doubles its inverse. */
  lemma HalveFacts(b: Byte)
    requires b != 0
    ensures Twice(Halve(b)) == b && Inverse(Halve(b)) == Twice(Inverse(b)) && Halve(b) != 0
  {
    hide Twice, Halve, Inverse;
    if b < 0x20 {
      Halved0(b);
    } else if b < 0x40 {
      Halved32(b);
    } else if b < 0x60 {
      Halved64(b);
    } else if b < 0x80 {
      Halved96(b);
    } else if b < 0xA0 {
      Halved128(b);
    } else if b < 0xC0 {
      Halved160(b);
    } else if b < 0xE0 {
      Halved192(b);
    } else {
      Halved224(b);
    }
  }

  lemma Ranked0(b: Byte)
    requires 0x00 <= b < 0x40 && b != 0
    ensures Start(b) || Rank(Halve(b)) < Rank(b)
  {
  }

  lemma Ranked64(b: Byte)
    requires 0x40 <= b < 0x80 && b != 0
    ensures Start(b) || Rank(Halve(b)) < Rank(b)
  {
  }

  lemma Ranked128(b: Byte)
    requires 0x80 <= b < 0xC0 && b != 0
    ensures Start(b) || Rank(Halve(b)) < Rank(b)
  {
  }

  lemma Ranked192(b: Byte)
    requires 0xC0 <= b < 0x100 && b != 0
    ensures Start(b) || Rank(Halve(b)) < Rank(b)
  {
  }

  /** Halving leads to a start. */
  lemma RankFacts(b: Byte)
    requires b != 0
    ensures Start(b) || Rank(Halve(b)) < Rank(b)
  {
    hide Halve, Rank, Start;
    if b < 0x40 {
      Ranked0(b);
    } else if b < 0x80 {
      Ranked64(b);
    } else if b < 0xC0 {
      Ranked128(b);
    } else {
      Ranked192(b);
    }
  }

  lemma Doubled128(b: Byte)
    requires 0x80 <= b < 0x90
    ensures Twice(b) == 32 * (b / 16 - 8) + 27 - 8 * (b / 4 % 4) + 2 * (b % 4) - 4 * (b % 4 % 2)
  {
  }

  lemma Doubled144(b: Byte)
    requires 0x90 <= b < 0xA0
    ensures Twice(b) == 32 * (b / 16 - 8) + 27 - 8 * (b / 4 % 4) + 2 * (b % 4) - 4 * (b % 4 % 2)
  {
  }

  lemma Doubled160(b: Byte)
    requires 0xA0 <= b < 0xB0
    ensures Twice(b) == 32 * (b / 16 - 8) + 27 - 8 * (b / 4 % 4) + 2 * (b % 4) - 4 * (b % 4 % 2)
  {
  }

  lemma Doubled176(b: Byte)
    requires 0xB0 <= b < 0xC0
    ensures Twice(b) == 32 * (b / 16 - 8) + 27 - 8 * (b / 4 % 4) + 2 * (b % 4) - 4 * (b % 4 % 2)
  {
  }

  lemma Doubled192(b: Byte)
    requires 0xC0 <= b < 0xD0
    ensures Twice(b) == 32 * (b / 16 - 8) + 27 - 8 * (b / 4 % 4) + 2 * (b % 4) - 4 * (b % 4 % 2)
  {
  }

  lemma Doubled208(b: Byte)
    requires 0xD0 <= b < 0xE0
    ensures Twice(b) == 32 * (b / 16 - 8) + 27 - 8 * (b / 4 % 4) + 2 * (b % 4) - 4 * (b % 4 % 2)
  {
  }

  lemma Doubled224(b: Byte)
    requires 0xE0 <= b < 0xF0
    ensures Twice(b) == 32 * (b / 16 - 8) + 27 - 8 * (b / 4 % 4) + 2 * (b % 4) - 4 * (b % 4 % 2)
  {
  }

  lemma Doubled240(b: Byte)
    requires 0xF0 <= b < 0x100
    ensures Twice(b) == 32 * (b / 16 - 8) + 27 - 8 * (b / 4 % 4) + 2 * (b % 4) - 4 * (b % 4 % 2)
  {
  }

  /** The table of doubles in closed form. */
  lemma TwiceForm(b: Byte)
    requires b >= 0x80
    ensures Twice(b) == 32 * (b / 16 - 8) + 27 - 8 * (b / 4 % 4) + 2 * (b % 4) - 4 * (b % 4 % 2)
  {
    hide Twice;
    if b < 0x90 {
      Doubled128(b);
    } else if b < 0xA0 {
      Doubled144(b);
    } else if b < 0xB0 {
      Doubled160(b);
    } else if b < 0xC0 {
      Doubled176(b);
    } else if b < 0xD0 {
      Doubled192(b);
    } else if b < 0xE0 {
      Doubled208(b);
    } else if b < 0xF0 {
      Doubled224(b);
    } else {
      Doubled240(b);
    }
  }

  /** A rotation, then the low five bits flipped if the new low bit of the argument is set. */
  function Turned(s: Byte, bit: nat): int {
    var r := if s < 0x80 then 2 * s else 2 * s - 255;
    if bit == 0 then r else r + 31 - 2 * (r % 32)
  }

  lemma Spreads0(b: Byte)
    requires 0x00 <= b < 0x10
    ensures Spread(b) == Turned(Spread(b / 2), b % 2)
  {
  }

  lemma Spreads16(b: Byte)
    requires 0x10 <= b < 0x20
    ensures Spread(b) == Turned(Spread(b / 2), b % 2)
  {
  }

  lemma Spreads32(b: Byte)
    requires 0x20 <= b < 0x30
    ensures Spread(b) == Turned(Spread(b / 2), b % 2)
  {
  }

  lemma Spreads48(b: Byte)
    requires 0x30 <= b < 0x40
    ensures Spread(b) == Turned(Spread(b / 2), b % 2)
  {
  }

  lemma Spreads64(b: Byte)
    requires 0x40 <= b < 0x50
    ensures Spread(b) == Turned(Spread(b / 2), b % 2)
  {
  }

  lemma Spreads80(b: Byte)
    requires 0x50 <= b < 0x60
    ensures Spread(b) == Turned(Spread(b / 2), b % 2)
  {
  }

  lemma Spreads96(b: Byte)
    requires 0x60 <= b < 0x70
    ensures Spread(b) == Turned(Spread(b / 2), b % 2)
  {
  }

  lemma Spreads112(b: Byte)
    requires 0x70 <= b < 0x80
    ensures Spread(b) == Turned(Spread(b / 2), b % 2)
  {
  }

  lemma Spreads128(b: Byte)
    requires 0x80 <= b < 0x90
    ensures Spread(b) == Turned(Spread(b / 2), b % 2)
  {
  }

  lemma Spreads144(b: Byte)
    requires 0x90 <= b < 0xA0
    ensures Spread(b) == Turned(Spread(b / 2), b % 2)
  {
  }

  lemma Spreads160(b: Byte)
    requires 0xA0 <= b < 0xB0
    ensures Spread(b) == Turned(Spread(b / 2), b % 2)
  {
  }

  lemma Spreads176(b: Byte)
    requires 0xB0 <= b < 0xC0
    ensures Spread(b) == Turned(Spread(b / 2), b % 2)
  {
  }

  lemma Spreads192(b: Byte)
    requires 0xC0 <= b < 0xD0
    ensures Spread(b) == Turned(Spread(b / 2), b % 2)
  {
  }

  lemma Spreads208(b: Byte)
    requires 0xD0 <= b < 0xE0
    ensures Spread(b) == Turned(Spread(b / 2), b % 2)
  {
  }

  lemma Spreads224(b: Byte)
    requires 0xE0 <= b < 0xF0
    ensures Spread(b) == Turned(Spread(b / 2), b % 2)
  {
  }

  lemma Spreads240(b: Byte)
    requires 0xF0 <= b < 0x100
    ensures Spread(b) == Turned(Spread(b / 2), b % 2)
  {
  }

  /** The linear part of a byte from that of its upper seven bits. */
  lemma SpreadForm(b: Byte)
    ensures Spread(b) == Turned(Spread(b / 2), b % 2)
  {
    hide Spread, Turned;
    if b < 0x10 {
      Spreads0(b);
    } else if b < 0x20 {
      Spreads16(b);
    } else if b < 0x30 {
      Spreads32(b);
    } else if b < 0x40 {
      Spreads48(b);
    } else if b < 0x50 {
      Spreads64(b);
    } else if b < 0x60 {
      Spreads80(b);
    } else if b < 0x70 {
      Spreads96(b);
    } else if b < 0x80 {
      Spreads112(b);
    } else if b < 0x90 {
      Spreads128(b);
    } else if b < 0xA0 {
      Spreads144(b);
    } else if b < 0xB0 {
      Spreads160(b);
    } else if b < 0xC0 {
      Spreads176(b);
    } else if b < 0xD0 {
      Spreads192(b);
    } else if b < 0xE0 {
      Spreads208(b);
    } else if b < 0xF0 {
      Spreads224(b);
    } else {
      Spreads240(b);
    }
  }

  /** The constant added: bits 0, 1, 5 and 6 flipped. */
  function Offset(s: Byte): int {
    s + 99 - 2 * (s % 4) - 64 * (s / 32 % 4)
  }

  lemma Boxed0(b: Byte)
    requires 0x00 <= b < 0x10
    ensures SubByte(b) == Offset(Spread(Inverse(b)))
  {
  }

  lemma Boxed16(b: Byte)
    requires 0x10 <= b < 0x20
    ensures SubByte(b) == Offset(Spread(Inverse(b)))
  {
  }

  lemma Boxed32(b: Byte)
    requires 0x20 <= b < 0x30
    ensures SubByte(b) == Offset(Spread(Inverse(b)))
  {
  }

  lemma Boxed48(b: Byte)
    requires 0x30 <= b < 0x40
    ensures SubByte(b) == Offset(Spread(Inverse(b)))
  {
  }

  lemma Boxed64(b: Byte)
    requires 0x40 <= b < 0x50
    ensures SubByte(b) == Offset(Spread(Inverse(b)))
  {
  }

  lemma Boxed80(b: Byte)
    requires 0x50 <= b < 0x60
    ensures SubByte(b) == Offset(Spread(Inverse(b)))
  {
  }

  lemma Boxed96(b: Byte)
    requires 0x60 <= b < 0x70
    ensures SubByte(b) == Offset(Spread(Inverse(b)))
  {
  }

  lemma Boxed112(b: Byte)
    requires 0x70 <= b < 0x80
    ensures SubByte(b) == Offset(Spread(Inverse(b)))
  {
  }

  lemma Boxed128(b: Byte)
    requires 0x80 <= b < 0x90
    ensures SubByte(b) == Offset(Spread(Inverse(b)))
  {
  }

  lemma Boxed144(b: Byte)
    requires 0x90 <= b < 0xA0
    ensures SubByte(b) == Offset(Spread(Inverse(b)))
  {
  }

  lemma Boxed160(b: Byte)
    requires 0xA0 <= b < 0xB0
    ensures SubByte(b) == Offset(Spread(Inverse(b)))
  {
  }

  lemma Boxed176(b: Byte)
    requires 0xB0 <= b < 0xC0
    ensures SubByte(b) == Offset(Spread(Inverse(b)))
  {
  }

  lemma Boxed192(b: Byte)
    requires 0xC0 <= b < 0xD0
    ensures SubByte(b) == Offset(Spread(Inverse(b)))
  {
  }

  lemma Boxed208(b: Byte)
    requires 0xD0 <= b < 0xE0
    ensures SubByte(b) == Offset(Spread(Inverse(b)))
  {
  }

  lemma Boxed224(b: Byte)
    requires 0xE0 <= b < 0xF0
    ensures SubByte(b) == Offset(Spread(Inverse(b)))
  {
  }

  lemma Boxed240(b: Byte)
    requires 0xF0 <= b < 0x100
    ensures SubByte(b) == Offset(Spread(Inverse(b)))
  {
  }

  /** The substitution box through inverse, linear part and constant. */
  lemma BoxForm(b: Byte)
    ensures SubByte(b) == Offset(Spread(Inverse(b)))
  {
    hide SubByte, Spread, Inverse, Offset;
    if b < 0x10 {
      Boxed0(b);
    } else if b < 0x20 {
      Boxed16(b);
    } else if b < 0x30 {
      Boxed32(b);
    } else if b < 0x40 {
      Boxed48(b);
    } else if b < 0x50 {
      Boxed64(b);
    } else if b < 0x60 {
      Boxed80(b);
    } else if b < 0x70 {
      Boxed96(b);
    } else if b < 0x80 {
      Boxed112(b);
    } else if b < 0x90 {
      Boxed128(b);
    } else if b < 0xA0 {
      Boxed144(b);
    } else if b < 0xB0 {
      Boxed160(b);
    } else if b < 0xC0 {
      Boxed176(b);
    } else if b < 0xD0 {
      Boxed192(b);
    } else if b < 0xE0 {
      Boxed208(b);
    } else if b < 0xF0 {
      Boxed224(b);
    } else {
      Boxed240(b);
    }
  }

  // ---- closed forms ------------------------------------------------------------------------------

  lemma Powers(n: nat)
    requires n == 7
    ensures Pow2(n) == 128 && Pow2(n - 2) == 32 && Pow2(n - 3) == 16 && Pow2(n - 5) == 4 && Pow2(n - 6) == 2
  {
    Pow2Values();
    var five := n - 2;
    assert Pow2(n) == 2 * Pow2(n - 1) && Pow2(n - 1) == 2 * Pow2(five);
    assert Pow2(five) == 2 * Pow2(n - 3) && Pow2(n - 3) == 2 * Pow2(n - 4) && Pow2(n - 4) == 2 * Pow2(n - 5);
  }

  /** `m ^ 13` on four bits. */
  lemma FlipThirteen(x: nat, y: nat)
    requires x < 4 && y < 4
    ensures Xor(4 * x + y, 13) == 4 * (3 - x) + (y + 1 - 2 * (y % 2))
  {
    hide Xor, Pow2;
    Powers(7);
    XorSplit(x, y, 3, 1, 2);
    XorLow(x, 2, 4);
    XorLow(y, 1, 2);
  }

  lemma FlipReduction(a: nat, x: nat, y: nat)
    requires a < 8 && x < 4 && y < 4
    ensures Xor(128 + 16 * a + 4 * x + y, 141) == 16 * a + 4 * (3 - x) + (y + 1 - 2 * (y % 2))
  {
    hide Xor, Pow2;
    Powers(7);
    FlipThirteen(x, y);
    XorSplit(a, 4 * x + y, 0, 13, 4);
    XorZero(a);
    XorSplit(1, 16 * a + 4 * x + y, 1, 13, 7);
    XorSelf(1);
  }

  lemma Fields(v: Byte)
    requires v >= 128
    ensures v == 128 + 16 * (v / 16 - 8) + 4 * (v / 4 % 4) + v % 4
  {
    assert v == 4 * (v / 4) + v % 4 && v / 4 == 4 * (v / 4 / 4) + v / 4 % 4 && v / 4 / 4 == v / 16;
  }

  lemma TwiceLow(v: Byte)
    requires v < 128
    ensures Twice(v) == 2 * v
  {
  }

  /** Doubling is the table. */
  lemma TwiceIsDouble(v: Byte)
    ensures Double(AES_POLY, v) == Twice(v)
  {
    hide Xor, Twice;
    if v >= 128 {
      Fields(v);
      FlipReduction(v / 16 - 8, v / 4 % 4, v % 4);
      XorAppend(v, 0, 141, 1);
      TwiceForm(v);
    } else {
      TwiceLow(v);
    }
  }

  /** Doubling modulo x^8 + 1 rotates. */
  lemma CycleForm(s: Byte)
    ensures Double(CYCLE, s) == if s < 0x80 then 2 * s else 2 * s - 255
  {
    hide Xor;
    if s >= 128 {
      hide Pow2;
      Powers(7);
      XorSplit(1, s - 128, 1, 0, 7);
      XorSelf(1);
      XorZero(s - 128);
      XorAppend(s, 0, 128, 1);
    }
  }

  lemma TurnedForm(s: Byte, bit: nat)
    requires bit < 2
    ensures Turned(s, bit) == Xor(Double(CYCLE, s), if bit == 0 then 0 else 31)
  {
    hide Xor, Pow2, Double;
    CycleForm(s);
    Powers(7);
    XorZero(Double(CYCLE, s));
    XorLow(Double(CYCLE, s), 5, 32);
  }

  lemma OffsetForm(s: Byte)
    ensures Offset(s) == Xor(s, 0x63)
  {
    hide Xor, Pow2;
    Powers(7);
    var q, m := s / 32, s % 32;
    XorSplit(q, m, 3, 3, 5);
    XorLow(q, 2, 4);
    XorLow(m, 2, 4);
    assert s == 32 * q + m && m % 4 == s % 4;
  }

  /** The linear part of the affine map is multiplication by 0x1F modulo x^8 + 1. */
  lemma {:induction false} SpreadIsProduct(x: Byte)
    ensures Product(CYCLE, x, 0x1F) == Spread(x)
  {
    hide Xor, Product, Double, Spread, Turned;
    if x == 0 {
      ProductZeroLeft(CYCLE, 0x1F);
      SpreadZero();
    } else {
      var y, bit := x / 2, x % 2;
      SpreadIsProduct(y);
      CycleForm(y);
      ProductDoubleLeft(CYCLE, y, 0x1F);
      XorAppend(y, 0, 0, bit);
      XorZero(y);
      ProductXorLeft(CYCLE, 2 * y, bit, 0x1F);
      ProductZeroLeft(CYCLE, 0x1F);
      ProductUnitLeft(CYCLE, 0x1F);
      TurnedForm(Spread(y), bit);
      SpreadForm(x);
    }
  }

  lemma SpreadZero()
    ensures Spread(0) == 0
  {
  }

  // ---- the inverse ---------------------------------------------------------------------------------

  lemma StartOne()
    ensures Product(AES_POLY, 1, Inverse(1)) == 1
  {
    ProductUnit(AES_POLY, 1);
  }

  lemma TwiceValues()
    ensures Twice(0xF6) == 0xF7
    ensures Twice(0x52) == 0xA4 && Twice(0xA4) == 0x53
    ensures Twice(0xC7) == 0x95 && Twice(0x95) == 0x31 && Twice(0x31) == 0x62
    ensures Twice(0xB4) == 0x73 && Twice(0x73) == 0xE6 && Twice(0xE6) == 0xD7 && Twice(0xD7) == 0xB5
    ensures Inverse(3) == 0xF6 && Inverse(5) == 0x52 && Inverse(15) == 0xC7 && Inverse(17) == 0xB4
  {
  }

  /** The product by an odd number. */
  lemma OddProduct(v: Byte, k: Byte)
    requires k % 2 == 1
    ensures Product(AES_POLY, v, k) == Xor(v, Product(AES_POLY, Twice(v), k / 2))
  {
    hide Xor, Product, Twice, Double;
    ProductStep(AES_POLY, v, k);
    TwiceIsDouble(v);
  }

  lemma EvenProduct(v: Byte, k: Byte)
    requires k % 2 == 0
    ensures Product(AES_POLY, v, k) == Product(AES_POLY, Twice(v), k / 2)
  {
    hide Xor, Product, Twice, Double;
    ProductStep(AES_POLY, v, k);
    TwiceIsDouble(v);
    XorZero(Product(AES_POLY, Twice(v), k / 2));
  }

  /** Neighbouring numbers differ in their last bit. */
  lemma XorNeighbours(k: nat)
    ensures Xor(2 * k, 2 * k + 1) == 1 && Xor(2 * k + 1, 2 * k) == 1
  {
    hide Xor;
    XorAppend(k, 0, k, 1);
    XorAppend(k, 1, k, 0);
    XorSelf(k);
  }

  lemma StartThree()
    ensures Product(AES_POLY, 3, Inverse(3)) == 1
  {
    hide Xor, Product, Twice, Inverse;
    TwiceValues();
    ProductComm(AES_POLY, 3, 0xF6);
    OddProduct(0xF6, 3);
    ProductUnit(AES_POLY, 0xF7);
    XorNeighbours(0x7B);
  }

  lemma StartFive()
    ensures Product(AES_POLY, 5, Inverse(5)) == 1
  {
    hide Xor, Product, Twice, Inverse;
    TwiceValues();
    ProductComm(AES_POLY, 5, 0x52);
    OddProduct(0x52, 5);
    EvenProduct(0xA4, 2);
    ProductUnit(AES_POLY, 0x53);
    XorNeighbours(0x29);
  }

  lemma StartSeventeen()
    ensures Product(AES_POLY, 17, Inverse(17)) == 1
  {
    hide Xor, Product, Twice, Inverse;
    TwiceValues();
    ProductComm(AES_POLY, 17, 0xB4);
    OddProduct(0xB4, 17);
    EvenProduct(0x73, 8);
    EvenProduct(0xE6, 4);
    EvenProduct(0xD7, 2);
    ProductUnit(AES_POLY, 0xB5);
    XorNeighbours(0x5A);
  }

  lemma SmallXors()
    ensures Xor(3, 6) == 5 && Xor(1, 2) == 3 && Xor(9, 5) == 12 && Xor(5, 3) == 6
  {
    XorStep(3, 6);
    XorStep(9, 5);
    XorStep(4, 2);
  }

  lemma XorChain()
    ensures Xor(0xC7, Xor(0x95, Xor(0x31, 0x62))) == 1
  {
    hide Xor, Pow2;
    SmallXors();
    Powers(7);
    XorSplit(3, 1, 6, 2, 4);
    XorSplit(9, 5, 5, 3, 4);
    XorNeighbours(0x63);
  }

  lemma StartFifteen()
    ensures Product(AES_POLY, 15, Inverse(15)) == 1
  {
    hide Xor, Product, Twice, Inverse;
    TwiceValues();
    ProductComm(AES_POLY, 15, 0xC7);
    OddProduct(0xC7, 15);
    OddProduct(0x95, 7);
    OddProduct(0x31, 3);
    ProductUnit(AES_POLY, 0x62);
    XorChain();
  }

  lemma HalveKeeps(b: Byte)
    requires b != 0
    ensures Product(AES_POLY, b, Inverse(b)) == Product(AES_POLY, Halve(b), Inverse(Halve(b)))
  {
    hide Xor, Product, Twice, Inverse, Halve, Double;
    var a := Halve(b);
    HalveFacts(b);
    TwiceIsDouble(a);
    TwiceIsDouble(Inverse(b));
    ProductDoubleLeft(AES_POLY, a, Inverse(b));
    ProductDoubleRight(AES_POLY, a, Inverse(b));
  }

  /** The table holds the field inverse of every non-zero byte. */
  lemma {:induction false} InverseTimes(b: Byte)
    requires b != 0
    ensures Product(AES_POLY, b, Inverse(b)) == 1
    decreases Rank(b)
  {
    hide Product, Inverse, Halve, Rank;
    if b == 1 {
      StartOne();
    } else if b == 3 {
      StartThree();
    } else if b == 5 {
      StartFive();
    } else if b == 15 {
      StartFifteen();
    } else if b == 17 {
      StartSeventeen();
    } else {
      RankFacts(b);
      HalveFacts(b);
      HalveKeeps(b);
      InverseTimes(Halve(b));
    }
  }

  /** Inverses are unique. */
  lemma InverseUnique(b: Byte, w: Byte)
    requires Product(AES_POLY, b, w) == 1
    ensures b != 0 && w == Inverse(b)
  {
    hide Product, Inverse;
    ProductZeroLeft(AES_POLY, w);
    InverseTimes(b);
    ProductComm(AES_POLY, Inverse(b), b);
    ProductAssoc(AES_POLY, Inverse(b), b, w);
    ProductUnitLeft(AES_POLY, w);
    ProductUnit(AES_POLY, Inverse(b));
  }

  lemma BoxIsAffine(b: Byte)
    ensures SubByte(b) == Affine(Inverse(b))
  {
    hide Xor, Product, Inverse, SubByte, Spread, Offset;
    BoxForm(b);
    OffsetForm(Spread(Inverse(b)));
    SpreadIsProduct(Inverse(b));
  }

  lemma InverseZero()
    ensures Inverse(0) == 0
  {
  }

  /** The box maps zero to the affine image of zero and every other byte to that of its field inverse. */
  lemma SboxIsAffineInverse(b: Byte, w: Byte)
    requires if b == 0 then w == 0 else Product(AES_POLY, b, w) == 1
    ensures SubByte(b) == Affine(w)
  {
    hide Product, Inverse, SubByte, Affine;
    BoxIsAffine(b);
    if b == 0 {
      InverseZero();
    } else {
      InverseUnique(b, w);
    }
  }

  /** Every non-zero byte has such an inverse. */
  lemma InverseExists(b: Byte) returns (w: Byte)
    requires b != 0
    ensures Product(AES_POLY, b, w) == 1
  {
    hide Product;
    w := Inverse(b);
    InverseTimes(b);
  }

  // ---- the affine map bit by bit ---------------------------------------------------------------------

  /** `s ^ 128` */
  lemma TopFlipped(s: Byte)
    requires s >= 128
    ensures Xor(s, 128) == s - 128
  {
    hide Xor, Pow2;
    Powers(7);
    XorSplit(1, s - 128, 1, 0, 7);
    XorSelf(1);
    XorZero(s - 128);
  }

  lemma TopBitSet(s: Byte)
    ensures Bit(s, 7) <==> s >= 128
  {
    hide Bit, Xor, Pow2;
    Powers(7);
    if s >= 128 {
      TopFlipped(s);
      BitXor(s, 128, 7);
      BitPow2(7, 7);
      SmallTop(s - 128, 7);
    } else {
      SmallTop(s, 7);
    }
  }

  lemma {:induction false} SmallTop(v: nat, n: nat)
    requires v < Pow2(n)
    ensures !Bit(v, n)
  {
    if n > 0 {
      SmallTop(v / 2, n - 1);
    }
  }

  lemma BitNext(v: nat, i: nat)
    ensures Bit(v, i + 1) == Bit(v / 2, i)
    ensures Bit(v, 0) == (v % 2 == 1)
  {
  }

  /** Doubling modulo x^8 + 1 moves every bit up, the last one to the front. */
  lemma RotateBit(s: Byte, i: nat)
    requires i < 8
    ensures Bit(Double(CYCLE, s), i) == Bit(s, (i + 7) % 8)
  {
    hide Bit, Xor, Pow2, Double;
    CycleForm(s);
    var d := Double(CYCLE, s);
    if i == 0 {
      BitNext(d, 0);
      TopBitSet(s);
    } else {
      BitNext(d, i - 1);
      assert (i + 7) % 8 == i - 1;
      if s >= 128 {
        Powers(7);
        TopFlipped(s);
        BitXor(s, 128, i - 1);
        BitPow2(7, i - 1);
        assert d / 2 == s - 128;
      }
    }
  }

  lemma {:induction false} ShiftBit(s: Byte, k: nat, i: nat)
    requires i < 8 && k <= 8
    ensures Bit(Shift(CYCLE, s, k), i) == Bit(s, (i + 8 - k) % 8)
  {
    hide Bit, Double;
    if k > 0 {
      RotateBit(Shift(CYCLE, s, k - 1), i);
      ShiftBit(s, k - 1, (i + 7) % 8);
      assert ((i + 7) % 8 + 8 - (k - 1)) % 8 == (i + 8 - k) % 8;
    }
  }

  /** The first n terms of the product by 0x1F. */
  function Terms(x: Byte, n: nat): Byte
    decreases n
  {
    if n == 0 then 0 else XorByte(x, Terms(Double(CYCLE, x), n - 1))
  }

  lemma {:induction false} OnesProduct(x: Byte, n: nat, ones: Byte)
    requires ones == Pow2(n) - 1
    ensures Product(CYCLE, x, ones) == Terms(x, n)
    decreases n
  {
    hide Xor, Double;
    if n > 0 {
      OnesProduct(Double(CYCLE, x), n - 1, ones / 2);
      ProductStep(CYCLE, x, ones);
    }
  }

  /** Section 5.1.1: bit i of the image is the sum of bits i, i + 4, i + 5, i + 6 and i + 7 and of bit i of 0x63. */
  lemma AffineBits(x: Byte, i: nat)
    requires i < 8
    ensures Bit(Affine(x), i)
            == (((((Bit(x, i) != Bit(x, (i + 4) % 8)) != Bit(x, (i + 5) % 8)) != Bit(x, (i + 6) % 8))
                 != Bit(x, (i + 7) % 8)) != Bit(0x63, i))
  {
    hide Xor, Bit, Product, Double, Terms;
    var x1, x2, x3, x4 := Shift(CYCLE, x, 1), Shift(CYCLE, x, 2), Shift(CYCLE, x, 3), Shift(CYCLE, x, 4);
    ShiftBit(x, 1, i);
    ShiftBit(x, 2, i);
    ShiftBit(x, 3, i);
    ShiftBit(x, 4, i);
    SumUnfolds(x);
    BitXor(x3, x4, i);
    BitXor(x2, Xor(x3, x4), i);
    BitXor(x1, Xor(x2, Xor(x3, x4)), i);
    BitXor(x, Xor(x1, Xor(x2, Xor(x3, x4))), i);
    BitXor(Product(CYCLE, x, 0x1F), 0x63, i);
  }

  lemma SumUnfolds(x: Byte)
    ensures var x1, x2, x3, x4 := Shift(CYCLE, x, 1), Shift(CYCLE, x, 2), Shift(CYCLE, x, 3), Shift(CYCLE, x, 4);
            Product(CYCLE, x, 0x1F) == Xor(x, Xor(x1, Xor(x2, Xor(x3, x4))))
  {
    hide Xor, Product, Double, Shift, Terms;
    Powers(7);
    OnesProduct(x, 5, 0x1F);
    Shifts(x);
    SumStep(x, 5);
    SumStep(Shift(CYCLE, x, 1), 4);
    SumStep(Shift(CYCLE, x, 2), 3);
    SumStep(Shift(CYCLE, x, 3), 2);
    SumStep(Shift(CYCLE, x, 4), 1);
    XorZero(Shift(CYCLE, x, 4));
  }

  lemma SumStep(x: Byte, n: nat)
    requires n > 0
    ensures Terms(x, n) == Xor(x, Terms(Double(CYCLE, x), n - 1))
    ensures n == 1 ==> Terms(Double(CYCLE, x), n - 1) == 0
  {
    hide Xor, Double;
  }

  lemma Shifts(x: Byte)
    ensures Shift(CYCLE, x, 1) == Double(CYCLE, x)
    ensures Shift(CYCLE, x, 2) == Double(CYCLE, Shift(CYCLE, x, 1))
    ensures Shift(CYCLE, x, 3) == Double(CYCLE, Shift(CYCLE, x, 2))
    ensures Shift(CYCLE, x, 4) == Double(CYCLE, Shift(CYCLE, x, 3))
  {
    hide Double;
  }
}
