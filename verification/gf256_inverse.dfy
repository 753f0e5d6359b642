/** Existence, uniqueness and symmetry of multiplicative inverses in GF(2^8).

    GF(2^8) is a field: every nonzero byte has exactly one inverse, and the
    inverse of the inverse is the byte itself. This module proves these facts
    for the `Mul` of module GF256 by exhaustion. For each nonzero byte v, the
    lemma InverseOfXX (XX is v in hexadecimal) names the inverse w and shows
    that Mul(v, z) == 1 holds exactly when z == w, and that Mul(w, v) == 1. */
module GF256Inverse {
  import opened GF256

  /** w is the only byte whose product with v is 1, and w times v is 1 too. */
  ghost predicate UniqueInverse(v: bv8, w: bv8) {
    Mul(w, v) == 1 && forall z :: Mul(v, z) == 1 <==> z == w
  }

  lemma InverseOf01()
    ensures UniqueInverse(0x01, 0x01)
  {}

  lemma InverseOf02()
    ensures UniqueInverse(0x02, 0x8D)
  {}

  lemma InverseOf03()
    ensures UniqueInverse(0x03, 0xF6)
  {}

  lemma InverseOf04()
    ensures UniqueInverse(0x04, 0xCB)
  {}

  lemma InverseOf05()
    ensures UniqueInverse(0x05, 0x52)
  {}

  lemma InverseOf06()
    ensures UniqueInverse(0x06, 0x7B)
  {}

  lemma InverseOf07()
    ensures UniqueInverse(0x07, 0xD1)
  {}

  lemma InverseOf08()
    ensures UniqueInverse(0x08, 0xE8)
  {}

  lemma InverseOf09()
    ensures UniqueInverse(0x09, 0x4F)
  {}

  lemma InverseOf0A()
    ensures UniqueInverse(0x0A, 0x29)
  {}

  lemma InverseOf0B()
    ensures UniqueInverse(0x0B, 0xC0)
  {}

  lemma InverseOf0C()
    ensures UniqueInverse(0x0C, 0xB0)
  {}

  lemma InverseOf0D()
    ensures UniqueInverse(0x0D, 0xE1)
  {}

  lemma InverseOf0E()
    ensures UniqueInverse(0x0E, 0xE5)
  {}

  lemma InverseOf0F()
    ensures UniqueInverse(0x0F, 0xC7)
  {}

  lemma InverseOf10()
    ensures UniqueInverse(0x10, 0x74)
  {}

  lemma InverseOf11()
    ensures UniqueInverse(0x11, 0xB4)
  {}

  lemma InverseOf12()
    ensures UniqueInverse(0x12, 0xAA)
  {}

  lemma InverseOf13()
    ensures UniqueInverse(0x13, 0x4B)
  {}

  lemma InverseOf14()
    ensures UniqueInverse(0x14, 0x99)
  {}

  lemma InverseOf15()
    ensures UniqueInverse(0x15, 0x2B)
  {}

  lemma InverseOf16()
    ensures UniqueInverse(0x16, 0x60)
  {}

  lemma InverseOf17()
    ensures UniqueInverse(0x17, 0x5F)
  {}

  lemma InverseOf18()
    ensures UniqueInverse(0x18, 0x58)
  {}

  lemma InverseOf19()
    ensures UniqueInverse(0x19, 0x3F)
  {}

  lemma InverseOf1A()
    ensures UniqueInverse(0x1A, 0xFD)
  {}

  lemma InverseOf1B()
    ensures UniqueInverse(0x1B, 0xCC)
  {}

  lemma InverseOf1C()
    ensures UniqueInverse(0x1C, 0xFF)
  {}

  lemma InverseOf1D()
    ensures UniqueInverse(0x1D, 0x40)
  {}

  lemma InverseOf1E()
    ensures UniqueInverse(0x1E, 0xEE)
  {}

  lemma InverseOf1F()
    ensures UniqueInverse(0x1F, 0xB2)
  {}

  lemma InverseOf20()
    ensures UniqueInverse(0x20, 0x3A)
  {}

  lemma InverseOf21()
    ensures UniqueInverse(0x21, 0x6E)
  {}

  lemma InverseOf22()
    ensures UniqueInverse(0x22, 0x5A)
  {}

  lemma InverseOf23()
    ensures UniqueInverse(0x23, 0xF1)
  {}

  lemma InverseOf24()
    ensures UniqueInverse(0x24, 0x55)
  {}

  lemma InverseOf25()
    ensures UniqueInverse(0x25, 0x4D)
  {}

  lemma InverseOf26()
    ensures UniqueInverse(0x26, 0xA8)
  {}

  lemma InverseOf27()
    ensures UniqueInverse(0x27, 0xC9)
  {}

  lemma InverseOf28()
    ensures UniqueInverse(0x28, 0xC1)
  {}

  lemma InverseOf29()
    ensures UniqueInverse(0x29, 0x0A)
  {}

  lemma InverseOf2A()
    ensures UniqueInverse(0x2A, 0x98)
  {}

  lemma InverseOf2B()
    ensures UniqueInverse(0x2B, 0x15)
  {}

  lemma InverseOf2C()
    ensures UniqueInverse(0x2C, 0x30)
  {}

  lemma InverseOf2D()
    ensures UniqueInverse(0x2D, 0x44)
  {}

  lemma InverseOf2E()
    ensures UniqueInverse(0x2E, 0xA2)
  {}

  lemma InverseOf2F()
    ensures UniqueInverse(0x2F, 0xC2)
  {}

  lemma InverseOf30()
    ensures UniqueInverse(0x30, 0x2C)
  {}

  lemma InverseOf31()
    ensures UniqueInverse(0x31, 0x45)
  {}

  lemma InverseOf32()
    ensures UniqueInverse(0x32, 0x92)
  {}

  lemma InverseOf33()
    ensures UniqueInverse(0x33, 0x6C)
  {}

  lemma InverseOf34()
    ensures UniqueInverse(0x34, 0xF3)
  {}

  lemma InverseOf35()
    ensures UniqueInverse(0x35, 0x39)
  {}

  lemma InverseOf36()
    ensures UniqueInverse(0x36, 0x66)
  {}

  lemma InverseOf37()
    ensures UniqueInverse(0x37, 0x42)
  {}

  lemma InverseOf38()
    ensures UniqueInverse(0x38, 0xF2)
  {}

  lemma InverseOf39()
    ensures UniqueInverse(0x39, 0x35)
  {}

  lemma InverseOf3A()
    ensures UniqueInverse(0x3A, 0x20)
  {}

  lemma InverseOf3B()
    ensures UniqueInverse(0x3B, 0x6F)
  {}

  lemma InverseOf3C()
    ensures UniqueInverse(0x3C, 0x77)
  {}

  lemma InverseOf3D()
    ensures UniqueInverse(0x3D, 0xBB)
  {}

  lemma InverseOf3E()
    ensures UniqueInverse(0x3E, 0x59)
  {}

  lemma InverseOf3F()
    ensures UniqueInverse(0x3F, 0x19)
  {}

  lemma InverseOf40()
    ensures UniqueInverse(0x40, 0x1D)
  {}

  lemma InverseOf41()
    ensures UniqueInverse(0x41, 0xFE)
  {}

  lemma InverseOf42()
    ensures UniqueInverse(0x42, 0x37)
  {}

  lemma InverseOf43()
    ensures UniqueInverse(0x43, 0x67)
  {}

  lemma InverseOf44()
    ensures UniqueInverse(0x44, 0x2D)
  {}

  lemma InverseOf45()
    ensures UniqueInverse(0x45, 0x31)
  {}

  lemma InverseOf46()
    ensures UniqueInverse(0x46, 0xF5)
  {}

  lemma InverseOf47()
    ensures UniqueInverse(0x47, 0x69)
  {}

  lemma InverseOf48()
    ensures UniqueInverse(0x48, 0xA7)
  {}

  lemma InverseOf49()
    ensures UniqueInverse(0x49, 0x64)
  {}

  lemma InverseOf4A()
    ensures UniqueInverse(0x4A, 0xAB)
  {}

  lemma InverseOf4B()
    ensures UniqueInverse(0x4B, 0x13)
  {}

  lemma InverseOf4C()
    ensures UniqueInverse(0x4C, 0x54)
  {}

  lemma InverseOf4D()
    ensures UniqueInverse(0x4D, 0x25)
  {}

  lemma InverseOf4E()
    ensures UniqueInverse(0x4E, 0xE9)
  {}

  lemma InverseOf4F()
    ensures UniqueInverse(0x4F, 0x09)
  {}

  lemma InverseOf50()
    ensures UniqueInverse(0x50, 0xED)
  {}

  lemma InverseOf51()
    ensures UniqueInverse(0x51, 0x5C)
  {}

  lemma InverseOf52()
    ensures UniqueInverse(0x52, 0x05)
  {}

  lemma InverseOf53()
    ensures UniqueInverse(0x53, 0xCA)
  {}

  lemma InverseOf54()
    ensures UniqueInverse(0x54, 0x4C)
  {}

  lemma InverseOf55()
    ensures UniqueInverse(0x55, 0x24)
  {}

  lemma InverseOf56()
    ensures UniqueInverse(0x56, 0x87)
  {}

  lemma InverseOf57()
    ensures UniqueInverse(0x57, 0xBF)
  {}

  lemma InverseOf58()
    ensures UniqueInverse(0x58, 0x18)
  {}

  lemma InverseOf59()
    ensures UniqueInverse(0x59, 0x3E)
  {}

  lemma InverseOf5A()
    ensures UniqueInverse(0x5A, 0x22)
  {}

  lemma InverseOf5B()
    ensures UniqueInverse(0x5B, 0xF0)
  {}

  lemma InverseOf5C()
    ensures UniqueInverse(0x5C, 0x51)
  {}

  lemma InverseOf5D()
    ensures UniqueInverse(0x5D, 0xEC)
  {}

  lemma InverseOf5E()
    ensures UniqueInverse(0x5E, 0x61)
  {}

  lemma InverseOf5F()
    ensures UniqueInverse(0x5F, 0x17)
  {}

  lemma InverseOf60()
    ensures UniqueInverse(0x60, 0x16)
  {}

  lemma InverseOf61()
    ensures UniqueInverse(0x61, 0x5E)
  {}

  lemma InverseOf62()
    ensures UniqueInverse(0x62, 0xAF)
  {}

  lemma InverseOf63()
    ensures UniqueInverse(0x63, 0xD3)
  {}

  lemma InverseOf64()
    ensures UniqueInverse(0x64, 0x49)
  {}

  lemma InverseOf65()
    ensures UniqueInverse(0x65, 0xA6)
  {}

  lemma InverseOf66()
    ensures UniqueInverse(0x66, 0x36)
  {}

  lemma InverseOf67()
    ensures UniqueInverse(0x67, 0x43)
  {}

  lemma InverseOf68()
    ensures UniqueInverse(0x68, 0xF4)
  {}

  lemma InverseOf69()
    ensures UniqueInverse(0x69, 0x47)
  {}

  lemma InverseOf6A()
    ensures UniqueInverse(0x6A, 0x91)
  {}

  lemma InverseOf6B()
    ensures UniqueInverse(0x6B, 0xDF)
  {}

  lemma InverseOf6C()
    ensures UniqueInverse(0x6C, 0x33)
  {}

  lemma InverseOf6D()
    ensures UniqueInverse(0x6D, 0x93)
  {}

  lemma InverseOf6E()
    ensures UniqueInverse(0x6E, 0x21)
  {}

  lemma InverseOf6F()
    ensures UniqueInverse(0x6F, 0x3B)
  {}

  lemma InverseOf70()
    ensures UniqueInverse(0x70, 0x79)
  {}

  lemma InverseOf71()
    ensures UniqueInverse(0x71, 0xB7)
  {}

  lemma InverseOf72()
    ensures UniqueInverse(0x72, 0x97)
  {}

  lemma InverseOf73()
    ensures UniqueInverse(0x73, 0x85)
  {}

  lemma InverseOf74()
    ensures UniqueInverse(0x74, 0x10)
  {}

  lemma InverseOf75()
    ensures UniqueInverse(0x75, 0xB5)
  {}

  lemma InverseOf76()
    ensures UniqueInverse(0x76, 0xBA)
  {}

  lemma InverseOf77()
    ensures UniqueInverse(0x77, 0x3C)
  {}

  lemma InverseOf78()
    ensures UniqueInverse(0x78, 0xB6)
  {}

  lemma InverseOf79()
    ensures UniqueInverse(0x79, 0x70)
  {}

  lemma InverseOf7A()
    ensures UniqueInverse(0x7A, 0xD0)
  {}

  lemma InverseOf7B()
    ensures UniqueInverse(0x7B, 0x06)
  {}

  lemma InverseOf7C()
    ensures UniqueInverse(0x7C, 0xA1)
  {}

  lemma InverseOf7D()
    ensures UniqueInverse(0x7D, 0xFA)
  {}

  lemma InverseOf7E()
    ensures UniqueInverse(0x7E, 0x81)
  {}

  lemma InverseOf7F()
    ensures UniqueInverse(0x7F, 0x82)
  {}

  lemma InverseOf80()
    ensures UniqueInverse(0x80, 0x83)
  {}

  lemma InverseOf81()
    ensures UniqueInverse(0x81, 0x7E)
  {}

  lemma InverseOf82()
    ensures UniqueInverse(0x82, 0x7F)
  {}

  lemma InverseOf83()
    ensures UniqueInverse(0x83, 0x80)
  {}

  lemma InverseOf84()
    ensures UniqueInverse(0x84, 0x96)
  {}

  lemma InverseOf85()
    ensures UniqueInverse(0x85, 0x73)
  {}

  lemma InverseOf86()
    ensures UniqueInverse(0x86, 0xBE)
  {}

  lemma InverseOf87()
    ensures UniqueInverse(0x87, 0x56)
  {}

  lemma InverseOf88()
    ensures UniqueInverse(0x88, 0x9B)
  {}

  lemma InverseOf89()
    ensures UniqueInverse(0x89, 0x9E)
  {}

  lemma InverseOf8A()
    ensures UniqueInverse(0x8A, 0x95)
  {}

  lemma InverseOf8B()
    ensures UniqueInverse(0x8B, 0xD9)
  {}

  lemma InverseOf8C()
    ensures UniqueInverse(0x8C, 0xF7)
  {}

  lemma InverseOf8D()
    ensures UniqueInverse(0x8D, 0x02)
  {}

  lemma InverseOf8E()
    ensures UniqueInverse(0x8E, 0xB9)
  {}

  lemma InverseOf8F()
    ensures UniqueInverse(0x8F, 0xA4)
  {}

  lemma InverseOf90()
    ensures UniqueInverse(0x90, 0xDE)
  {}

  lemma InverseOf91()
    ensures UniqueInverse(0x91, 0x6A)
  {}

  lemma InverseOf92()
    ensures UniqueInverse(0x92, 0x32)
  {}

  lemma InverseOf93()
    ensures UniqueInverse(0x93, 0x6D)
  {}

  lemma InverseOf94()
    ensures UniqueInverse(0x94, 0xD8)
  {}

  lemma InverseOf95()
    ensures UniqueInverse(0x95, 0x8A)
  {}

  lemma InverseOf96()
    ensures UniqueInverse(0x96, 0x84)
  {}

  lemma InverseOf97()
    ensures UniqueInverse(0x97, 0x72)
  {}

  lemma InverseOf98()
    ensures UniqueInverse(0x98, 0x2A)
  {}

  lemma InverseOf99()
    ensures UniqueInverse(0x99, 0x14)
  {}

  lemma InverseOf9A()
    ensures UniqueInverse(0x9A, 0x9F)
  {}

  lemma InverseOf9B()
    ensures UniqueInverse(0x9B, 0x88)
  {}

  lemma InverseOf9C()
    ensures UniqueInverse(0x9C, 0xF9)
  {}

  lemma InverseOf9D()
    ensures UniqueInverse(0x9D, 0xDC)
  {}

  lemma InverseOf9E()
    ensures UniqueInverse(0x9E, 0x89)
  {}

  lemma InverseOf9F()
    ensures UniqueInverse(0x9F, 0x9A)
  {}

  lemma InverseOfA0()
    ensures UniqueInverse(0xA0, 0xFB)
  {}

  lemma InverseOfA1()
    ensures UniqueInverse(0xA1, 0x7C)
  {}

  lemma InverseOfA2()
    ensures UniqueInverse(0xA2, 0x2E)
  {}

  lemma InverseOfA3()
    ensures UniqueInverse(0xA3, 0xC3)
  {}

  lemma InverseOfA4()
    ensures UniqueInverse(0xA4, 0x8F)
  {}

  lemma InverseOfA5()
    ensures UniqueInverse(0xA5, 0xB8)
  {}

  lemma InverseOfA6()
    ensures UniqueInverse(0xA6, 0x65)
  {}

  lemma InverseOfA7()
    ensures UniqueInverse(0xA7, 0x48)
  {}

  lemma InverseOfA8()
    ensures UniqueInverse(0xA8, 0x26)
  {}

  lemma InverseOfA9()
    ensures UniqueInverse(0xA9, 0xC8)
  {}

  lemma InverseOfAA()
    ensures UniqueInverse(0xAA, 0x12)
  {}

  lemma InverseOfAB()
    ensures UniqueInverse(0xAB, 0x4A)
  {}

  lemma InverseOfAC()
    ensures UniqueInverse(0xAC, 0xCE)
  {}

  lemma InverseOfAD()
    ensures UniqueInverse(0xAD, 0xE7)
  {}

  lemma InverseOfAE()
    ensures UniqueInverse(0xAE, 0xD2)
  {}

  lemma InverseOfAF()
    ensures UniqueInverse(0xAF, 0x62)
  {}

  lemma InverseOfB0()
    ensures UniqueInverse(0xB0, 0x0C)
  {}

  lemma InverseOfB1()
    ensures UniqueInverse(0xB1, 0xE0)
  {}

  lemma InverseOfB2()
    ensures UniqueInverse(0xB2, 0x1F)
  {}

  lemma InverseOfB3()
    ensures UniqueInverse(0xB3, 0xEF)
  {}

  lemma InverseOfB4()
    ensures UniqueInverse(0xB4, 0x11)
  {}

  lemma InverseOfB5()
    ensures UniqueInverse(0xB5, 0x75)
  {}

  lemma InverseOfB6()
    ensures UniqueInverse(0xB6, 0x78)
  {}

  lemma InverseOfB7()
    ensures UniqueInverse(0xB7, 0x71)
  {}

  lemma InverseOfB8()
    ensures UniqueInverse(0xB8, 0xA5)
  {}

  lemma InverseOfB9()
    ensures UniqueInverse(0xB9, 0x8E)
  {}

  lemma InverseOfBA()
    ensures UniqueInverse(0xBA, 0x76)
  {}

  lemma InverseOfBB()
    ensures UniqueInverse(0xBB, 0x3D)
  {}

  lemma InverseOfBC()
    ensures UniqueInverse(0xBC, 0xBD)
  {}

  lemma InverseOfBD()
    ensures UniqueInverse(0xBD, 0xBC)
  {}

  lemma InverseOfBE()
    ensures UniqueInverse(0xBE, 0x86)
  {}

  lemma InverseOfBF()
    ensures UniqueInverse(0xBF, 0x57)
  {}

  lemma InverseOfC0()
    ensures UniqueInverse(0xC0, 0x0B)
  {}

  lemma InverseOfC1()
    ensures UniqueInverse(0xC1, 0x28)
  {}

  lemma InverseOfC2()
    ensures UniqueInverse(0xC2, 0x2F)
  {}

  lemma InverseOfC3()
    ensures UniqueInverse(0xC3, 0xA3)
  {}

  lemma InverseOfC4()
    ensures UniqueInverse(0xC4, 0xDA)
  {}

  lemma InverseOfC5()
    ensures UniqueInverse(0xC5, 0xD4)
  {}

  lemma InverseOfC6()
    ensures UniqueInverse(0xC6, 0xE4)
  {}

  lemma InverseOfC7()
    ensures UniqueInverse(0xC7, 0x0F)
  {}

  lemma InverseOfC8()
    ensures UniqueInverse(0xC8, 0xA9)
  {}

  lemma InverseOfC9()
    ensures UniqueInverse(0xC9, 0x27)
  {}

  lemma InverseOfCA()
    ensures UniqueInverse(0xCA, 0x53)
  {}

  lemma InverseOfCB()
    ensures UniqueInverse(0xCB, 0x04)
  {}

  lemma InverseOfCC()
    ensures UniqueInverse(0xCC, 0x1B)
  {}

  lemma InverseOfCD()
    ensures UniqueInverse(0xCD, 0xFC)
  {}

  lemma InverseOfCE()
    ensures UniqueInverse(0xCE, 0xAC)
  {}

  lemma InverseOfCF()
    ensures UniqueInverse(0xCF, 0xE6)
  {}

  lemma InverseOfD0()
    ensures UniqueInverse(0xD0, 0x7A)
  {}

  lemma InverseOfD1()
    ensures UniqueInverse(0xD1, 0x07)
  {}

  lemma InverseOfD2()
    ensures UniqueInverse(0xD2, 0xAE)
  {}

  lemma InverseOfD3()
    ensures UniqueInverse(0xD3, 0x63)
  {}

  lemma InverseOfD4()
    ensures UniqueInverse(0xD4, 0xC5)
  {}

  lemma InverseOfD5()
    ensures UniqueInverse(0xD5, 0xDB)
  {}

  lemma InverseOfD6()
    ensures UniqueInverse(0xD6, 0xE2)
  {}

  lemma InverseOfD7()
    ensures UniqueInverse(0xD7, 0xEA)
  {}

  lemma InverseOfD8()
    ensures UniqueInverse(0xD8, 0x94)
  {}

  lemma InverseOfD9()
    ensures UniqueInverse(0xD9, 0x8B)
  {}

  lemma InverseOfDA()
    ensures UniqueInverse(0xDA, 0xC4)
  {}

  lemma InverseOfDB()
    ensures UniqueInverse(0xDB, 0xD5)
  {}

  lemma InverseOfDC()
    ensures UniqueInverse(0xDC, 0x9D)
  {}

  lemma InverseOfDD()
    ensures UniqueInverse(0xDD, 0xF8)
  {}

  lemma InverseOfDE()
    ensures UniqueInverse(0xDE, 0x90)
  {}

  lemma InverseOfDF()
    ensures UniqueInverse(0xDF, 0x6B)
  {}

  lemma InverseOfE0()
    ensures UniqueInverse(0xE0, 0xB1)
  {}

  lemma InverseOfE1()
    ensures UniqueInverse(0xE1, 0x0D)
  {}

  lemma InverseOfE2()
    ensures UniqueInverse(0xE2, 0xD6)
  {}

  lemma InverseOfE3()
    ensures UniqueInverse(0xE3, 0xEB)
  {}

  lemma InverseOfE4()
    ensures UniqueInverse(0xE4, 0xC6)
  {}

  lemma InverseOfE5()
    ensures UniqueInverse(0xE5, 0x0E)
  {}

  lemma InverseOfE6()
    ensures UniqueInverse(0xE6, 0xCF)
  {}

  lemma InverseOfE7()
    ensures UniqueInverse(0xE7, 0xAD)
  {}

  lemma InverseOfE8()
    ensures UniqueInverse(0xE8, 0x08)
  {}

  lemma InverseOfE9()
    ensures UniqueInverse(0xE9, 0x4E)
  {}

  lemma InverseOfEA()
    ensures UniqueInverse(0xEA, 0xD7)
  {}

  lemma InverseOfEB()
    ensures UniqueInverse(0xEB, 0xE3)
  {}

  lemma InverseOfEC()
    ensures UniqueInverse(0xEC, 0x5D)
  {}

  lemma InverseOfED()
    ensures UniqueInverse(0xED, 0x50)
  {}

  lemma InverseOfEE()
    ensures UniqueInverse(0xEE, 0x1E)
  {}

  lemma InverseOfEF()
    ensures UniqueInverse(0xEF, 0xB3)
  {}

  lemma InverseOfF0()
    ensures UniqueInverse(0xF0, 0x5B)
  {}

  lemma InverseOfF1()
    ensures UniqueInverse(0xF1, 0x23)
  {}

  lemma InverseOfF2()
    ensures UniqueInverse(0xF2, 0x38)
  {}

  lemma InverseOfF3()
    ensures UniqueInverse(0xF3, 0x34)
  {}

  lemma InverseOfF4()
    ensures UniqueInverse(0xF4, 0x68)
  {}

  lemma InverseOfF5()
    ensures UniqueInverse(0xF5, 0x46)
  {}

  lemma InverseOfF6()
    ensures UniqueInverse(0xF6, 0x03)
  {}

  lemma InverseOfF7()
    ensures UniqueInverse(0xF7, 0x8C)
  {}

  lemma InverseOfF8()
    ensures UniqueInverse(0xF8, 0xDD)
  {}

  lemma InverseOfF9()
    ensures UniqueInverse(0xF9, 0x9C)
  {}

  lemma InverseOfFA()
    ensures UniqueInverse(0xFA, 0x7D)
  {}

  lemma InverseOfFB()
    ensures UniqueInverse(0xFB, 0xA0)
  {}

  lemma InverseOfFC()
    ensures UniqueInverse(0xFC, 0xCD)
  {}

  lemma InverseOfFD()
    ensures UniqueInverse(0xFD, 0x1A)
  {}

  lemma InverseOfFE()
    ensures UniqueInverse(0xFE, 0x41)
  {}

  lemma InverseOfFF()
    ensures UniqueInverse(0xFF, 0x1C)
  {}

  lemma InverseRow0(v: bv8)
    requires v >> 4 == 0 && v != 0
    ensures exists w :: UniqueInverse(v, w)
  {
    if v == 0x01 {
      InverseOf01();
      assert UniqueInverse(v, 0x01);
    } else if v == 0x02 {
      InverseOf02();
      assert UniqueInverse(v, 0x8D);
    } else if v == 0x03 {
      InverseOf03();
      assert UniqueInverse(v, 0xF6);
    } else if v == 0x04 {
      InverseOf04();
      assert UniqueInverse(v, 0xCB);
    } else if v == 0x05 {
      InverseOf05();
      assert UniqueInverse(v, 0x52);
    } else if v == 0x06 {
      InverseOf06();
      assert UniqueInverse(v, 0x7B);
    } else if v == 0x07 {
      InverseOf07();
      assert UniqueInverse(v, 0xD1);
    } else if v == 0x08 {
      InverseOf08();
      assert UniqueInverse(v, 0xE8);
    } else if v == 0x09 {
      InverseOf09();
      assert UniqueInverse(v, 0x4F);
    } else if v == 0x0A {
      InverseOf0A();
      assert UniqueInverse(v, 0x29);
    } else if v == 0x0B {
      InverseOf0B();
      assert UniqueInverse(v, 0xC0);
    } else if v == 0x0C {
      InverseOf0C();
      assert UniqueInverse(v, 0xB0);
    } else if v == 0x0D {
      InverseOf0D();
      assert UniqueInverse(v, 0xE1);
    } else if v == 0x0E {
      InverseOf0E();
      assert UniqueInverse(v, 0xE5);
    } else if v == 0x0F {
      InverseOf0F();
      assert UniqueInverse(v, 0xC7);
    }
  }

  lemma InverseRow1(v: bv8)
    requires v >> 4 == 1 && v != 0
    ensures exists w :: UniqueInverse(v, w)
  {
    if v == 0x10 {
      InverseOf10();
      assert UniqueInverse(v, 0x74);
    } else if v == 0x11 {
      InverseOf11();
      assert UniqueInverse(v, 0xB4);
    } else if v == 0x12 {
      InverseOf12();
      assert UniqueInverse(v, 0xAA);
    } else if v == 0x13 {
      InverseOf13();
      assert UniqueInverse(v, 0x4B);
    } else if v == 0x14 {
      InverseOf14();
      assert UniqueInverse(v, 0x99);
    } else if v == 0x15 {
      InverseOf15();
      assert UniqueInverse(v, 0x2B);
    } else if v == 0x16 {
      InverseOf16();
      assert UniqueInverse(v, 0x60);
    } else if v == 0x17 {
      InverseOf17();
      assert UniqueInverse(v, 0x5F);
    } else if v == 0x18 {
      InverseOf18();
      assert UniqueInverse(v, 0x58);
    } else if v == 0x19 {
      InverseOf19();
      assert UniqueInverse(v, 0x3F);
    } else if v == 0x1A {
      InverseOf1A();
      assert UniqueInverse(v, 0xFD);
    } else if v == 0x1B {
      InverseOf1B();
      assert UniqueInverse(v, 0xCC);
    } else if v == 0x1C {
      InverseOf1C();
      assert UniqueInverse(v, 0xFF);
    } else if v == 0x1D {
      InverseOf1D();
      assert UniqueInverse(v, 0x40);
    } else if v == 0x1E {
      InverseOf1E();
      assert UniqueInverse(v, 0xEE);
    } else if v == 0x1F {
      InverseOf1F();
      assert UniqueInverse(v, 0xB2);
    }
  }

  lemma InverseRow2(v: bv8)
    requires v >> 4 == 2 && v != 0
    ensures exists w :: UniqueInverse(v, w)
  {
    if v == 0x20 {
      InverseOf20();
      assert UniqueInverse(v, 0x3A);
    } else if v == 0x21 {
      InverseOf21();
      assert UniqueInverse(v, 0x6E);
    } else if v == 0x22 {
      InverseOf22();
      assert UniqueInverse(v, 0x5A);
    } else if v == 0x23 {
      InverseOf23();
      assert UniqueInverse(v, 0xF1);
    } else if v == 0x24 {
      InverseOf24();
      assert UniqueInverse(v, 0x55);
    } else if v == 0x25 {
      InverseOf25();
      assert UniqueInverse(v, 0x4D);
    } else if v == 0x26 {
      InverseOf26();
      assert UniqueInverse(v, 0xA8);
    } else if v == 0x27 {
      InverseOf27();
      assert UniqueInverse(v, 0xC9);
    } else if v == 0x28 {
      InverseOf28();
      assert UniqueInverse(v, 0xC1);
    } else if v == 0x29 {
      InverseOf29();
      assert UniqueInverse(v, 0x0A);
    } else if v == 0x2A {
      InverseOf2A();
      assert UniqueInverse(v, 0x98);
    } else if v == 0x2B {
      InverseOf2B();
      assert UniqueInverse(v, 0x15);
    } else if v == 0x2C {
      InverseOf2C();
      assert UniqueInverse(v, 0x30);
    } else if v == 0x2D {
      InverseOf2D();
      assert UniqueInverse(v, 0x44);
    } else if v == 0x2E {
      InverseOf2E();
      assert UniqueInverse(v, 0xA2);
    } else if v == 0x2F {
      InverseOf2F();
      assert UniqueInverse(v, 0xC2);
    }
  }

  lemma InverseRow3(v: bv8)
    requires v >> 4 == 3 && v != 0
    ensures exists w :: UniqueInverse(v, w)
  {
    if v == 0x30 {
      InverseOf30();
      assert UniqueInverse(v, 0x2C);
    } else if v == 0x31 {
      InverseOf31();
      assert UniqueInverse(v, 0x45);
    } else if v == 0x32 {
      InverseOf32();
      assert UniqueInverse(v, 0x92);
    } else if v == 0x33 {
      InverseOf33();
      assert UniqueInverse(v, 0x6C);
    } else if v == 0x34 {
      InverseOf34();
      assert UniqueInverse(v, 0xF3);
    } else if v == 0x35 {
      InverseOf35();
      assert UniqueInverse(v, 0x39);
    } else if v == 0x36 {
      InverseOf36();
      assert UniqueInverse(v, 0x66);
    } else if v == 0x37 {
      InverseOf37();
      assert UniqueInverse(v, 0x42);
    } else if v == 0x38 {
      InverseOf38();
      assert UniqueInverse(v, 0xF2);
    } else if v == 0x39 {
      InverseOf39();
      assert UniqueInverse(v, 0x35);
    } else if v == 0x3A {
      InverseOf3A();
      assert UniqueInverse(v, 0x20);
    } else if v == 0x3B {
      InverseOf3B();
      assert UniqueInverse(v, 0x6F);
    } else if v == 0x3C {
      InverseOf3C();
      assert UniqueInverse(v, 0x77);
    } else if v == 0x3D {
      InverseOf3D();
      assert UniqueInverse(v, 0xBB);
    } else if v == 0x3E {
      InverseOf3E();
      assert UniqueInverse(v, 0x59);
    } else if v == 0x3F {
      InverseOf3F();
      assert UniqueInverse(v, 0x19);
    }
  }

  lemma InverseRow4(v: bv8)
    requires v >> 4 == 4 && v != 0
    ensures exists w :: UniqueInverse(v, w)
  {
    if v == 0x40 {
      InverseOf40();
      assert UniqueInverse(v, 0x1D);
    } else if v == 0x41 {
      InverseOf41();
      assert UniqueInverse(v, 0xFE);
    } else if v == 0x42 {
      InverseOf42();
      assert UniqueInverse(v, 0x37);
    } else if v == 0x43 {
      InverseOf43();
      assert UniqueInverse(v, 0x67);
    } else if v == 0x44 {
      InverseOf44();
      assert UniqueInverse(v, 0x2D);
    } else if v == 0x45 {
      InverseOf45();
      assert UniqueInverse(v, 0x31);
    } else if v == 0x46 {
      InverseOf46();
      assert UniqueInverse(v, 0xF5);
    } else if v == 0x47 {
      InverseOf47();
      assert UniqueInverse(v, 0x69);
    } else if v == 0x48 {
      InverseOf48();
      assert UniqueInverse(v, 0xA7);
    } else if v == 0x49 {
      InverseOf49();
      assert UniqueInverse(v, 0x64);
    } else if v == 0x4A {
      InverseOf4A();
      assert UniqueInverse(v, 0xAB);
    } else if v == 0x4B {
      InverseOf4B();
      assert UniqueInverse(v, 0x13);
    } else if v == 0x4C {
      InverseOf4C();
      assert UniqueInverse(v, 0x54);
    } else if v == 0x4D {
      InverseOf4D();
      assert UniqueInverse(v, 0x25);
    } else if v == 0x4E {
      InverseOf4E();
      assert UniqueInverse(v, 0xE9);
    } else if v == 0x4F {
      InverseOf4F();
      assert UniqueInverse(v, 0x09);
    }
  }

  lemma InverseRow5(v: bv8)
    requires v >> 4 == 5 && v != 0
    ensures exists w :: UniqueInverse(v, w)
  {
    if v == 0x50 {
      InverseOf50();
      assert UniqueInverse(v, 0xED);
    } else if v == 0x51 {
      InverseOf51();
      assert UniqueInverse(v, 0x5C);
    } else if v == 0x52 {
      InverseOf52();
      assert UniqueInverse(v, 0x05);
    } else if v == 0x53 {
      InverseOf53();
      assert UniqueInverse(v, 0xCA);
    } else if v == 0x54 {
      InverseOf54();
      assert UniqueInverse(v, 0x4C);
    } else if v == 0x55 {
      InverseOf55();
      assert UniqueInverse(v, 0x24);
    } else if v == 0x56 {
      InverseOf56();
      assert UniqueInverse(v, 0x87);
    } else if v == 0x57 {
      InverseOf57();
      assert UniqueInverse(v, 0xBF);
    } else if v == 0x58 {
      InverseOf58();
      assert UniqueInverse(v, 0x18);
    } else if v == 0x59 {
      InverseOf59();
      assert UniqueInverse(v, 0x3E);
    } else if v == 0x5A {
      InverseOf5A();
      assert UniqueInverse(v, 0x22);
    } else if v == 0x5B {
      InverseOf5B();
      assert UniqueInverse(v, 0xF0);
    } else if v == 0x5C {
      InverseOf5C();
      assert UniqueInverse(v, 0x51);
    } else if v == 0x5D {
      InverseOf5D();
      assert UniqueInverse(v, 0xEC);
    } else if v == 0x5E {
      InverseOf5E();
      assert UniqueInverse(v, 0x61);
    } else if v == 0x5F {
      InverseOf5F();
      assert UniqueInverse(v, 0x17);
    }
  }

  lemma InverseRow6(v: bv8)
    requires v >> 4 == 6 && v != 0
    ensures exists w :: UniqueInverse(v, w)
  {
    if v == 0x60 {
      InverseOf60();
      assert UniqueInverse(v, 0x16);
    } else if v == 0x61 {
      InverseOf61();
      assert UniqueInverse(v, 0x5E);
    } else if v == 0x62 {
      InverseOf62();
      assert UniqueInverse(v, 0xAF);
    } else if v == 0x63 {
      InverseOf63();
      assert UniqueInverse(v, 0xD3);
    } else if v == 0x64 {
      InverseOf64();
      assert UniqueInverse(v, 0x49);
    } else if v == 0x65 {
      InverseOf65();
      assert UniqueInverse(v, 0xA6);
    } else if v == 0x66 {
      InverseOf66();
      assert UniqueInverse(v, 0x36);
    } else if v == 0x67 {
      InverseOf67();
      assert UniqueInverse(v, 0x43);
    } else if v == 0x68 {
      InverseOf68();
      assert UniqueInverse(v, 0xF4);
    } else if v == 0x69 {
      InverseOf69();
      assert UniqueInverse(v, 0x47);
    } else if v == 0x6A {
      InverseOf6A();
      assert UniqueInverse(v, 0x91);
    } else if v == 0x6B {
      InverseOf6B();
      assert UniqueInverse(v, 0xDF);
    } else if v == 0x6C {
      InverseOf6C();
      assert UniqueInverse(v, 0x33);
    } else if v == 0x6D {
      InverseOf6D();
      assert UniqueInverse(v, 0x93);
    } else if v == 0x6E {
      InverseOf6E();
      assert UniqueInverse(v, 0x21);
    } else if v == 0x6F {
      InverseOf6F();
      assert UniqueInverse(v, 0x3B);
    }
  }

  lemma InverseRow7(v: bv8)
    requires v >> 4 == 7 && v != 0
    ensures exists w :: UniqueInverse(v, w)
  {
    if v == 0x70 {
      InverseOf70();
      assert UniqueInverse(v, 0x79);
    } else if v == 0x71 {
      InverseOf71();
      assert UniqueInverse(v, 0xB7);
    } else if v == 0x72 {
      InverseOf72();
      assert UniqueInverse(v, 0x97);
    } else if v == 0x73 {
      InverseOf73();
      assert UniqueInverse(v, 0x85);
    } else if v == 0x74 {
      InverseOf74();
      assert UniqueInverse(v, 0x10);
    } else if v == 0x75 {
      InverseOf75();
      assert UniqueInverse(v, 0xB5);
    } else if v == 0x76 {
      InverseOf76();
      assert UniqueInverse(v, 0xBA);
    } else if v == 0x77 {
      InverseOf77();
      assert UniqueInverse(v, 0x3C);
    } else if v == 0x78 {
      InverseOf78();
      assert UniqueInverse(v, 0xB6);
    } else if v == 0x79 {
      InverseOf79();
      assert UniqueInverse(v, 0x70);
    } else if v == 0x7A {
      InverseOf7A();
      assert UniqueInverse(v, 0xD0);
    } else if v == 0x7B {
      InverseOf7B();
      assert UniqueInverse(v, 0x06);
    } else if v == 0x7C {
      InverseOf7C();
      assert UniqueInverse(v, 0xA1);
    } else if v == 0x7D {
      InverseOf7D();
      assert UniqueInverse(v, 0xFA);
    } else if v == 0x7E {
      InverseOf7E();
      assert UniqueInverse(v, 0x81);
    } else if v == 0x7F {
      InverseOf7F();
      assert UniqueInverse(v, 0x82);
    }
  }

  lemma InverseRow8(v: bv8)
    requires v >> 4 == 8 && v != 0
    ensures exists w :: UniqueInverse(v, w)
  {
    if v == 0x80 {
      InverseOf80();
      assert UniqueInverse(v, 0x83);
    } else if v == 0x81 {
      InverseOf81();
      assert UniqueInverse(v, 0x7E);
    } else if v == 0x82 {
      InverseOf82();
      assert UniqueInverse(v, 0x7F);
    } else if v == 0x83 {
      InverseOf83();
      assert UniqueInverse(v, 0x80);
    } else if v == 0x84 {
      InverseOf84();
      assert UniqueInverse(v, 0x96);
    } else if v == 0x85 {
      InverseOf85();
      assert UniqueInverse(v, 0x73);
    } else if v == 0x86 {
      InverseOf86();
      assert UniqueInverse(v, 0xBE);
    } else if v == 0x87 {
      InverseOf87();
      assert UniqueInverse(v, 0x56);
    } else if v == 0x88 {
      InverseOf88();
      assert UniqueInverse(v, 0x9B);
    } else if v == 0x89 {
      InverseOf89();
      assert UniqueInverse(v, 0x9E);
    } else if v == 0x8A {
      InverseOf8A();
      assert UniqueInverse(v, 0x95);
    } else if v == 0x8B {
      InverseOf8B();
      assert UniqueInverse(v, 0xD9);
    } else if v == 0x8C {
      InverseOf8C();
      assert UniqueInverse(v, 0xF7);
    } else if v == 0x8D {
      InverseOf8D();
      assert UniqueInverse(v, 0x02);
    } else if v == 0x8E {
      InverseOf8E();
      assert UniqueInverse(v, 0xB9);
    } else if v == 0x8F {
      InverseOf8F();
      assert UniqueInverse(v, 0xA4);
    }
  }

  lemma InverseRow9(v: bv8)
    requires v >> 4 == 9 && v != 0
    ensures exists w :: UniqueInverse(v, w)
  {
    if v == 0x90 {
      InverseOf90();
      assert UniqueInverse(v, 0xDE);
    } else if v == 0x91 {
      InverseOf91();
      assert UniqueInverse(v, 0x6A);
    } else if v == 0x92 {
      InverseOf92();
      assert UniqueInverse(v, 0x32);
    } else if v == 0x93 {
      InverseOf93();
      assert UniqueInverse(v, 0x6D);
    } else if v == 0x94 {
      InverseOf94();
      assert UniqueInverse(v, 0xD8);
    } else if v == 0x95 {
      InverseOf95();
      assert UniqueInverse(v, 0x8A);
    } else if v == 0x96 {
      InverseOf96();
      assert UniqueInverse(v, 0x84);
    } else if v == 0x97 {
      InverseOf97();
      assert UniqueInverse(v, 0x72);
    } else if v == 0x98 {
      InverseOf98();
      assert UniqueInverse(v, 0x2A);
    } else if v == 0x99 {
      InverseOf99();
      assert UniqueInverse(v, 0x14);
    } else if v == 0x9A {
      InverseOf9A();
      assert UniqueInverse(v, 0x9F);
    } else if v == 0x9B {
      InverseOf9B();
      assert UniqueInverse(v, 0x88);
    } else if v == 0x9C {
      InverseOf9C();
      assert UniqueInverse(v, 0xF9);
    } else if v == 0x9D {
      InverseOf9D();
      assert UniqueInverse(v, 0xDC);
    } else if v == 0x9E {
      InverseOf9E();
      assert UniqueInverse(v, 0x89);
    } else if v == 0x9F {
      InverseOf9F();
      assert UniqueInverse(v, 0x9A);
    }
  }

  lemma InverseRowA(v: bv8)
    requires v >> 4 == 10 && v != 0
    ensures exists w :: UniqueInverse(v, w)
  {
    if v == 0xA0 {
      InverseOfA0();
      assert UniqueInverse(v, 0xFB);
    } else if v == 0xA1 {
      InverseOfA1();
      assert UniqueInverse(v, 0x7C);
    } else if v == 0xA2 {
      InverseOfA2();
      assert UniqueInverse(v, 0x2E);
    } else if v == 0xA3 {
      InverseOfA3();
      assert UniqueInverse(v, 0xC3);
    } else if v == 0xA4 {
      InverseOfA4();
      assert UniqueInverse(v, 0x8F);
    } else if v == 0xA5 {
      InverseOfA5();
      assert UniqueInverse(v, 0xB8);
    } else if v == 0xA6 {
      InverseOfA6();
      assert UniqueInverse(v, 0x65);
    } else if v == 0xA7 {
      InverseOfA7();
      assert UniqueInverse(v, 0x48);
    } else if v == 0xA8 {
      InverseOfA8();
      assert UniqueInverse(v, 0x26);
    } else if v == 0xA9 {
      InverseOfA9();
      assert UniqueInverse(v, 0xC8);
    } else if v == 0xAA {
      InverseOfAA();
      assert UniqueInverse(v, 0x12);
    } else if v == 0xAB {
      InverseOfAB();
      assert UniqueInverse(v, 0x4A);
    } else if v == 0xAC {
      InverseOfAC();
      assert UniqueInverse(v, 0xCE);
    } else if v == 0xAD {
      InverseOfAD();
      assert UniqueInverse(v, 0xE7);
    } else if v == 0xAE {
      InverseOfAE();
      assert UniqueInverse(v, 0xD2);
    } else if v == 0xAF {
      InverseOfAF();
      assert UniqueInverse(v, 0x62);
    }
  }

  lemma InverseRowB(v: bv8)
    requires v >> 4 == 11 && v != 0
    ensures exists w :: UniqueInverse(v, w)
  {
    if v == 0xB0 {
      InverseOfB0();
      assert UniqueInverse(v, 0x0C);
    } else if v == 0xB1 {
      InverseOfB1();
      assert UniqueInverse(v, 0xE0);
    } else if v == 0xB2 {
      InverseOfB2();
      assert UniqueInverse(v, 0x1F);
    } else if v == 0xB3 {
      InverseOfB3();
      assert UniqueInverse(v, 0xEF);
    } else if v == 0xB4 {
      InverseOfB4();
      assert UniqueInverse(v, 0x11);
    } else if v == 0xB5 {
      InverseOfB5();
      assert UniqueInverse(v, 0x75);
    } else if v == 0xB6 {
      InverseOfB6();
      assert UniqueInverse(v, 0x78);
    } else if v == 0xB7 {
      InverseOfB7();
      assert UniqueInverse(v, 0x71);
    } else if v == 0xB8 {
      InverseOfB8();
      assert UniqueInverse(v, 0xA5);
    } else if v == 0xB9 {
      InverseOfB9();
      assert UniqueInverse(v, 0x8E);
    } else if v == 0xBA {
      InverseOfBA();
      assert UniqueInverse(v, 0x76);
    } else if v == 0xBB {
      InverseOfBB();
      assert UniqueInverse(v, 0x3D);
    } else if v == 0xBC {
      InverseOfBC();
      assert UniqueInverse(v, 0xBD);
    } else if v == 0xBD {
      InverseOfBD();
      assert UniqueInverse(v, 0xBC);
    } else if v == 0xBE {
      InverseOfBE();
      assert UniqueInverse(v, 0x86);
    } else if v == 0xBF {
      InverseOfBF();
      assert UniqueInverse(v, 0x57);
    }
  }

  lemma InverseRowC(v: bv8)
    requires v >> 4 == 12 && v != 0
    ensures exists w :: UniqueInverse(v, w)
  {
    if v == 0xC0 {
      InverseOfC0();
      assert UniqueInverse(v, 0x0B);
    } else if v == 0xC1 {
      InverseOfC1();
      assert UniqueInverse(v, 0x28);
    } else if v == 0xC2 {
      InverseOfC2();
      assert UniqueInverse(v, 0x2F);
    } else if v == 0xC3 {
      InverseOfC3();
      assert UniqueInverse(v, 0xA3);
    } else if v == 0xC4 {
      InverseOfC4();
      assert UniqueInverse(v, 0xDA);
    } else if v == 0xC5 {
      InverseOfC5();
      assert UniqueInverse(v, 0xD4);
    } else if v == 0xC6 {
      InverseOfC6();
      assert UniqueInverse(v, 0xE4);
    } else if v == 0xC7 {
      InverseOfC7();
      assert UniqueInverse(v, 0x0F);
    } else if v == 0xC8 {
      InverseOfC8();
      assert UniqueInverse(v, 0xA9);
    } else if v == 0xC9 {
      InverseOfC9();
      assert UniqueInverse(v, 0x27);
    } else if v == 0xCA {
      InverseOfCA();
      assert UniqueInverse(v, 0x53);
    } else if v == 0xCB {
      InverseOfCB();
      assert UniqueInverse(v, 0x04);
    } else if v == 0xCC {
      InverseOfCC();
      assert UniqueInverse(v, 0x1B);
    } else if v == 0xCD {
      InverseOfCD();
      assert UniqueInverse(v, 0xFC);
    } else if v == 0xCE {
      InverseOfCE();
      assert UniqueInverse(v, 0xAC);
    } else if v == 0xCF {
      InverseOfCF();
      assert UniqueInverse(v, 0xE6);
    }
  }

  lemma InverseRowD(v: bv8)
    requires v >> 4 == 13 && v != 0
    ensures exists w :: UniqueInverse(v, w)
  {
    if v == 0xD0 {
      InverseOfD0();
      assert UniqueInverse(v, 0x7A);
    } else if v == 0xD1 {
      InverseOfD1();
      assert UniqueInverse(v, 0x07);
    } else if v == 0xD2 {
      InverseOfD2();
      assert UniqueInverse(v, 0xAE);
    } else if v == 0xD3 {
      InverseOfD3();
      assert UniqueInverse(v, 0x63);
    } else if v == 0xD4 {
      InverseOfD4();
      assert UniqueInverse(v, 0xC5);
    } else if v == 0xD5 {
      InverseOfD5();
      assert UniqueInverse(v, 0xDB);
    } else if v == 0xD6 {
      InverseOfD6();
      assert UniqueInverse(v, 0xE2);
    } else if v == 0xD7 {
      InverseOfD7();
      assert UniqueInverse(v, 0xEA);
    } else if v == 0xD8 {
      InverseOfD8();
      assert UniqueInverse(v, 0x94);
    } else if v == 0xD9 {
      InverseOfD9();
      assert UniqueInverse(v, 0x8B);
    } else if v == 0xDA {
      InverseOfDA();
      assert UniqueInverse(v, 0xC4);
    } else if v == 0xDB {
      InverseOfDB();
      assert UniqueInverse(v, 0xD5);
    } else if v == 0xDC {
      InverseOfDC();
      assert UniqueInverse(v, 0x9D);
    } else if v == 0xDD {
      InverseOfDD();
      assert UniqueInverse(v, 0xF8);
    } else if v == 0xDE {
      InverseOfDE();
      assert UniqueInverse(v, 0x90);
    } else if v == 0xDF {
      InverseOfDF();
      assert UniqueInverse(v, 0x6B);
    }
  }

  lemma InverseRowE(v: bv8)
    requires v >> 4 == 14 && v != 0
    ensures exists w :: UniqueInverse(v, w)
  {
    if v == 0xE0 {
      InverseOfE0();
      assert UniqueInverse(v, 0xB1);
    } else if v == 0xE1 {
      InverseOfE1();
      assert UniqueInverse(v, 0x0D);
    } else if v == 0xE2 {
      InverseOfE2();
      assert UniqueInverse(v, 0xD6);
    } else if v == 0xE3 {
      InverseOfE3();
      assert UniqueInverse(v, 0xEB);
    } else if v == 0xE4 {
      InverseOfE4();
      assert UniqueInverse(v, 0xC6);
    } else if v == 0xE5 {
      InverseOfE5();
      assert UniqueInverse(v, 0x0E);
    } else if v == 0xE6 {
      InverseOfE6();
      assert UniqueInverse(v, 0xCF);
    } else if v == 0xE7 {
      InverseOfE7();
      assert UniqueInverse(v, 0xAD);
    } else if v == 0xE8 {
      InverseOfE8();
      assert UniqueInverse(v, 0x08);
    } else if v == 0xE9 {
      InverseOfE9();
      assert UniqueInverse(v, 0x4E);
    } else if v == 0xEA {
      InverseOfEA();
      assert UniqueInverse(v, 0xD7);
    } else if v == 0xEB {
      InverseOfEB();
      assert UniqueInverse(v, 0xE3);
    } else if v == 0xEC {
      InverseOfEC();
      assert UniqueInverse(v, 0x5D);
    } else if v == 0xED {
      InverseOfED();
      assert UniqueInverse(v, 0x50);
    } else if v == 0xEE {
      InverseOfEE();
      assert UniqueInverse(v, 0x1E);
    } else if v == 0xEF {
      InverseOfEF();
      assert UniqueInverse(v, 0xB3);
    }
  }

  lemma InverseRowF(v: bv8)
    requires v >> 4 == 15 && v != 0
    ensures exists w :: UniqueInverse(v, w)
  {
    if v == 0xF0 {
      InverseOfF0();
      assert UniqueInverse(v, 0x5B);
    } else if v == 0xF1 {
      InverseOfF1();
      assert UniqueInverse(v, 0x23);
    } else if v == 0xF2 {
      InverseOfF2();
      assert UniqueInverse(v, 0x38);
    } else if v == 0xF3 {
      InverseOfF3();
      assert UniqueInverse(v, 0x34);
    } else if v == 0xF4 {
      InverseOfF4();
      assert UniqueInverse(v, 0x68);
    } else if v == 0xF5 {
      InverseOfF5();
      assert UniqueInverse(v, 0x46);
    } else if v == 0xF6 {
      InverseOfF6();
      assert UniqueInverse(v, 0x03);
    } else if v == 0xF7 {
      InverseOfF7();
      assert UniqueInverse(v, 0x8C);
    } else if v == 0xF8 {
      InverseOfF8();
      assert UniqueInverse(v, 0xDD);
    } else if v == 0xF9 {
      InverseOfF9();
      assert UniqueInverse(v, 0x9C);
    } else if v == 0xFA {
      InverseOfFA();
      assert UniqueInverse(v, 0x7D);
    } else if v == 0xFB {
      InverseOfFB();
      assert UniqueInverse(v, 0xA0);
    } else if v == 0xFC {
      InverseOfFC();
      assert UniqueInverse(v, 0xCD);
    } else if v == 0xFD {
      InverseOfFD();
      assert UniqueInverse(v, 0x1A);
    } else if v == 0xFE {
      InverseOfFE();
      assert UniqueInverse(v, 0x41);
    } else if v == 0xFF {
      InverseOfFF();
      assert UniqueInverse(v, 0x1C);
    }
  }

  /** Every nonzero byte has a unique inverse, which it inverts in turn. */
  lemma HasUniqueInverse(v: bv8)
    requires v != 0
    ensures exists w :: UniqueInverse(v, w)
  {
    if v >> 4 == 0 {
      InverseRow0(v);
    } else if v >> 4 == 1 {
      InverseRow1(v);
    } else if v >> 4 == 2 {
      InverseRow2(v);
    } else if v >> 4 == 3 {
      InverseRow3(v);
    } else if v >> 4 == 4 {
      InverseRow4(v);
    } else if v >> 4 == 5 {
      InverseRow5(v);
    } else if v >> 4 == 6 {
      InverseRow6(v);
    } else if v >> 4 == 7 {
      InverseRow7(v);
    } else if v >> 4 == 8 {
      InverseRow8(v);
    } else if v >> 4 == 9 {
      InverseRow9(v);
    } else if v >> 4 == 10 {
      InverseRowA(v);
    } else if v >> 4 == 11 {
      InverseRowB(v);
    } else if v >> 4 == 12 {
      InverseRowC(v);
    } else if v >> 4 == 13 {
      InverseRowD(v);
    } else if v >> 4 == 14 {
      InverseRowE(v);
    } else if v >> 4 == 15 {
      InverseRowF(v);
    } else {
      assert false;
    }
  }

  /** The multiplicative inverse of v in GF(2^8), with 0 for 0. */
  ghost function Inverse(v: bv8): (w: bv8)
    ensures v == 0 ==> w == 0
    ensures v != 0 ==> w != 0 && UniqueInverse(v, w)
  {
    if v == 0 then 0
    else
      HasUniqueInverse(v);
      var w :| UniqueInverse(v, w);
      MulByOne(v);
      w
  }

  /** The inverse of the inverse is the byte itself. */
  lemma InverseIsInvolution(v: bv8)
    ensures Inverse(Inverse(v)) == v
  {
    if v != 0 {
      var w := Inverse(v);
      assert Mul(w, v) == 1;
      assert UniqueInverse(w, Inverse(w));
    }
  }
}
