// The 256-entry lookup table of the reflected CRC-32 (polynomial 0xEDB88320)
// and the proof that each entry is eight shift/XOR rounds of its index.
// The per-octet lemmas are mechanical case splits: the bit-vector solver
// settles one fixed low octet at a time, and TableStep dispatches on the
// octet, first by its high nibble, then by its low nibble.

module Crc32Table {

  /** The reflected generator polynomial. */
  const POLY: bv32 := 0xEDB88320

  /** One bit of the reflected shift register. */
  function Round(x: bv32): bv32
  {
    if x & 1 == 1 then (x >> 1) ^ POLY else x >> 1
  }

  /** One octet's worth of rounds. */
  function Rounds8(x: bv32): bv32
  {
    Round(Round(Round(Round(Round(Round(Round(Round(x))))))))
  }

  /** The lookup table as 16 rows of 16 entries; entry i is at row i / 16. */
  const CRC_TABLE: seq<seq<bv32>> := [
    [0x00000000, 0x77073096, 0xEE0E612C, 0x990951BA, 0x076DC419, 0x706AF48F, 0xE963A535, 0x9E6495A3, 0x0EDB8832, 0x79DCB8A4, 0xE0D5E91E, 0x97D2D988, 0x09B64C2B, 0x7EB17CBD, 0xE7B82D07, 0x90BF1D91],
    [0x1DB71064, 0x6AB020F2, 0xF3B97148, 0x84BE41DE, 0x1ADAD47D, 0x6DDDE4EB, 0xF4D4B551, 0x83D385C7, 0x136C9856, 0x646BA8C0, 0xFD62F97A, 0x8A65C9EC, 0x14015C4F, 0x63066CD9, 0xFA0F3D63, 0x8D080DF5],
    [0x3B6E20C8, 0x4C69105E, 0xD56041E4, 0xA2677172, 0x3C03E4D1, 0x4B04D447, 0xD20D85FD, 0xA50AB56B, 0x35B5A8FA, 0x42B2986C, 0xDBBBC9D6, 0xACBCF940, 0x32D86CE3, 0x45DF5C75, 0xDCD60DCF, 0xABD13D59],
    [0x26D930AC, 0x51DE003A, 0xC8D75180, 0xBFD06116, 0x21B4F4B5, 0x56B3C423, 0xCFBA9599, 0xB8BDA50F, 0x2802B89E, 0x5F058808, 0xC60CD9B2, 0xB10BE924, 0x2F6F7C87, 0x58684C11, 0xC1611DAB, 0xB6662D3D],
    [0x76DC4190, 0x01DB7106, 0x98D220BC, 0xEFD5102A, 0x71B18589, 0x06B6B51F, 0x9FBFE4A5, 0xE8B8D433, 0x7807C9A2, 0x0F00F934, 0x9609A88E, 0xE10E9818, 0x7F6A0DBB, 0x086D3D2D, 0x91646C97, 0xE6635C01],
    [0x6B6B51F4, 0x1C6C6162, 0x856530D8, 0xF262004E, 0x6C0695ED, 0x1B01A57B, 0x8208F4C1, 0xF50FC457, 0x65B0D9C6, 0x12B7E950, 0x8BBEB8EA, 0xFCB9887C, 0x62DD1DDF, 0x15DA2D49, 0x8CD37CF3, 0xFBD44C65],
    [0x4DB26158, 0x3AB551CE, 0xA3BC0074, 0xD4BB30E2, 0x4ADFA541, 0x3DD895D7, 0xA4D1C46D, 0xD3D6F4FB, 0x4369E96A, 0x346ED9FC, 0xAD678846, 0xDA60B8D0, 0x44042D73, 0x33031DE5, 0xAA0A4C5F, 0xDD0D7CC9],
    [0x5005713C, 0x270241AA, 0xBE0B1010, 0xC90C2086, 0x5768B525, 0x206F85B3, 0xB966D409, 0xCE61E49F, 0x5EDEF90E, 0x29D9C998, 0xB0D09822, 0xC7D7A8B4, 0x59B33D17, 0x2EB40D81, 0xB7BD5C3B, 0xC0BA6CAD],
    [0xEDB88320, 0x9ABFB3B6, 0x03B6E20C, 0x74B1D29A, 0xEAD54739, 0x9DD277AF, 0x04DB2615, 0x73DC1683, 0xE3630B12, 0x94643B84, 0x0D6D6A3E, 0x7A6A5AA8, 0xE40ECF0B, 0x9309FF9D, 0x0A00AE27, 0x7D079EB1],
    [0xF00F9344, 0x8708A3D2, 0x1E01F268, 0x6906C2FE, 0xF762575D, 0x806567CB, 0x196C3671, 0x6E6B06E7, 0xFED41B76, 0x89D32BE0, 0x10DA7A5A, 0x67DD4ACC, 0xF9B9DF6F, 0x8EBEEFF9, 0x17B7BE43, 0x60B08ED5],
    [0xD6D6A3E8, 0xA1D1937E, 0x38D8C2C4, 0x4FDFF252, 0xD1BB67F1, 0xA6BC5767, 0x3FB506DD, 0x48B2364B, 0xD80D2BDA, 0xAF0A1B4C, 0x36034AF6, 0x41047A60, 0xDF60EFC3, 0xA867DF55, 0x316E8EEF, 0x4669BE79],
    [0xCB61B38C, 0xBC66831A, 0x256FD2A0, 0x5268E236, 0xCC0C7795, 0xBB0B4703, 0x220216B9, 0x5505262F, 0xC5BA3BBE, 0xB2BD0B28, 0x2BB45A92, 0x5CB36A04, 0xC2D7FFA7, 0xB5D0CF31, 0x2CD99E8B, 0x5BDEAE1D],
    [0x9B64C2B0, 0xEC63F226, 0x756AA39C, 0x026D930A, 0x9C0906A9, 0xEB0E363F, 0x72076785, 0x05005713, 0x95BF4A82, 0xE2B87A14, 0x7BB12BAE, 0x0CB61B38, 0x92D28E9B, 0xE5D5BE0D, 0x7CDCEFB7, 0x0BDBDF21],
    [0x86D3D2D4, 0xF1D4E242, 0x68DDB3F8, 0x1FDA836E, 0x81BE16CD, 0xF6B9265B, 0x6FB077E1, 0x18B74777, 0x88085AE6, 0xFF0F6A70, 0x66063BCA, 0x11010B5C, 0x8F659EFF, 0xF862AE69, 0x616BFFD3, 0x166CCF45],
    [0xA00AE278, 0xD70DD2EE, 0x4E048354, 0x3903B3C2, 0xA7672661, 0xD06016F7, 0x4969474D, 0x3E6E77DB, 0xAED16A4A, 0xD9D65ADC, 0x40DF0B66, 0x37D83BF0, 0xA9BCAE53, 0xDEBB9EC5, 0x47B2CF7F, 0x30B5FFE9],
    [0xBDBDF21C, 0xCABAC28A, 0x53B39330, 0x24B4A3A6, 0xBAD03605, 0xCDD70693, 0x54DE5729, 0x23D967BF, 0xB3667A2E, 0xC4614AB8, 0x5D681B02, 0x2A6F2B94, 0xB40BBE37, 0xC30C8EA1, 0x5A05DF1B, 0x2D02EF8D]
  ]

  function TableEntry(i: bv32): bv32
    requires i < 256
  {
    CRC_TABLE[(i >> 4) as int][(i & 0xF) as int]
  }

  lemma Step00(crc: bv32, b: bv32) requires b < 256 && (crc ^ b) & 0xFF == 0x00 ensures TableEntry((crc ^ b) & 0xFF) ^ (crc >> 8) == Rounds8(crc ^ b) {}
  lemma Step01(crc: bv32, b: bv32) requires b < 256 && (crc ^ b) & 0xFF == 0x01 ensures TableEntry((crc ^ b) & 0xFF) ^ (crc >> 8) == Rounds8(crc ^ b) {}
  lemma Step02(crc: bv32, b: bv32) requires b < 256 && (crc ^ b) & 0xFF == 0x02 ensures TableEntry((crc ^ b) & 0xFF) ^ (crc >> 8) == Rounds8(crc ^ b) {}
  lemma Step03(crc: bv32, b: bv32) requires b < 256 && (crc ^ b) & 0xFF == 0x03 ensures TableEntry((crc ^ b) & 0xFF) ^ (crc >> 8) == Rounds8(crc ^ b) {}
  lemma Step04(crc: bv32, b: bv32) requires b < 256 && (crc ^ b) & 0xFF == 0x04 ensures TableEntry((crc ^ b) & 0xFF) ^ (crc >> 8) == Rounds8(crc ^ b) {}
  lemma Step05(crc: bv32, b: bv32) requires b < 256 && (crc ^ b) & 0xFF == 0x05 ensures TableEntry((crc ^ b) & 0xFF) ^ (crc >> 8) == Rounds8(crc ^ b) {}
  lemma Step06(crc: bv32, b: bv32) requires b < 256 && (crc ^ b) & 0xFF == 0x06 ensures TableEntry((crc ^ b) & 0xFF) ^ (crc >> 8) == Rounds8(crc ^ b) {}
  lemma Step07(crc: bv32, b: bv32) requires b < 256 && (crc ^ b) & 0xFF == 0x07 ensures TableEntry((crc ^ b) & 0xFF) ^ (crc >> 8) == Rounds8(crc ^ b) {}
  lemma Step08(crc: bv32, b: bv32) requires b < 256 && (crc ^ b) & 0xFF == 0x08 ensures TableEntry((crc ^ b) & 0xFF) ^ (crc >> 8) == Rounds8(crc ^ b) {}
  lemma Step09(crc: bv32, b: bv32) requires b < 256 && (crc ^ b) & 0xFF == 0x09 ensures TableEntry((crc ^ b) & 0xFF) ^ (crc >> 8) == Rounds8(crc ^ b) {}
  lemma Step0A(crc: bv32, b: bv32) requires b < 256 && (crc ^ b) & 0xFF == 0x0A ensures TableEntry((crc ^ b) & 0xFF) ^ (crc >> 8) == Rounds8(crc ^ b) {}
  lemma Step0B(crc: bv32, b: bv32) requires b < 256 && (crc ^ b) & 0xFF == 0x0B ensures TableEntry((crc ^ b) & 0xFF) ^ (crc >> 8) == Rounds8(crc ^ b) {}
  lemma Step0C(crc: bv32, b: bv32) requires b < 256 && (crc ^ b) & 0xFF == 0x0C ensures TableEntry((crc ^ b) & 0xFF) ^ (crc >> 8) == Rounds8(crc ^ b) {}
  lemma Step0D(crc: bv32, b: bv32) requires b < 256 && (crc ^ b) & 0xFF == 0x0D ensures TableEntry((crc ^ b) & 0xFF) ^ (crc >> 8) == Rounds8(crc ^ b) {}
  lemma Step0E(crc: bv32, b: bv32) requires b < 256 && (crc ^ b) & 0xFF == 0x0E ensures TableEntry((crc ^ b) & 0xFF) ^ (crc >> 8) == Rounds8(crc ^ b) {}
  lemma Step0F(crc: bv32, b: bv32) requires b < 256 && (crc ^ b) & 0xFF == 0x0F ensures TableEntry((crc ^ b) & 0xFF) ^ (crc >> 8) == Rounds8(crc ^ b) {}
  lemma Step10(crc: bv32, b: bv32) requires b < 256 && (crc ^ b) & 0xFF == 0x10 ensures TableEntry((crc ^ b) & 0xFF) ^ (crc >> 8) == Rounds8(crc ^ b) {}
  lemma Step11(crc: bv32, b: bv32) requires b < 256 && (crc ^ b) & 0xFF == 0x11 ensures TableEntry((crc ^ b) & 0xFF) ^ (crc >> 8) == Rounds8(crc ^ b) {}
  lemma Step12(crc: bv32, b: bv32) requires b < 256 && (crc ^ b) & 0xFF == 0x12 ensures TableEntry((crc ^ b) & 0xFF) ^ (crc >> 8) == Rounds8(crc ^ b) {}
  lemma Step13(crc: bv32, b: bv32) requires b < 256 && (crc ^ b) & 0xFF == 0x13 ensures TableEntry((crc ^ b) & 0xFF) ^ (crc >> 8) == Rounds8(crc ^ b) {}
  lemma Step14(crc: bv32, b: bv32) requires b < 256 && (crc ^ b) & 0xFF == 0x14 ensures TableEntry((crc ^ b) & 0xFF) ^ (crc >> 8) == Rounds8(crc ^ b) {}
  lemma Step15(crc: bv32, b: bv32) requires b < 256 && (crc ^ b) & 0xFF == 0x15 ensures TableEntry((crc ^ b) & 0xFF) ^ (crc >> 8) == Rounds8(crc ^ b) {}
  lemma Step16(crc: bv32, b: bv32) requires b < 256 && (crc ^ b) & 0xFF == 0x16 ensures TableEntry((crc ^ b) & 0xFF) ^ (crc >> 8) == Rounds8(crc ^ b) {}
  lemma Step17(crc: bv32, b: bv32) requires b < 256 && (crc ^ b) & 0xFF == 0x17 ensures TableEntry((crc ^ b) & 0xFF) ^ (crc >> 8) == Rounds8(crc ^ b) {}
  lemma Step18(crc: bv32, b: bv32) requires b < 256 && (crc ^ b) & 0xFF == 0x18 ensures TableEntry((crc ^ b) & 0xFF) ^ (crc >> 8) == Rounds8(crc ^ b) {}
  lemma Step19(crc: bv32, b: bv32) requires b < 256 && (crc ^ b) & 0xFF == 0x19 ensures TableEntry((crc ^ b) & 0xFF) ^ (crc >> 8) == Rounds8(crc ^ b) {}
  lemma Step1A(crc: bv32, b: bv32) requires b < 256 && (crc ^ b) & 0xFF == 0x1A ensures TableEntry((crc ^ b) & 0xFF) ^ (crc >> 8) == Rounds8(crc ^ b) {}
  lemma Step1B(crc: bv32, b: bv32) requires b < 256 && (crc ^ b) & 0xFF == 0x1B ensures TableEntry((crc ^ b) & 0xFF) ^ (crc >> 8) == Rounds8(crc ^ b) {}
  lemma Step1C(crc: bv32, b: bv32) requires b < 256 && (crc ^ b) & 0xFF == 0x1C ensures TableEntry((crc ^ b) & 0xFF) ^ (crc >> 8) == Rounds8(crc ^ b) {}
  lemma Step1D(crc: bv32, b: bv32) requires b < 256 && (crc ^ b) & 0xFF == 0x1D ensures TableEntry((crc ^ b) & 0xFF) ^ (crc >> 8) == Rounds8(crc ^ b) {}
  lemma Step1E(crc: bv32, b: bv32) requires b < 256 && (crc ^ b) & 0xFF == 0x1E ensures TableEntry((crc ^ b) & 0xFF) ^ (crc >> 8) == Rounds8(crc ^ b) {}
  lemma Step1F(crc: bv32, b: bv32) requires b < 256 && (crc ^ b) & 0xFF == 0x1F ensures TableEntry((crc ^ b) & 0xFF) ^ (crc >> 8) == Rounds8(crc ^ b) {}
  lemma Step20(crc: bv32, b: bv32) requires b < 256 && (crc ^ b) & 0xFF == 0x20 ensures TableEntry((crc ^ b) & 0xFF) ^ (crc >> 8) == Rounds8(crc ^ b) {}
  lemma Step21(crc: bv32, b: bv32) requires b < 256 && (crc ^ b) & 0xFF == 0x21 ensures TableEntry((crc ^ b) & 0xFF) ^ (crc >> 8) == Rounds8(crc ^ b) {}
  lemma Step22(crc: bv32, b: bv32) requires b < 256 && (crc ^ b) & 0xFF == 0x22 ensures TableEntry((crc ^ b) & 0xFF) ^ (crc >> 8) == Rounds8(crc ^ b) {}
  lemma Step23(crc: bv32, b: bv32) requires b < 256 && (crc ^ b) & 0xFF == 0x23 ensures TableEntry((crc ^ b) & 0xFF) ^ (crc >> 8) == Rounds8(crc ^ b) {}
  lemma Step24(crc: bv32, b: bv32) requires b < 256 && (crc ^ b) & 0xFF == 0x24 ensures TableEntry((crc ^ b) & 0xFF) ^ (crc >> 8) == Rounds8(crc ^ b) {}
  lemma Step25(crc: bv32, b: bv32) requires b < 256 && (crc ^ b) & 0xFF == 0x25 ensures TableEntry((crc ^ b) & 0xFF) ^ (crc >> 8) == Rounds8(crc ^ b) {}
  lemma Step26(crc: bv32, b: bv32) requires b < 256 && (crc ^ b) & 0xFF == 0x26 ensures TableEntry((crc ^ b) & 0xFF) ^ (crc >> 8) == Rounds8(crc ^ b) {}
  lemma Step27(crc: bv32, b: bv32) requires b < 256 && (crc ^ b) & 0xFF == 0x27 ensures TableEntry((crc ^ b) & 0xFF) ^ (crc >> 8) == Rounds8(crc ^ b) {}
  lemma Step28(crc: bv32, b: bv32) requires b < 256 && (crc ^ b) & 0xFF == 0x28 ensures TableEntry((crc ^ b) & 0xFF) ^ (crc >> 8) == Rounds8(crc ^ b) {}
  lemma Step29(crc: bv32, b: bv32) requires b < 256 && (crc ^ b) & 0xFF == 0x29 ensures TableEntry((crc ^ b) & 0xFF) ^ (crc >> 8) == Rounds8(crc ^ b) {}
  lemma Step2A(crc: bv32, b: bv32) requires b < 256 && (crc ^ b) & 0xFF == 0x2A ensures TableEntry((crc ^ b) & 0xFF) ^ (crc >> 8) == Rounds8(crc ^ b) {}
  lemma Step2B(crc: bv32, b: bv32) requires b < 256 && (crc ^ b) & 0xFF == 0x2B ensures TableEntry((crc ^ b) & 0xFF) ^ (crc >> 8) == Rounds8(crc ^ b) {}
  lemma Step2C(crc: bv32, b: bv32) requires b < 256 && (crc ^ b) & 0xFF == 0x2C ensures TableEntry((crc ^ b) & 0xFF) ^ (crc >> 8) == Rounds8(crc ^ b) {}
  lemma Step2D(crc: bv32, b: bv32) requires b < 256 && (crc ^ b) & 0xFF == 0x2D ensures TableEntry((crc ^ b) & 0xFF) ^ (crc >> 8) == Rounds8(crc ^ b) {}
  lemma Step2E(crc: bv32, b: bv32) requires b < 256 && (crc ^ b) & 0xFF == 0x2E ensures TableEntry((crc ^ b) & 0xFF) ^ (crc >> 8) == Rounds8(crc ^ b) {}
  lemma Step2F(crc: bv32, b: bv32) requires b < 256 && (crc ^ b) & 0xFF == 0x2F ensures TableEntry((crc ^ b) & 0xFF) ^ (crc >> 8) == Rounds8(crc ^ b) {}
  lemma Step30(crc: bv32, b: bv32) requires b < 256 && (crc ^ b) & 0xFF == 0x30 ensures TableEntry((crc ^ b) & 0xFF) ^ (crc >> 8) == Rounds8(crc ^ b) {}
  lemma Step31(crc: bv32, b: bv32) requires b < 256 && (crc ^ b) & 0xFF == 0x31 ensures TableEntry((crc ^ b) & 0xFF) ^ (crc >> 8) == Rounds8(crc ^ b) {}
  lemma Step32(crc: bv32, b: bv32) requires b < 256 && (crc ^ b) & 0xFF == 0x32 ensures TableEntry((crc ^ b) & 0xFF) ^ (crc >> 8) == Rounds8(crc ^ b) {}
  lemma Step33(crc: bv32, b: bv32) requires b < 256 && (crc ^ b) & 0xFF == 0x33 ensures TableEntry((crc ^ b) & 0xFF) ^ (crc >> 8) == Rounds8(crc ^ b) {}
  lemma Step34(crc: bv32, b: bv32) requires b < 256 && (crc ^ b) & 0xFF == 0x34 ensures TableEntry((crc ^ b) & 0xFF) ^ (crc >> 8) == Rounds8(crc ^ b) {}
  lemma Step35(crc: bv32, b: bv32) requires b < 256 && (crc ^ b) & 0xFF == 0x35 ensures TableEntry((crc ^ b) & 0xFF) ^ (crc >> 8) == Rounds8(crc ^ b) {}
  lemma Step36(crc: bv32, b: bv32) requires b < 256 && (crc ^ b) & 0xFF == 0x36 ensures TableEntry((crc ^ b) & 0xFF) ^ (crc >> 8) == Rounds8(crc ^ b) {}
  lemma Step37(crc: bv32, b: bv32) requires b < 256 && (crc ^ b) & 0xFF == 0x37 ensures TableEntry((crc ^ b) & 0xFF) ^ (crc >> 8) == Rounds8(crc ^ b) {}
  lemma Step38(crc: bv32, b: bv32) requires b < 256 && (crc ^ b) & 0xFF == 0x38 ensures TableEntry((crc ^ b) & 0xFF) ^ (crc >> 8) == Rounds8(crc ^ b) {}
  lemma Step39(crc: bv32, b: bv32) requires b < 256 && (crc ^ b) & 0xFF == 0x39 ensures TableEntry((crc ^ b) & 0xFF) ^ (crc >> 8) == Rounds8(crc ^ b) {}
  lemma Step3A(crc: bv32, b: bv32) requires b < 256 && (crc ^ b) & 0xFF == 0x3A ensures TableEntry((crc ^ b) & 0xFF) ^ (crc >> 8) == Rounds8(crc ^ b) {}
  lemma Step3B(crc: bv32, b: bv32) requires b < 256 && (crc ^ b) & 0xFF == 0x3B ensures TableEntry((crc ^ b) & 0xFF) ^ (crc >> 8) == Rounds8(crc ^ b) {}
  lemma Step3C(crc: bv32, b: bv32) requires b < 256 && (crc ^ b) & 0xFF == 0x3C ensures TableEntry((crc ^ b) & 0xFF) ^ (crc >> 8) == Rounds8(crc ^ b) {}
  lemma Step3D(crc: bv32, b: bv32) requires b < 256 && (crc ^ b) & 0xFF == 0x3D ensures TableEntry((crc ^ b) & 0xFF) ^ (crc >> 8) == Rounds8(crc ^ b) {}
  lemma Step3E(crc: bv32, b: bv32) requires b < 256 && (crc ^ b) & 0xFF == 0x3E ensures TableEntry((crc ^ b) & 0xFF) ^ (crc >> 8) == Rounds8(crc ^ b) {}
  lemma Step3F(crc: bv32, b: bv32) requires b < 256 && (crc ^ b) & 0xFF == 0x3F ensures TableEntry((crc ^ b) & 0xFF) ^ (crc >> 8) == Rounds8(crc ^ b) {}
  lemma Step40(crc: bv32, b: bv32) requires b < 256 && (crc ^ b) & 0xFF == 0x40 ensures TableEntry((crc ^ b) & 0xFF) ^ (crc >> 8) == Rounds8(crc ^ b) {}
  lemma Step41(crc: bv32, b: bv32) requires b < 256 && (crc ^ b) & 0xFF == 0x41 ensures TableEntry((crc ^ b) & 0xFF) ^ (crc >> 8) == Rounds8(crc ^ b) {}
  lemma Step42(crc: bv32, b: bv32) requires b < 256 && (crc ^ b) & 0xFF == 0x42 ensures TableEntry((crc ^ b) & 0xFF) ^ (crc >> 8) == Rounds8(crc ^ b) {}
  lemma Step43(crc: bv32, b: bv32) requires b < 256 && (crc ^ b) & 0xFF == 0x43 ensures TableEntry((crc ^ b) & 0xFF) ^ (crc >> 8) == Rounds8(crc ^ b) {}
  lemma Step44(crc: bv32, b: bv32) requires b < 256 && (crc ^ b) & 0xFF == 0x44 ensures TableEntry((crc ^ b) & 0xFF) ^ (crc >> 8) == Rounds8(crc ^ b) {}
  lemma Step45(crc: bv32, b: bv32) requires b < 256 && (crc ^ b) & 0xFF == 0x45 ensures TableEntry((crc ^ b) & 0xFF) ^ (crc >> 8) == Rounds8(crc ^ b) {}
  lemma Step46(crc: bv32, b: bv32) requires b < 256 && (crc ^ b) & 0xFF == 0x46 ensures TableEntry((crc ^ b) & 0xFF) ^ (crc >> 8) == Rounds8(crc ^ b) {}
  lemma Step47(crc: bv32, b: bv32) requires b < 256 && (crc ^ b) & 0xFF == 0x47 ensures TableEntry((crc ^ b) & 0xFF) ^ (crc >> 8) == Rounds8(crc ^ b) {}
  lemma Step48(crc: bv32, b: bv32) requires b < 256 && (crc ^ b) & 0xFF == 0x48 ensures TableEntry((crc ^ b) & 0xFF) ^ (crc >> 8) == Rounds8(crc ^ b) {}
  lemma Step49(crc: bv32, b: bv32) requires b < 256 && (crc ^ b) & 0xFF == 0x49 ensures TableEntry((crc ^ b) & 0xFF) ^ (crc >> 8) == Rounds8(crc ^ b) {}
  lemma Step4A(crc: bv32, b: bv32) requires b < 256 && (crc ^ b) & 0xFF == 0x4A ensures TableEntry((crc ^ b) & 0xFF) ^ (crc >> 8) == Rounds8(crc ^ b) {}
  lemma Step4B(crc: bv32, b: bv32) requires b < 256 && (crc ^ b) & 0xFF == 0x4B ensures TableEntry((crc ^ b) & 0xFF) ^ (crc >> 8) == Rounds8(crc ^ b) {}
  lemma Step4C(crc: bv32, b: bv32) requires b < 256 && (crc ^ b) & 0xFF == 0x4C ensures TableEntry((crc ^ b) & 0xFF) ^ (crc >> 8) == Rounds8(crc ^ b) {}
  lemma Step4D(crc: bv32, b: bv32) requires b < 256 && (crc ^ b) & 0xFF == 0x4D ensures TableEntry((crc ^ b) & 0xFF) ^ (crc >> 8) == Rounds8(crc ^ b) {}
  lemma Step4E(crc: bv32, b: bv32) requires b < 256 && (crc ^ b) & 0xFF == 0x4E ensures TableEntry((crc ^ b) & 0xFF) ^ (crc >> 8) == Rounds8(crc ^ b) {}
  lemma Step4F(crc: bv32, b: bv32) requires b < 256 && (crc ^ b) & 0xFF == 0x4F ensures TableEntry((crc ^ b) & 0xFF) ^ (crc >> 8) == Rounds8(crc ^ b) {}
  lemma Step50(crc: bv32, b: bv32) requires b < 256 && (crc ^ b) & 0xFF == 0x50 ensures TableEntry((crc ^ b) & 0xFF) ^ (crc >> 8) == Rounds8(crc ^ b) {}
  lemma Step51(crc: bv32, b: bv32) requires b < 256 && (crc ^ b) & 0xFF == 0x51 ensures TableEntry((crc ^ b) & 0xFF) ^ (crc >> 8) == Rounds8(crc ^ b) {}
  lemma Step52(crc: bv32, b: bv32) requires b < 256 && (crc ^ b) & 0xFF == 0x52 ensures TableEntry((crc ^ b) & 0xFF) ^ (crc >> 8) == Rounds8(crc ^ b) {}
  lemma Step53(crc: bv32, b: bv32) requires b < 256 && (crc ^ b) & 0xFF == 0x53 ensures TableEntry((crc ^ b) & 0xFF) ^ (crc >> 8) == Rounds8(crc ^ b) {}
  lemma Step54(crc: bv32, b: bv32) requires b < 256 && (crc ^ b) & 0xFF == 0x54 ensures TableEntry((crc ^ b) & 0xFF) ^ (crc >> 8) == Rounds8(crc ^ b) {}
  lemma Step55(crc: bv32, b: bv32) requires b < 256 && (crc ^ b) & 0xFF == 0x55 ensures TableEntry((crc ^ b) & 0xFF) ^ (crc >> 8) == Rounds8(crc ^ b) {}
  lemma Step56(crc: bv32, b: bv32) requires b < 256 && (crc ^ b) & 0xFF == 0x56 ensures TableEntry((crc ^ b) & 0xFF) ^ (crc >> 8) == Rounds8(crc ^ b) {}
  lemma Step57(crc: bv32, b: bv32) requires b < 256 && (crc ^ b) & 0xFF == 0x57 ensures TableEntry((crc ^ b) & 0xFF) ^ (crc >> 8) == Rounds8(crc ^ b) {}
  lemma Step58(crc: bv32, b: bv32) requires b < 256 && (crc ^ b) & 0xFF == 0x58 ensures TableEntry((crc ^ b) & 0xFF) ^ (crc >> 8) == Rounds8(crc ^ b) {}
  lemma Step59(crc: bv32, b: bv32) requires b < 256 && (crc ^ b) & 0xFF == 0x59 ensures TableEntry((crc ^ b) & 0xFF) ^ (crc >> 8) == Rounds8(crc ^ b) {}
  lemma Step5A(crc: bv32, b: bv32) requires b < 256 && (crc ^ b) & 0xFF == 0x5A ensures TableEntry((crc ^ b) & 0xFF) ^ (crc >> 8) == Rounds8(crc ^ b) {}
  lemma Step5B(crc: bv32, b: bv32) requires b < 256 && (crc ^ b) & 0xFF == 0x5B ensures TableEntry((crc ^ b) & 0xFF) ^ (crc >> 8) == Rounds8(crc ^ b) {}
  lemma Step5C(crc: bv32, b: bv32) requires b < 256 && (crc ^ b) & 0xFF == 0x5C ensures TableEntry((crc ^ b) & 0xFF) ^ (crc >> 8) == Rounds8(crc ^ b) {}
  lemma Step5D(crc: bv32, b: bv32) requires b < 256 && (crc ^ b) & 0xFF == 0x5D ensures TableEntry((crc ^ b) & 0xFF) ^ (crc >> 8) == Rounds8(crc ^ b) {}
  lemma Step5E(crc: bv32, b: bv32) requires b < 256 && (crc ^ b) & 0xFF == 0x5E ensures TableEntry((crc ^ b) & 0xFF) ^ (crc >> 8) == Rounds8(crc ^ b) {}
  lemma Step5F(crc: bv32, b: bv32) requires b < 256 && (crc ^ b) & 0xFF == 0x5F ensures TableEntry((crc ^ b) & 0xFF) ^ (crc >> 8) == Rounds8(crc ^ b) {}
  lemma Step60(crc: bv32, b: bv32) requires b < 256 && (crc ^ b) & 0xFF == 0x60 ensures TableEntry((crc ^ b) & 0xFF) ^ (crc >> 8) == Rounds8(crc ^ b) {}
  lemma Step61(crc: bv32, b: bv32) requires b < 256 && (crc ^ b) & 0xFF == 0x61 ensures TableEntry((crc ^ b) & 0xFF) ^ (crc >> 8) == Rounds8(crc ^ b) {}
  lemma Step62(crc: bv32, b: bv32) requires b < 256 && (crc ^ b) & 0xFF == 0x62 ensures TableEntry((crc ^ b) & 0xFF) ^ (crc >> 8) == Rounds8(crc ^ b) {}
  lemma Step63(crc: bv32, b: bv32) requires b < 256 && (crc ^ b) & 0xFF == 0x63 ensures TableEntry((crc ^ b) & 0xFF) ^ (crc >> 8) == Rounds8(crc ^ b) {}
  lemma Step64(crc: bv32, b: bv32) requires b < 256 && (crc ^ b) & 0xFF == 0x64 ensures TableEntry((crc ^ b) & 0xFF) ^ (crc >> 8) == Rounds8(crc ^ b) {}
  lemma Step65(crc: bv32, b: bv32) requires b < 256 && (crc ^ b) & 0xFF == 0x65 ensures TableEntry((crc ^ b) & 0xFF) ^ (crc >> 8) == Rounds8(crc ^ b) {}
  lemma Step66(crc: bv32, b: bv32) requires b < 256 && (crc ^ b) & 0xFF == 0x66 ensures TableEntry((crc ^ b) & 0xFF) ^ (crc >> 8) == Rounds8(crc ^ b) {}
  lemma Step67(crc: bv32, b: bv32) requires b < 256 && (crc ^ b) & 0xFF == 0x67 ensures TableEntry((crc ^ b) & 0xFF) ^ (crc >> 8) == Rounds8(crc ^ b) {}
  lemma Step68(crc: bv32, b: bv32) requires b < 256 && (crc ^ b) & 0xFF == 0x68 ensures TableEntry((crc ^ b) & 0xFF) ^ (crc >> 8) == Rounds8(crc ^ b) {}
  lemma Step69(crc: bv32, b: bv32) requires b < 256 && (crc ^ b) & 0xFF == 0x69 ensures TableEntry((crc ^ b) & 0xFF) ^ (crc >> 8) == Rounds8(crc ^ b) {}
  lemma Step6A(crc: bv32, b: bv32) requires b < 256 && (crc ^ b) & 0xFF == 0x6A ensures TableEntry((crc ^ b) & 0xFF) ^ (crc >> 8) == Rounds8(crc ^ b) {}
  lemma Step6B(crc: bv32, b: bv32) requires b < 256 && (crc ^ b) & 0xFF == 0x6B ensures TableEntry((crc ^ b) & 0xFF) ^ (crc >> 8) == Rounds8(crc ^ b) {}
  lemma Step6C(crc: bv32, b: bv32) requires b < 256 && (crc ^ b) & 0xFF == 0x6C ensures TableEntry((crc ^ b) & 0xFF) ^ (crc >> 8) == Rounds8(crc ^ b) {}
  lemma Step6D(crc: bv32, b: bv32) requires b < 256 && (crc ^ b) & 0xFF == 0x6D ensures TableEntry((crc ^ b) & 0xFF) ^ (crc >> 8) == Rounds8(crc ^ b) {}
  lemma Step6E(crc: bv32, b: bv32) requires b < 256 && (crc ^ b) & 0xFF == 0x6E ensures TableEntry((crc ^ b) & 0xFF) ^ (crc >> 8) == Rounds8(crc ^ b) {}
  lemma Step6F(crc: bv32, b: bv32) requires b < 256 && (crc ^ b) & 0xFF == 0x6F ensures TableEntry((crc ^ b) & 0xFF) ^ (crc >> 8) == Rounds8(crc ^ b) {}
  lemma Step70(crc: bv32, b: bv32) requires b < 256 && (crc ^ b) & 0xFF == 0x70 ensures TableEntry((crc ^ b) & 0xFF) ^ (crc >> 8) == Rounds8(crc ^ b) {}
  lemma Step71(crc: bv32, b: bv32) requires b < 256 && (crc ^ b) & 0xFF == 0x71 ensures TableEntry((crc ^ b) & 0xFF) ^ (crc >> 8) == Rounds8(crc ^ b) {}
  lemma Step72(crc: bv32, b: bv32) requires b < 256 && (crc ^ b) & 0xFF == 0x72 ensures TableEntry((crc ^ b) & 0xFF) ^ (crc >> 8) == Rounds8(crc ^ b) {}
  lemma Step73(crc: bv32, b: bv32) requires b < 256 && (crc ^ b) & 0xFF == 0x73 ensures TableEntry((crc ^ b) & 0xFF) ^ (crc >> 8) == Rounds8(crc ^ b) {}
  lemma Step74(crc: bv32, b: bv32) requires b < 256 && (crc ^ b) & 0xFF == 0x74 ensures TableEntry((crc ^ b) & 0xFF) ^ (crc >> 8) == Rounds8(crc ^ b) {}
  lemma Step75(crc: bv32, b: bv32) requires b < 256 && (crc ^ b) & 0xFF == 0x75 ensures TableEntry((crc ^ b) & 0xFF) ^ (crc >> 8) == Rounds8(crc ^ b) {}
  lemma Step76(crc: bv32, b: bv32) requires b < 256 && (crc ^ b) & 0xFF == 0x76 ensures TableEntry((crc ^ b) & 0xFF) ^ (crc >> 8) == Rounds8(crc ^ b) {}
  lemma Step77(crc: bv32, b: bv32) requires b < 256 && (crc ^ b) & 0xFF == 0x77 ensures TableEntry((crc ^ b) & 0xFF) ^ (crc >> 8) == Rounds8(crc ^ b) {}
  lemma Step78(crc: bv32, b: bv32) requires b < 256 && (crc ^ b) & 0xFF == 0x78 ensures TableEntry((crc ^ b) & 0xFF) ^ (crc >> 8) == Rounds8(crc ^ b) {}
  lemma Step79(crc: bv32, b: bv32) requires b < 256 && (crc ^ b) & 0xFF == 0x79 ensures TableEntry((crc ^ b) & 0xFF) ^ (crc >> 8) == Rounds8(crc ^ b) {}
  lemma Step7A(crc: bv32, b: bv32) requires b < 256 && (crc ^ b) & 0xFF == 0x7A ensures TableEntry((crc ^ b) & 0xFF) ^ (crc >> 8) == Rounds8(crc ^ b) {}
  lemma Step7B(crc: bv32, b: bv32) requires b < 256 && (crc ^ b) & 0xFF == 0x7B ensures TableEntry((crc ^ b) & 0xFF) ^ (crc >> 8) == Rounds8(crc ^ b) {}
  lemma Step7C(crc: bv32, b: bv32) requires b < 256 && (crc ^ b) & 0xFF == 0x7C ensures TableEntry((crc ^ b) & 0xFF) ^ (crc >> 8) == Rounds8(crc ^ b) {}
  lemma Step7D(crc: bv32, b: bv32) requires b < 256 && (crc ^ b) & 0xFF == 0x7D ensures TableEntry((crc ^ b) & 0xFF) ^ (crc >> 8) == Rounds8(crc ^ b) {}
  lemma Step7E(crc: bv32, b: bv32) requires b < 256 && (crc ^ b) & 0xFF == 0x7E ensures TableEntry((crc ^ b) & 0xFF) ^ (crc >> 8) == Rounds8(crc ^ b) {}
  lemma Step7F(crc: bv32, b: bv32) requires b < 256 && (crc ^ b) & 0xFF == 0x7F ensures TableEntry((crc ^ b) & 0xFF) ^ (crc >> 8) == Rounds8(crc ^ b) {}
  lemma Step80(crc: bv32, b: bv32) requires b < 256 && (crc ^ b) & 0xFF == 0x80 ensures TableEntry((crc ^ b) & 0xFF) ^ (crc >> 8) == Rounds8(crc ^ b) {}
  lemma Step81(crc: bv32, b: bv32) requires b < 256 && (crc ^ b) & 0xFF == 0x81 ensures TableEntry((crc ^ b) & 0xFF) ^ (crc >> 8) == Rounds8(crc ^ b) {}
  lemma Step82(crc: bv32, b: bv32) requires b < 256 && (crc ^ b) & 0xFF == 0x82 ensures TableEntry((crc ^ b) & 0xFF) ^ (crc >> 8) == Rounds8(crc ^ b) {}
  lemma Step83(crc: bv32, b: bv32) requires b < 256 && (crc ^ b) & 0xFF == 0x83 ensures TableEntry((crc ^ b) & 0xFF) ^ (crc >> 8) == Rounds8(crc ^ b) {}
  lemma Step84(crc: bv32, b: bv32) requires b < 256 && (crc ^ b) & 0xFF == 0x84 ensures TableEntry((crc ^ b) & 0xFF) ^ (crc >> 8) == Rounds8(crc ^ b) {}
  lemma Step85(crc: bv32, b: bv32) requires b < 256 && (crc ^ b) & 0xFF == 0x85 ensures TableEntry((crc ^ b) & 0xFF) ^ (crc >> 8) == Rounds8(crc ^ b) {}
  lemma Step86(crc: bv32, b: bv32) requires b < 256 && (crc ^ b) & 0xFF == 0x86 ensures TableEntry((crc ^ b) & 0xFF) ^ (crc >> 8) == Rounds8(crc ^ b) {}
  lemma Step87(crc: bv32, b: bv32) requires b < 256 && (crc ^ b) & 0xFF == 0x87 ensures TableEntry((crc ^ b) & 0xFF) ^ (crc >> 8) == Rounds8(crc ^ b) {}
  lemma Step88(crc: bv32, b: bv32) requires b < 256 && (crc ^ b) & 0xFF == 0x88 ensures TableEntry((crc ^ b) & 0xFF) ^ (crc >> 8) == Rounds8(crc ^ b) {}
  lemma Step89(crc: bv32, b: bv32) requires b < 256 && (crc ^ b) & 0xFF == 0x89 ensures TableEntry((crc ^ b) & 0xFF) ^ (crc >> 8) == Rounds8(crc ^ b) {}
  lemma Step8A(crc: bv32, b: bv32) requires b < 256 && (crc ^ b) & 0xFF == 0x8A ensures TableEntry((crc ^ b) & 0xFF) ^ (crc >> 8) == Rounds8(crc ^ b) {}
  lemma Step8B(crc: bv32, b: bv32) requires b < 256 && (crc ^ b) & 0xFF == 0x8B ensures TableEntry((crc ^ b) & 0xFF) ^ (crc >> 8) == Rounds8(crc ^ b) {}
  lemma Step8C(crc: bv32, b: bv32) requires b < 256 && (crc ^ b) & 0xFF == 0x8C ensures TableEntry((crc ^ b) & 0xFF) ^ (crc >> 8) == Rounds8(crc ^ b) {}
  lemma Step8D(crc: bv32, b: bv32) requires b < 256 && (crc ^ b) & 0xFF == 0x8D ensures TableEntry((crc ^ b) & 0xFF) ^ (crc >> 8) == Rounds8(crc ^ b) {}
  lemma Step8E(crc: bv32, b: bv32) requires b < 256 && (crc ^ b) & 0xFF == 0x8E ensures TableEntry((crc ^ b) & 0xFF) ^ (crc >> 8) == Rounds8(crc ^ b) {}
  lemma Step8F(crc: bv32, b: bv32) requires b < 256 && (crc ^ b) & 0xFF == 0x8F ensures TableEntry((crc ^ b) & 0xFF) ^ (crc >> 8) == Rounds8(crc ^ b) {}
  lemma Step90(crc: bv32, b: bv32) requires b < 256 && (crc ^ b) & 0xFF == 0x90 ensures TableEntry((crc ^ b) & 0xFF) ^ (crc >> 8) == Rounds8(crc ^ b) {}
  lemma Step91(crc: bv32, b: bv32) requires b < 256 && (crc ^ b) & 0xFF == 0x91 ensures TableEntry((crc ^ b) & 0xFF) ^ (crc >> 8) == Rounds8(crc ^ b) {}
  lemma Step92(crc: bv32, b: bv32) requires b < 256 && (crc ^ b) & 0xFF == 0x92 ensures TableEntry((crc ^ b) & 0xFF) ^ (crc >> 8) == Rounds8(crc ^ b) {}
  lemma Step93(crc: bv32, b: bv32) requires b < 256 && (crc ^ b) & 0xFF == 0x93 ensures TableEntry((crc ^ b) & 0xFF) ^ (crc >> 8) == Rounds8(crc ^ b) {}
  lemma Step94(crc: bv32, b: bv32) requires b < 256 && (crc ^ b) & 0xFF == 0x94 ensures TableEntry((crc ^ b) & 0xFF) ^ (crc >> 8) == Rounds8(crc ^ b) {}
  lemma Step95(crc: bv32, b: bv32) requires b < 256 && (crc ^ b) & 0xFF == 0x95 ensures TableEntry((crc ^ b) & 0xFF) ^ (crc >> 8) == Rounds8(crc ^ b) {}
  lemma Step96(crc: bv32, b: bv32) requires b < 256 && (crc ^ b) & 0xFF == 0x96 ensures TableEntry((crc ^ b) & 0xFF) ^ (crc >> 8) == Rounds8(crc ^ b) {}
  lemma Step97(crc: bv32, b: bv32) requires b < 256 && (crc ^ b) & 0xFF == 0x97 ensures TableEntry((crc ^ b) & 0xFF) ^ (crc >> 8) == Rounds8(crc ^ b) {}
  lemma Step98(crc: bv32, b: bv32) requires b < 256 && (crc ^ b) & 0xFF == 0x98 ensures TableEntry((crc ^ b) & 0xFF) ^ (crc >> 8) == Rounds8(crc ^ b) {}
  lemma Step99(crc: bv32, b: bv32) requires b < 256 && (crc ^ b) & 0xFF == 0x99 ensures TableEntry((crc ^ b) & 0xFF) ^ (crc >> 8) == Rounds8(crc ^ b) {}
  lemma Step9A(crc: bv32, b: bv32) requires b < 256 && (crc ^ b) & 0xFF == 0x9A ensures TableEntry((crc ^ b) & 0xFF) ^ (crc >> 8) == Rounds8(crc ^ b) {}
  lemma Step9B(crc: bv32, b: bv32) requires b < 256 && (crc ^ b) & 0xFF == 0x9B ensures TableEntry((crc ^ b) & 0xFF) ^ (crc >> 8) == Rounds8(crc ^ b) {}
  lemma Step9C(crc: bv32, b: bv32) requires b < 256 && (crc ^ b) & 0xFF == 0x9C ensures TableEntry((crc ^ b) & 0xFF) ^ (crc >> 8) == Rounds8(crc ^ b) {}
  lemma Step9D(crc: bv32, b: bv32) requires b < 256 && (crc ^ b) & 0xFF == 0x9D ensures TableEntry((crc ^ b) & 0xFF) ^ (crc >> 8) == Rounds8(crc ^ b) {}
  lemma Step9E(crc: bv32, b: bv32) requires b < 256 && (crc ^ b) & 0xFF == 0x9E ensures TableEntry((crc ^ b) & 0xFF) ^ (crc >> 8) == Rounds8(crc ^ b) {}
  lemma Step9F(crc: bv32, b: bv32) requires b < 256 && (crc ^ b) & 0xFF == 0x9F ensures TableEntry((crc ^ b) & 0xFF) ^ (crc >> 8) == Rounds8(crc ^ b) {}
  lemma StepA0(crc: bv32, b: bv32) requires b < 256 && (crc ^ b) & 0xFF == 0xA0 ensures TableEntry((crc ^ b) & 0xFF) ^ (crc >> 8) == Rounds8(crc ^ b) {}
  lemma StepA1(crc: bv32, b: bv32) requires b < 256 && (crc ^ b) & 0xFF == 0xA1 ensures TableEntry((crc ^ b) & 0xFF) ^ (crc >> 8) == Rounds8(crc ^ b) {}
  lemma StepA2(crc: bv32, b: bv32) requires b < 256 && (crc ^ b) & 0xFF == 0xA2 ensures TableEntry((crc ^ b) & 0xFF) ^ (crc >> 8) == Rounds8(crc ^ b) {}
  lemma StepA3(crc: bv32, b: bv32) requires b < 256 && (crc ^ b) & 0xFF == 0xA3 ensures TableEntry((crc ^ b) & 0xFF) ^ (crc >> 8) == Rounds8(crc ^ b) {}
  lemma StepA4(crc: bv32, b: bv32) requires b < 256 && (crc ^ b) & 0xFF == 0xA4 ensures TableEntry((crc ^ b) & 0xFF) ^ (crc >> 8) == Rounds8(crc ^ b) {}
  lemma StepA5(crc: bv32, b: bv32) requires b < 256 && (crc ^ b) & 0xFF == 0xA5 ensures TableEntry((crc ^ b) & 0xFF) ^ (crc >> 8) == Rounds8(crc ^ b) {}
  lemma StepA6(crc: bv32, b: bv32) requires b < 256 && (crc ^ b) & 0xFF == 0xA6 ensures TableEntry((crc ^ b) & 0xFF) ^ (crc >> 8) == Rounds8(crc ^ b) {}
  lemma StepA7(crc: bv32, b: bv32) requires b < 256 && (crc ^ b) & 0xFF == 0xA7 ensures TableEntry((crc ^ b) & 0xFF) ^ (crc >> 8) == Rounds8(crc ^ b) {}
  lemma StepA8(crc: bv32, b: bv32) requires b < 256 && (crc ^ b) & 0xFF == 0xA8 ensures TableEntry((crc ^ b) & 0xFF) ^ (crc >> 8) == Rounds8(crc ^ b) {}
  lemma StepA9(crc: bv32, b: bv32) requires b < 256 && (crc ^ b) & 0xFF == 0xA9 ensures TableEntry((crc ^ b) & 0xFF) ^ (crc >> 8) == Rounds8(crc ^ b) {}
  lemma StepAA(crc: bv32, b: bv32) requires b < 256 && (crc ^ b) & 0xFF == 0xAA ensures TableEntry((crc ^ b) & 0xFF) ^ (crc >> 8) == Rounds8(crc ^ b) {}
  lemma StepAB(crc: bv32, b: bv32) requires b < 256 && (crc ^ b) & 0xFF == 0xAB ensures TableEntry((crc ^ b) & 0xFF) ^ (crc >> 8) == Rounds8(crc ^ b) {}
  lemma StepAC(crc: bv32, b: bv32) requires b < 256 && (crc ^ b) & 0xFF == 0xAC ensures TableEntry((crc ^ b) & 0xFF) ^ (crc >> 8) == Rounds8(crc ^ b) {}
  lemma StepAD(crc: bv32, b: bv32) requires b < 256 && (crc ^ b) & 0xFF == 0xAD ensures TableEntry((crc ^ b) & 0xFF) ^ (crc >> 8) == Rounds8(crc ^ b) {}
  lemma StepAE(crc: bv32, b: bv32) requires b < 256 && (crc ^ b) & 0xFF == 0xAE ensures TableEntry((crc ^ b) & 0xFF) ^ (crc >> 8) == Rounds8(crc ^ b) {}
  lemma StepAF(crc: bv32, b: bv32) requires b < 256 && (crc ^ b) & 0xFF == 0xAF ensures TableEntry((crc ^ b) & 0xFF) ^ (crc >> 8) == Rounds8(crc ^ b) {}
  lemma StepB0(crc: bv32, b: bv32) requires b < 256 && (crc ^ b) & 0xFF == 0xB0 ensures TableEntry((crc ^ b) & 0xFF) ^ (crc >> 8) == Rounds8(crc ^ b) {}
  lemma StepB1(crc: bv32, b: bv32) requires b < 256 && (crc ^ b) & 0xFF == 0xB1 ensures TableEntry((crc ^ b) & 0xFF) ^ (crc >> 8) == Rounds8(crc ^ b) {}
  lemma StepB2(crc: bv32, b: bv32) requires b < 256 && (crc ^ b) & 0xFF == 0xB2 ensures TableEntry((crc ^ b) & 0xFF) ^ (crc >> 8) == Rounds8(crc ^ b) {}
  lemma StepB3(crc: bv32, b: bv32) requires b < 256 && (crc ^ b) & 0xFF == 0xB3 ensures TableEntry((crc ^ b) & 0xFF) ^ (crc >> 8) == Rounds8(crc ^ b) {}
  lemma StepB4(crc: bv32, b: bv32) requires b < 256 && (crc ^ b) & 0xFF == 0xB4 ensures TableEntry((crc ^ b) & 0xFF) ^ (crc >> 8) == Rounds8(crc ^ b) {}
  lemma StepB5(crc: bv32, b: bv32) requires b < 256 && (crc ^ b) & 0xFF == 0xB5 ensures TableEntry((crc ^ b) & 0xFF) ^ (crc >> 8) == Rounds8(crc ^ b) {}
  lemma StepB6(crc: bv32, b: bv32) requires b < 256 && (crc ^ b) & 0xFF == 0xB6 ensures TableEntry((crc ^ b) & 0xFF) ^ (crc >> 8) == Rounds8(crc ^ b) {}
  lemma StepB7(crc: bv32, b: bv32) requires b < 256 && (crc ^ b) & 0xFF == 0xB7 ensures TableEntry((crc ^ b) & 0xFF) ^ (crc >> 8) == Rounds8(crc ^ b) {}
  lemma StepB8(crc: bv32, b: bv32) requires b < 256 && (crc ^ b) & 0xFF == 0xB8 ensures TableEntry((crc ^ b) & 0xFF) ^ (crc >> 8) == Rounds8(crc ^ b) {}
  lemma StepB9(crc: bv32, b: bv32) requires b < 256 && (crc ^ b) & 0xFF == 0xB9 ensures TableEntry((crc ^ b) & 0xFF) ^ (crc >> 8) == Rounds8(crc ^ b) {}
  lemma StepBA(crc: bv32, b: bv32) requires b < 256 && (crc ^ b) & 0xFF == 0xBA ensures TableEntry((crc ^ b) & 0xFF) ^ (crc >> 8) == Rounds8(crc ^ b) {}
  lemma StepBB(crc: bv32, b: bv32) requires b < 256 && (crc ^ b) & 0xFF == 0xBB ensures TableEntry((crc ^ b) & 0xFF) ^ (crc >> 8) == Rounds8(crc ^ b) {}
  lemma StepBC(crc: bv32, b: bv32) requires b < 256 && (crc ^ b) & 0xFF == 0xBC ensures TableEntry((crc ^ b) & 0xFF) ^ (crc >> 8) == Rounds8(crc ^ b) {}
  lemma StepBD(crc: bv32, b: bv32) requires b < 256 && (crc ^ b) & 0xFF == 0xBD ensures TableEntry((crc ^ b) & 0xFF) ^ (crc >> 8) == Rounds8(crc ^ b) {}
  lemma StepBE(crc: bv32, b: bv32) requires b < 256 && (crc ^ b) & 0xFF == 0xBE ensures TableEntry((crc ^ b) & 0xFF) ^ (crc >> 8) == Rounds8(crc ^ b) {}
  lemma StepBF(crc: bv32, b: bv32) requires b < 256 && (crc ^ b) & 0xFF == 0xBF ensures TableEntry((crc ^ b) & 0xFF) ^ (crc >> 8) == Rounds8(crc ^ b) {}
  lemma StepC0(crc: bv32, b: bv32) requires b < 256 && (crc ^ b) & 0xFF == 0xC0 ensures TableEntry((crc ^ b) & 0xFF) ^ (crc >> 8) == Rounds8(crc ^ b) {}
  lemma StepC1(crc: bv32, b: bv32) requires b < 256 && (crc ^ b) & 0xFF == 0xC1 ensures TableEntry((crc ^ b) & 0xFF) ^ (crc >> 8) == Rounds8(crc ^ b) {}
  lemma StepC2(crc: bv32, b: bv32) requires b < 256 && (crc ^ b) & 0xFF == 0xC2 ensures TableEntry((crc ^ b) & 0xFF) ^ (crc >> 8) == Rounds8(crc ^ b) {}
  lemma StepC3(crc: bv32, b: bv32) requires b < 256 && (crc ^ b) & 0xFF == 0xC3 ensures TableEntry((crc ^ b) & 0xFF) ^ (crc >> 8) == Rounds8(crc ^ b) {}
  lemma StepC4(crc: bv32, b: bv32) requires b < 256 && (crc ^ b) & 0xFF == 0xC4 ensures TableEntry((crc ^ b) & 0xFF) ^ (crc >> 8) == Rounds8(crc ^ b) {}
  lemma StepC5(crc: bv32, b: bv32) requires b < 256 && (crc ^ b) & 0xFF == 0xC5 ensures TableEntry((crc ^ b) & 0xFF) ^ (crc >> 8) == Rounds8(crc ^ b) {}
  lemma StepC6(crc: bv32, b: bv32) requires b < 256 && (crc ^ b) & 0xFF == 0xC6 ensures TableEntry((crc ^ b) & 0xFF) ^ (crc >> 8) == Rounds8(crc ^ b) {}
  lemma StepC7(crc: bv32, b: bv32) requires b < 256 && (crc ^ b) & 0xFF == 0xC7 ensures TableEntry((crc ^ b) & 0xFF) ^ (crc >> 8) == Rounds8(crc ^ b) {}
  lemma StepC8(crc: bv32, b: bv32) requires b < 256 && (crc ^ b) & 0xFF == 0xC8 ensures TableEntry((crc ^ b) & 0xFF) ^ (crc >> 8) == Rounds8(crc ^ b) {}
  lemma StepC9(crc: bv32, b: bv32) requires b < 256 && (crc ^ b) & 0xFF == 0xC9 ensures TableEntry((crc ^ b) & 0xFF) ^ (crc >> 8) == Rounds8(crc ^ b) {}
  lemma StepCA(crc: bv32, b: bv32) requires b < 256 && (crc ^ b) & 0xFF == 0xCA ensures TableEntry((crc ^ b) & 0xFF) ^ (crc >> 8) == Rounds8(crc ^ b) {}
  lemma StepCB(crc: bv32, b: bv32) requires b < 256 && (crc ^ b) & 0xFF == 0xCB ensures TableEntry((crc ^ b) & 0xFF) ^ (crc >> 8) == Rounds8(crc ^ b) {}
  lemma StepCC(crc: bv32, b: bv32) requires b < 256 && (crc ^ b) & 0xFF == 0xCC ensures TableEntry((crc ^ b) & 0xFF) ^ (crc >> 8) == Rounds8(crc ^ b) {}
  lemma StepCD(crc: bv32, b: bv32) requires b < 256 && (crc ^ b) & 0xFF == 0xCD ensures TableEntry((crc ^ b) & 0xFF) ^ (crc >> 8) == Rounds8(crc ^ b) {}
  lemma StepCE(crc: bv32, b: bv32) requires b < 256 && (crc ^ b) & 0xFF == 0xCE ensures TableEntry((crc ^ b) & 0xFF) ^ (crc >> 8) == Rounds8(crc ^ b) {}
  lemma StepCF(crc: bv32, b: bv32) requires b < 256 && (crc ^ b) & 0xFF == 0xCF ensures TableEntry((crc ^ b) & 0xFF) ^ (crc >> 8) == Rounds8(crc ^ b) {}
  lemma StepD0(crc: bv32, b: bv32) requires b < 256 && (crc ^ b) & 0xFF == 0xD0 ensures TableEntry((crc ^ b) & 0xFF) ^ (crc >> 8) == Rounds8(crc ^ b) {}
  lemma StepD1(crc: bv32, b: bv32) requires b < 256 && (crc ^ b) & 0xFF == 0xD1 ensures TableEntry((crc ^ b) & 0xFF) ^ (crc >> 8) == Rounds8(crc ^ b) {}
  lemma StepD2(crc: bv32, b: bv32) requires b < 256 && (crc ^ b) & 0xFF == 0xD2 ensures TableEntry((crc ^ b) & 0xFF) ^ (crc >> 8) == Rounds8(crc ^ b) {}
  lemma StepD3(crc: bv32, b: bv32) requires b < 256 && (crc ^ b) & 0xFF == 0xD3 ensures TableEntry((crc ^ b) & 0xFF) ^ (crc >> 8) == Rounds8(crc ^ b) {}
  lemma StepD4(crc: bv32, b: bv32) requires b < 256 && (crc ^ b) & 0xFF == 0xD4 ensures TableEntry((crc ^ b) & 0xFF) ^ (crc >> 8) == Rounds8(crc ^ b) {}
  lemma StepD5(crc: bv32, b: bv32) requires b < 256 && (crc ^ b) & 0xFF == 0xD5 ensures TableEntry((crc ^ b) & 0xFF) ^ (crc >> 8) == Rounds8(crc ^ b) {}
  lemma StepD6(crc: bv32, b: bv32) requires b < 256 && (crc ^ b) & 0xFF == 0xD6 ensures TableEntry((crc ^ b) & 0xFF) ^ (crc >> 8) == Rounds8(crc ^ b) {}
  lemma StepD7(crc: bv32, b: bv32) requires b < 256 && (crc ^ b) & 0xFF == 0xD7 ensures TableEntry((crc ^ b) & 0xFF) ^ (crc >> 8) == Rounds8(crc ^ b) {}
  lemma StepD8(crc: bv32, b: bv32) requires b < 256 && (crc ^ b) & 0xFF == 0xD8 ensures TableEntry((crc ^ b) & 0xFF) ^ (crc >> 8) == Rounds8(crc ^ b) {}
  lemma StepD9(crc: bv32, b: bv32) requires b < 256 && (crc ^ b) & 0xFF == 0xD9 ensures TableEntry((crc ^ b) & 0xFF) ^ (crc >> 8) == Rounds8(crc ^ b) {}
  lemma StepDA(crc: bv32, b: bv32) requires b < 256 && (crc ^ b) & 0xFF == 0xDA ensures TableEntry((crc ^ b) & 0xFF) ^ (crc >> 8) == Rounds8(crc ^ b) {}
  lemma StepDB(crc: bv32, b: bv32) requires b < 256 && (crc ^ b) & 0xFF == 0xDB ensures TableEntry((crc ^ b) & 0xFF) ^ (crc >> 8) == Rounds8(crc ^ b) {}
  lemma StepDC(crc: bv32, b: bv32) requires b < 256 && (crc ^ b) & 0xFF == 0xDC ensures TableEntry((crc ^ b) & 0xFF) ^ (crc >> 8) == Rounds8(crc ^ b) {}
  lemma StepDD(crc: bv32, b: bv32) requires b < 256 && (crc ^ b) & 0xFF == 0xDD ensures TableEntry((crc ^ b) & 0xFF) ^ (crc >> 8) == Rounds8(crc ^ b) {}
  lemma StepDE(crc: bv32, b: bv32) requires b < 256 && (crc ^ b) & 0xFF == 0xDE ensures TableEntry((crc ^ b) & 0xFF) ^ (crc >> 8) == Rounds8(crc ^ b) {}
  lemma StepDF(crc: bv32, b: bv32) requires b < 256 && (crc ^ b) & 0xFF == 0xDF ensures TableEntry((crc ^ b) & 0xFF) ^ (crc >> 8) == Rounds8(crc ^ b) {}
  lemma StepE0(crc: bv32, b: bv32) requires b < 256 && (crc ^ b) & 0xFF == 0xE0 ensures TableEntry((crc ^ b) & 0xFF) ^ (crc >> 8) == Rounds8(crc ^ b) {}
  lemma StepE1(crc: bv32, b: bv32) requires b < 256 && (crc ^ b) & 0xFF == 0xE1 ensures TableEntry((crc ^ b) & 0xFF) ^ (crc >> 8) == Rounds8(crc ^ b) {}
  lemma StepE2(crc: bv32, b: bv32) requires b < 256 && (crc ^ b) & 0xFF == 0xE2 ensures TableEntry((crc ^ b) & 0xFF) ^ (crc >> 8) == Rounds8(crc ^ b) {}
  lemma StepE3(crc: bv32, b: bv32) requires b < 256 && (crc ^ b) & 0xFF == 0xE3 ensures TableEntry((crc ^ b) & 0xFF) ^ (crc >> 8) == Rounds8(crc ^ b) {}
  lemma StepE4(crc: bv32, b: bv32) requires b < 256 && (crc ^ b) & 0xFF == 0xE4 ensures TableEntry((crc ^ b) & 0xFF) ^ (crc >> 8) == Rounds8(crc ^ b) {}
  lemma StepE5(crc: bv32, b: bv32) requires b < 256 && (crc ^ b) & 0xFF == 0xE5 ensures TableEntry((crc ^ b) & 0xFF) ^ (crc >> 8) == Rounds8(crc ^ b) {}
  lemma StepE6(crc: bv32, b: bv32) requires b < 256 && (crc ^ b) & 0xFF == 0xE6 ensures TableEntry((crc ^ b) & 0xFF) ^ (crc >> 8) == Rounds8(crc ^ b) {}
  lemma StepE7(crc: bv32, b: bv32) requires b < 256 && (crc ^ b) & 0xFF == 0xE7 ensures TableEntry((crc ^ b) & 0xFF) ^ (crc >> 8) == Rounds8(crc ^ b) {}
  lemma StepE8(crc: bv32, b: bv32) requires b < 256 && (crc ^ b) & 0xFF == 0xE8 ensures TableEntry((crc ^ b) & 0xFF) ^ (crc >> 8) == Rounds8(crc ^ b) {}
  lemma StepE9(crc: bv32, b: bv32) requires b < 256 && (crc ^ b) & 0xFF == 0xE9 ensures TableEntry((crc ^ b) & 0xFF) ^ (crc >> 8) == Rounds8(crc ^ b) {}
  lemma StepEA(crc: bv32, b: bv32) requires b < 256 && (crc ^ b) & 0xFF == 0xEA ensures TableEntry((crc ^ b) & 0xFF) ^ (crc >> 8) == Rounds8(crc ^ b) {}
  lemma StepEB(crc: bv32, b: bv32) requires b < 256 && (crc ^ b) & 0xFF == 0xEB ensures TableEntry((crc ^ b) & 0xFF) ^ (crc >> 8) == Rounds8(crc ^ b) {}
  lemma StepEC(crc: bv32, b: bv32) requires b < 256 && (crc ^ b) & 0xFF == 0xEC ensures TableEntry((crc ^ b) & 0xFF) ^ (crc >> 8) == Rounds8(crc ^ b) {}
  lemma StepED(crc: bv32, b: bv32) requires b < 256 && (crc ^ b) & 0xFF == 0xED ensures TableEntry((crc ^ b) & 0xFF) ^ (crc >> 8) == Rounds8(crc ^ b) {}
  lemma StepEE(crc: bv32, b: bv32) requires b < 256 && (crc ^ b) & 0xFF == 0xEE ensures TableEntry((crc ^ b) & 0xFF) ^ (crc >> 8) == Rounds8(crc ^ b) {}
  lemma StepEF(crc: bv32, b: bv32) requires b < 256 && (crc ^ b) & 0xFF == 0xEF ensures TableEntry((crc ^ b) & 0xFF) ^ (crc >> 8) == Rounds8(crc ^ b) {}
  lemma StepF0(crc: bv32, b: bv32) requires b < 256 && (crc ^ b) & 0xFF == 0xF0 ensures TableEntry((crc ^ b) & 0xFF) ^ (crc >> 8) == Rounds8(crc ^ b) {}
  lemma StepF1(crc: bv32, b: bv32) requires b < 256 && (crc ^ b) & 0xFF == 0xF1 ensures TableEntry((crc ^ b) & 0xFF) ^ (crc >> 8) == Rounds8(crc ^ b) {}
  lemma StepF2(crc: bv32, b: bv32) requires b < 256 && (crc ^ b) & 0xFF == 0xF2 ensures TableEntry((crc ^ b) & 0xFF) ^ (crc >> 8) == Rounds8(crc ^ b) {}
  lemma StepF3(crc: bv32, b: bv32) requires b < 256 && (crc ^ b) & 0xFF == 0xF3 ensures TableEntry((crc ^ b) & 0xFF) ^ (crc >> 8) == Rounds8(crc ^ b) {}
  lemma StepF4(crc: bv32, b: bv32) requires b < 256 && (crc ^ b) & 0xFF == 0xF4 ensures TableEntry((crc ^ b) & 0xFF) ^ (crc >> 8) == Rounds8(crc ^ b) {}
  lemma StepF5(crc: bv32, b: bv32) requires b < 256 && (crc ^ b) & 0xFF == 0xF5 ensures TableEntry((crc ^ b) & 0xFF) ^ (crc >> 8) == Rounds8(crc ^ b) {}
  lemma StepF6(crc: bv32, b: bv32) requires b < 256 && (crc ^ b) & 0xFF == 0xF6 ensures TableEntry((crc ^ b) & 0xFF) ^ (crc >> 8) == Rounds8(crc ^ b) {}
  lemma StepF7(crc: bv32, b: bv32) requires b < 256 && (crc ^ b) & 0xFF == 0xF7 ensures TableEntry((crc ^ b) & 0xFF) ^ (crc >> 8) == Rounds8(crc ^ b) {}
  lemma StepF8(crc: bv32, b: bv32) requires b < 256 && (crc ^ b) & 0xFF == 0xF8 ensures TableEntry((crc ^ b) & 0xFF) ^ (crc >> 8) == Rounds8(crc ^ b) {}
  lemma StepF9(crc: bv32, b: bv32) requires b < 256 && (crc ^ b) & 0xFF == 0xF9 ensures TableEntry((crc ^ b) & 0xFF) ^ (crc >> 8) == Rounds8(crc ^ b) {}
  lemma StepFA(crc: bv32, b: bv32) requires b < 256 && (crc ^ b) & 0xFF == 0xFA ensures TableEntry((crc ^ b) & 0xFF) ^ (crc >> 8) == Rounds8(crc ^ b) {}
  lemma StepFB(crc: bv32, b: bv32) requires b < 256 && (crc ^ b) & 0xFF == 0xFB ensures TableEntry((crc ^ b) & 0xFF) ^ (crc >> 8) == Rounds8(crc ^ b) {}
  lemma StepFC(crc: bv32, b: bv32) requires b < 256 && (crc ^ b) & 0xFF == 0xFC ensures TableEntry((crc ^ b) & 0xFF) ^ (crc >> 8) == Rounds8(crc ^ b) {}
  lemma StepFD(crc: bv32, b: bv32) requires b < 256 && (crc ^ b) & 0xFF == 0xFD ensures TableEntry((crc ^ b) & 0xFF) ^ (crc >> 8) == Rounds8(crc ^ b) {}
  lemma StepFE(crc: bv32, b: bv32) requires b < 256 && (crc ^ b) & 0xFF == 0xFE ensures TableEntry((crc ^ b) & 0xFF) ^ (crc >> 8) == Rounds8(crc ^ b) {}
  lemma StepFF(crc: bv32, b: bv32) requires b < 256 && (crc ^ b) & 0xFF == 0xFF ensures TableEntry((crc ^ b) & 0xFF) ^ (crc >> 8) == Rounds8(crc ^ b) {}

  lemma StepRow0(crc: bv32, b: bv32)
    requires b < 256 && (crc ^ b) & 0xF0 == 0x00
    ensures TableEntry((crc ^ b) & 0xFF) ^ (crc >> 8) == Rounds8(crc ^ b)
  {
    var k := (crc ^ b) & 0xF;
    if k == 0 { Step00(crc, b);
    } else if k == 1 { Step01(crc, b);
    } else if k == 2 { Step02(crc, b);
    } else if k == 3 { Step03(crc, b);
    } else if k == 4 { Step04(crc, b);
    } else if k == 5 { Step05(crc, b);
    } else if k == 6 { Step06(crc, b);
    } else if k == 7 { Step07(crc, b);
    } else if k == 8 { Step08(crc, b);
    } else if k == 9 { Step09(crc, b);
    } else if k == 10 { Step0A(crc, b);
    } else if k == 11 { Step0B(crc, b);
    } else if k == 12 { Step0C(crc, b);
    } else if k == 13 { Step0D(crc, b);
    } else if k == 14 { Step0E(crc, b);
    } else { Step0F(crc, b); }
  }

  lemma StepRow1(crc: bv32, b: bv32)
    requires b < 256 && (crc ^ b) & 0xF0 == 0x10
    ensures TableEntry((crc ^ b) & 0xFF) ^ (crc >> 8) == Rounds8(crc ^ b)
  {
    var k := (crc ^ b) & 0xF;
    if k == 0 { Step10(crc, b);
    } else if k == 1 { Step11(crc, b);
    } else if k == 2 { Step12(crc, b);
    } else if k == 3 { Step13(crc, b);
    } else if k == 4 { Step14(crc, b);
    } else if k == 5 { Step15(crc, b);
    } else if k == 6 { Step16(crc, b);
    } else if k == 7 { Step17(crc, b);
    } else if k == 8 { Step18(crc, b);
    } else if k == 9 { Step19(crc, b);
    } else if k == 10 { Step1A(crc, b);
    } else if k == 11 { Step1B(crc, b);
    } else if k == 12 { Step1C(crc, b);
    } else if k == 13 { Step1D(crc, b);
    } else if k == 14 { Step1E(crc, b);
    } else { Step1F(crc, b); }
  }

  lemma StepRow2(crc: bv32, b: bv32)
    requires b < 256 && (crc ^ b) & 0xF0 == 0x20
    ensures TableEntry((crc ^ b) & 0xFF) ^ (crc >> 8) == Rounds8(crc ^ b)
  {
    var k := (crc ^ b) & 0xF;
    if k == 0 { Step20(crc, b);
    } else if k == 1 { Step21(crc, b);
    } else if k == 2 { Step22(crc, b);
    } else if k == 3 { Step23(crc, b);
    } else if k == 4 { Step24(crc, b);
    } else if k == 5 { Step25(crc, b);
    } else if k == 6 { Step26(crc, b);
    } else if k == 7 { Step27(crc, b);
    } else if k == 8 { Step28(crc, b);
    } else if k == 9 { Step29(crc, b);
    } else if k == 10 { Step2A(crc, b);
    } else if k == 11 { Step2B(crc, b);
    } else if k == 12 { Step2C(crc, b);
    } else if k == 13 { Step2D(crc, b);
    } else if k == 14 { Step2E(crc, b);
    } else { Step2F(crc, b); }
  }

  lemma StepRow3(crc: bv32, b: bv32)
    requires b < 256 && (crc ^ b) & 0xF0 == 0x30
    ensures TableEntry((crc ^ b) & 0xFF) ^ (crc >> 8) == Rounds8(crc ^ b)
  {
    var k := (crc ^ b) & 0xF;
    if k == 0 { Step30(crc, b);
    } else if k == 1 { Step31(crc, b);
    } else if k == 2 { Step32(crc, b);
    } else if k == 3 { Step33(crc, b);
    } else if k == 4 { Step34(crc, b);
    } else if k == 5 { Step35(crc, b);
    } else if k == 6 { Step36(crc, b);
    } else if k == 7 { Step37(crc, b);
    } else if k == 8 { Step38(crc, b);
    } else if k == 9 { Step39(crc, b);
    } else if k == 10 { Step3A(crc, b);
    } else if k == 11 { Step3B(crc, b);
    } else if k == 12 { Step3C(crc, b);
    } else if k == 13 { Step3D(crc, b);
    } else if k == 14 { Step3E(crc, b);
    } else { Step3F(crc, b); }
  }

  lemma StepRow4(crc: bv32, b: bv32)
    requires b < 256 && (crc ^ b) & 0xF0 == 0x40
    ensures TableEntry((crc ^ b) & 0xFF) ^ (crc >> 8) == Rounds8(crc ^ b)
  {
    var k := (crc ^ b) & 0xF;
    if k == 0 { Step40(crc, b);
    } else if k == 1 { Step41(crc, b);
    } else if k == 2 { Step42(crc, b);
    } else if k == 3 { Step43(crc, b);
    } else if k == 4 { Step44(crc, b);
    } else if k == 5 { Step45(crc, b);
    } else if k == 6 { Step46(crc, b);
    } else if k == 7 { Step47(crc, b);
    } else if k == 8 { Step48(crc, b);
    } else if k == 9 { Step49(crc, b);
    } else if k == 10 { Step4A(crc, b);
    } else if k == 11 { Step4B(crc, b);
    } else if k == 12 { Step4C(crc, b);
    } else if k == 13 { Step4D(crc, b);
    } else if k == 14 { Step4E(crc, b);
    } else { Step4F(crc, b); }
  }

  lemma StepRow5(crc: bv32, b: bv32)
    requires b < 256 && (crc ^ b) & 0xF0 == 0x50
    ensures TableEntry((crc ^ b) & 0xFF) ^ (crc >> 8) == Rounds8(crc ^ b)
  {
    var k := (crc ^ b) & 0xF;
    if k == 0 { Step50(crc, b);
    } else if k == 1 { Step51(crc, b);
    } else if k == 2 { Step52(crc, b);
    } else if k == 3 { Step53(crc, b);
    } else if k == 4 { Step54(crc, b);
    } else if k == 5 { Step55(crc, b);
    } else if k == 6 { Step56(crc, b);
    } else if k == 7 { Step57(crc, b);
    } else if k == 8 { Step58(crc, b);
    } else if k == 9 { Step59(crc, b);
    } else if k == 10 { Step5A(crc, b);
    } else if k == 11 { Step5B(crc, b);
    } else if k == 12 { Step5C(crc, b);
    } else if k == 13 { Step5D(crc, b);
    } else if k == 14 { Step5E(crc, b);
    } else { Step5F(crc, b); }
  }

  lemma StepRow6(crc: bv32, b: bv32)
    requires b < 256 && (crc ^ b) & 0xF0 == 0x60
    ensures TableEntry((crc ^ b) & 0xFF) ^ (crc >> 8) == Rounds8(crc ^ b)
  {
    var k := (crc ^ b) & 0xF;
    if k == 0 { Step60(crc, b);
    } else if k == 1 { Step61(crc, b);
    } else if k == 2 { Step62(crc, b);
    } else if k == 3 { Step63(crc, b);
    } else if k == 4 { Step64(crc, b);
    } else if k == 5 { Step65(crc, b);
    } else if k == 6 { Step66(crc, b);
    } else if k == 7 { Step67(crc, b);
    } else if k == 8 { Step68(crc, b);
    } else if k == 9 { Step69(crc, b);
    } else if k == 10 { Step6A(crc, b);
    } else if k == 11 { Step6B(crc, b);
    } else if k == 12 { Step6C(crc, b);
    } else if k == 13 { Step6D(crc, b);
    } else if k == 14 { Step6E(crc, b);
    } else { Step6F(crc, b); }
  }

  lemma StepRow7(crc: bv32, b: bv32)
    requires b < 256 && (crc ^ b) & 0xF0 == 0x70
    ensures TableEntry((crc ^ b) & 0xFF) ^ (crc >> 8) == Rounds8(crc ^ b)
  {
    var k := (crc ^ b) & 0xF;
    if k == 0 { Step70(crc, b);
    } else if k == 1 { Step71(crc, b);
    } else if k == 2 { Step72(crc, b);
    } else if k == 3 { Step73(crc, b);
    } else if k == 4 { Step74(crc, b);
    } else if k == 5 { Step75(crc, b);
    } else if k == 6 { Step76(crc, b);
    } else if k == 7 { Step77(crc, b);
    } else if k == 8 { Step78(crc, b);
    } else if k == 9 { Step79(crc, b);
    } else if k == 10 { Step7A(crc, b);
    } else if k == 11 { Step7B(crc, b);
    } else if k == 12 { Step7C(crc, b);
    } else if k == 13 { Step7D(crc, b);
    } else if k == 14 { Step7E(crc, b);
    } else { Step7F(crc, b); }
  }

  lemma StepRow8(crc: bv32, b: bv32)
    requires b < 256 && (crc ^ b) & 0xF0 == 0x80
    ensures TableEntry((crc ^ b) & 0xFF) ^ (crc >> 8) == Rounds8(crc ^ b)
  {
    var k := (crc ^ b) & 0xF;
    if k == 0 { Step80(crc, b);
    } else if k == 1 { Step81(crc, b);
    } else if k == 2 { Step82(crc, b);
    } else if k == 3 { Step83(crc, b);
    } else if k == 4 { Step84(crc, b);
    } else if k == 5 { Step85(crc, b);
    } else if k == 6 { Step86(crc, b);
    } else if k == 7 { Step87(crc, b);
    } else if k == 8 { Step88(crc, b);
    } else if k == 9 { Step89(crc, b);
    } else if k == 10 { Step8A(crc, b);
    } else if k == 11 { Step8B(crc, b);
    } else if k == 12 { Step8C(crc, b);
    } else if k == 13 { Step8D(crc, b);
    } else if k == 14 { Step8E(crc, b);
    } else { Step8F(crc, b); }
  }

  lemma StepRow9(crc: bv32, b: bv32)
    requires b < 256 && (crc ^ b) & 0xF0 == 0x90
    ensures TableEntry((crc ^ b) & 0xFF) ^ (crc >> 8) == Rounds8(crc ^ b)
  {
    var k := (crc ^ b) & 0xF;
    if k == 0 { Step90(crc, b);
    } else if k == 1 { Step91(crc, b);
    } else if k == 2 { Step92(crc, b);
    } else if k == 3 { Step93(crc, b);
    } else if k == 4 { Step94(crc, b);
    } else if k == 5 { Step95(crc, b);
    } else if k == 6 { Step96(crc, b);
    } else if k == 7 { Step97(crc, b);
    } else if k == 8 { Step98(crc, b);
    } else if k == 9 { Step99(crc, b);
    } else if k == 10 { Step9A(crc, b);
    } else if k == 11 { Step9B(crc, b);
    } else if k == 12 { Step9C(crc, b);
    } else if k == 13 { Step9D(crc, b);
    } else if k == 14 { Step9E(crc, b);
    } else { Step9F(crc, b); }
  }

  lemma StepRowA(crc: bv32, b: bv32)
    requires b < 256 && (crc ^ b) & 0xF0 == 0xA0
    ensures TableEntry((crc ^ b) & 0xFF) ^ (crc >> 8) == Rounds8(crc ^ b)
  {
    var k := (crc ^ b) & 0xF;
    if k == 0 { StepA0(crc, b);
    } else if k == 1 { StepA1(crc, b);
    } else if k == 2 { StepA2(crc, b);
    } else if k == 3 { StepA3(crc, b);
    } else if k == 4 { StepA4(crc, b);
    } else if k == 5 { StepA5(crc, b);
    } else if k == 6 { StepA6(crc, b);
    } else if k == 7 { StepA7(crc, b);
    } else if k == 8 { StepA8(crc, b);
    } else if k == 9 { StepA9(crc, b);
    } else if k == 10 { StepAA(crc, b);
    } else if k == 11 { StepAB(crc, b);
    } else if k == 12 { StepAC(crc, b);
    } else if k == 13 { StepAD(crc, b);
    } else if k == 14 { StepAE(crc, b);
    } else { StepAF(crc, b); }
  }

  lemma StepRowB(crc: bv32, b: bv32)
    requires b < 256 && (crc ^ b) & 0xF0 == 0xB0
    ensures TableEntry((crc ^ b) & 0xFF) ^ (crc >> 8) == Rounds8(crc ^ b)
  {
    var k := (crc ^ b) & 0xF;
    if k == 0 { StepB0(crc, b);
    } else if k == 1 { StepB1(crc, b);
    } else if k == 2 { StepB2(crc, b);
    } else if k == 3 { StepB3(crc, b);
    } else if k == 4 { StepB4(crc, b);
    } else if k == 5 { StepB5(crc, b);
    } else if k == 6 { StepB6(crc, b);
    } else if k == 7 { StepB7(crc, b);
    } else if k == 8 { StepB8(crc, b);
    } else if k == 9 { StepB9(crc, b);
    } else if k == 10 { StepBA(crc, b);
    } else if k == 11 { StepBB(crc, b);
    } else if k == 12 { StepBC(crc, b);
    } else if k == 13 { StepBD(crc, b);
    } else if k == 14 { StepBE(crc, b);
    } else { StepBF(crc, b); }
  }

  lemma StepRowC(crc: bv32, b: bv32)
    requires b < 256 && (crc ^ b) & 0xF0 == 0xC0
    ensures TableEntry((crc ^ b) & 0xFF) ^ (crc >> 8) == Rounds8(crc ^ b)
  {
    var k := (crc ^ b) & 0xF;
    if k == 0 { StepC0(crc, b);
    } else if k == 1 { StepC1(crc, b);
    } else if k == 2 { StepC2(crc, b);
    } else if k == 3 { StepC3(crc, b);
    } else if k == 4 { StepC4(crc, b);
    } else if k == 5 { StepC5(crc, b);
    } else if k == 6 { StepC6(crc, b);
    } else if k == 7 { StepC7(crc, b);
    } else if k == 8 { StepC8(crc, b);
    } else if k == 9 { StepC9(crc, b);
    } else if k == 10 { StepCA(crc, b);
    } else if k == 11 { StepCB(crc, b);
    } else if k == 12 { StepCC(crc, b);
    } else if k == 13 { StepCD(crc, b);
    } else if k == 14 { StepCE(crc, b);
    } else { StepCF(crc, b); }
  }

  lemma StepRowD(crc: bv32, b: bv32)
    requires b < 256 && (crc ^ b) & 0xF0 == 0xD0
    ensures TableEntry((crc ^ b) & 0xFF) ^ (crc >> 8) == Rounds8(crc ^ b)
  {
    var k := (crc ^ b) & 0xF;
    if k == 0 { StepD0(crc, b);
    } else if k == 1 { StepD1(crc, b);
    } else if k == 2 { StepD2(crc, b);
    } else if k == 3 { StepD3(crc, b);
    } else if k == 4 { StepD4(crc, b);
    } else if k == 5 { StepD5(crc, b);
    } else if k == 6 { StepD6(crc, b);
    } else if k == 7 { StepD7(crc, b);
    } else if k == 8 { StepD8(crc, b);
    } else if k == 9 { StepD9(crc, b);
    } else if k == 10 { StepDA(crc, b);
    } else if k == 11 { StepDB(crc, b);
    } else if k == 12 { StepDC(crc, b);
    } else if k == 13 { StepDD(crc, b);
    } else if k == 14 { StepDE(crc, b);
    } else { StepDF(crc, b); }
  }

  lemma StepRowE(crc: bv32, b: bv32)
    requires b < 256 && (crc ^ b) & 0xF0 == 0xE0
    ensures TableEntry((crc ^ b) & 0xFF) ^ (crc >> 8) == Rounds8(crc ^ b)
  {
    var k := (crc ^ b) & 0xF;
    if k == 0 { StepE0(crc, b);
    } else if k == 1 { StepE1(crc, b);
    } else if k == 2 { StepE2(crc, b);
    } else if k == 3 { StepE3(crc, b);
    } else if k == 4 { StepE4(crc, b);
    } else if k == 5 { StepE5(crc, b);
    } else if k == 6 { StepE6(crc, b);
    } else if k == 7 { StepE7(crc, b);
    } else if k == 8 { StepE8(crc, b);
    } else if k == 9 { StepE9(crc, b);
    } else if k == 10 { StepEA(crc, b);
    } else if k == 11 { StepEB(crc, b);
    } else if k == 12 { StepEC(crc, b);
    } else if k == 13 { StepED(crc, b);
    } else if k == 14 { StepEE(crc, b);
    } else { StepEF(crc, b); }
  }

  lemma StepRowF(crc: bv32, b: bv32)
    requires b < 256 && (crc ^ b) & 0xF0 == 0xF0
    ensures TableEntry((crc ^ b) & 0xFF) ^ (crc >> 8) == Rounds8(crc ^ b)
  {
    var k := (crc ^ b) & 0xF;
    if k == 0 { StepF0(crc, b);
    } else if k == 1 { StepF1(crc, b);
    } else if k == 2 { StepF2(crc, b);
    } else if k == 3 { StepF3(crc, b);
    } else if k == 4 { StepF4(crc, b);
    } else if k == 5 { StepF5(crc, b);
    } else if k == 6 { StepF6(crc, b);
    } else if k == 7 { StepF7(crc, b);
    } else if k == 8 { StepF8(crc, b);
    } else if k == 9 { StepF9(crc, b);
    } else if k == 10 { StepFA(crc, b);
    } else if k == 11 { StepFB(crc, b);
    } else if k == 12 { StepFC(crc, b);
    } else if k == 13 { StepFD(crc, b);
    } else if k == 14 { StepFE(crc, b);
    } else { StepFF(crc, b); }
  }

  /**
   * One table step of the firmware's loop, with octet b entering register
   * crc, does the work of eight rounds on crc ^ b.
   */
  lemma TableStep(crc: bv32, b: bv32)
    requires b < 256
    ensures TableEntry((crc ^ b) & 0xFF) ^ (crc >> 8) == Rounds8(crc ^ b)
  {
    var r := (crc ^ b) & 0xF0;
    if r == 0x00 { StepRow0(crc, b);
    } else if r == 0x10 { StepRow1(crc, b);
    } else if r == 0x20 { StepRow2(crc, b);
    } else if r == 0x30 { StepRow3(crc, b);
    } else if r == 0x40 { StepRow4(crc, b);
    } else if r == 0x50 { StepRow5(crc, b);
    } else if r == 0x60 { StepRow6(crc, b);
    } else if r == 0x70 { StepRow7(crc, b);
    } else if r == 0x80 { StepRow8(crc, b);
    } else if r == 0x90 { StepRow9(crc, b);
    } else if r == 0xA0 { StepRowA(crc, b);
    } else if r == 0xB0 { StepRowB(crc, b);
    } else if r == 0xC0 { StepRowC(crc, b);
    } else if r == 0xD0 { StepRowD(crc, b);
    } else if r == 0xE0 { StepRowE(crc, b);
    } else { StepRowF(crc, b); }
  }

  lemma EntryRow0(i: bv32)
    requires i < 256 && i & 0xF0 == 0x00
    ensures TableEntry(i) == Rounds8(i)
  {
    if i == 0x00 { assert TableEntry(0x00) == Rounds8(0x00);
    } else if i == 0x01 { assert TableEntry(0x01) == Rounds8(0x01);
    } else if i == 0x02 { assert TableEntry(0x02) == Rounds8(0x02);
    } else if i == 0x03 { assert TableEntry(0x03) == Rounds8(0x03);
    } else if i == 0x04 { assert TableEntry(0x04) == Rounds8(0x04);
    } else if i == 0x05 { assert TableEntry(0x05) == Rounds8(0x05);
    } else if i == 0x06 { assert TableEntry(0x06) == Rounds8(0x06);
    } else if i == 0x07 { assert TableEntry(0x07) == Rounds8(0x07);
    } else if i == 0x08 { assert TableEntry(0x08) == Rounds8(0x08);
    } else if i == 0x09 { assert TableEntry(0x09) == Rounds8(0x09);
    } else if i == 0x0A { assert TableEntry(0x0A) == Rounds8(0x0A);
    } else if i == 0x0B { assert TableEntry(0x0B) == Rounds8(0x0B);
    } else if i == 0x0C { assert TableEntry(0x0C) == Rounds8(0x0C);
    } else if i == 0x0D { assert TableEntry(0x0D) == Rounds8(0x0D);
    } else if i == 0x0E { assert TableEntry(0x0E) == Rounds8(0x0E);
    } else { assert i == 0x0F; }
  }

  lemma EntryRow1(i: bv32)
    requires i < 256 && i & 0xF0 == 0x10
    ensures TableEntry(i) == Rounds8(i)
  {
    if i == 0x10 { assert TableEntry(0x10) == Rounds8(0x10);
    } else if i == 0x11 { assert TableEntry(0x11) == Rounds8(0x11);
    } else if i == 0x12 { assert TableEntry(0x12) == Rounds8(0x12);
    } else if i == 0x13 { assert TableEntry(0x13) == Rounds8(0x13);
    } else if i == 0x14 { assert TableEntry(0x14) == Rounds8(0x14);
    } else if i == 0x15 { assert TableEntry(0x15) == Rounds8(0x15);
    } else if i == 0x16 { assert TableEntry(0x16) == Rounds8(0x16);
    } else if i == 0x17 { assert TableEntry(0x17) == Rounds8(0x17);
    } else if i == 0x18 { assert TableEntry(0x18) == Rounds8(0x18);
    } else if i == 0x19 { assert TableEntry(0x19) == Rounds8(0x19);
    } else if i == 0x1A { assert TableEntry(0x1A) == Rounds8(0x1A);
    } else if i == 0x1B { assert TableEntry(0x1B) == Rounds8(0x1B);
    } else if i == 0x1C { assert TableEntry(0x1C) == Rounds8(0x1C);
    } else if i == 0x1D { assert TableEntry(0x1D) == Rounds8(0x1D);
    } else if i == 0x1E { assert TableEntry(0x1E) == Rounds8(0x1E);
    } else { assert i == 0x1F; }
  }

  lemma EntryRow2(i: bv32)
    requires i < 256 && i & 0xF0 == 0x20
    ensures TableEntry(i) == Rounds8(i)
  {
    if i == 0x20 { assert TableEntry(0x20) == Rounds8(0x20);
    } else if i == 0x21 { assert TableEntry(0x21) == Rounds8(0x21);
    } else if i == 0x22 { assert TableEntry(0x22) == Rounds8(0x22);
    } else if i == 0x23 { assert TableEntry(0x23) == Rounds8(0x23);
    } else if i == 0x24 { assert TableEntry(0x24) == Rounds8(0x24);
    } else if i == 0x25 { assert TableEntry(0x25) == Rounds8(0x25);
    } else if i == 0x26 { assert TableEntry(0x26) == Rounds8(0x26);
    } else if i == 0x27 { assert TableEntry(0x27) == Rounds8(0x27);
    } else if i == 0x28 { assert TableEntry(0x28) == Rounds8(0x28);
    } else if i == 0x29 { assert TableEntry(0x29) == Rounds8(0x29);
    } else if i == 0x2A { assert TableEntry(0x2A) == Rounds8(0x2A);
    } else if i == 0x2B { assert TableEntry(0x2B) == Rounds8(0x2B);
    } else if i == 0x2C { assert TableEntry(0x2C) == Rounds8(0x2C);
    } else if i == 0x2D { assert TableEntry(0x2D) == Rounds8(0x2D);
    } else if i == 0x2E { assert TableEntry(0x2E) == Rounds8(0x2E);
    } else { assert i == 0x2F; }
  }

  lemma EntryRow3(i: bv32)
    requires i < 256 && i & 0xF0 == 0x30
    ensures TableEntry(i) == Rounds8(i)
  {
    if i == 0x30 { assert TableEntry(0x30) == Rounds8(0x30);
    } else if i == 0x31 { assert TableEntry(0x31) == Rounds8(0x31);
    } else if i == 0x32 { assert TableEntry(0x32) == Rounds8(0x32);
    } else if i == 0x33 { assert TableEntry(0x33) == Rounds8(0x33);
    } else if i == 0x34 { assert TableEntry(0x34) == Rounds8(0x34);
    } else if i == 0x35 { assert TableEntry(0x35) == Rounds8(0x35);
    } else if i == 0x36 { assert TableEntry(0x36) == Rounds8(0x36);
    } else if i == 0x37 { assert TableEntry(0x37) == Rounds8(0x37);
    } else if i == 0x38 { assert TableEntry(0x38) == Rounds8(0x38);
    } else if i == 0x39 { assert TableEntry(0x39) == Rounds8(0x39);
    } else if i == 0x3A { assert TableEntry(0x3A) == Rounds8(0x3A);
    } else if i == 0x3B { assert TableEntry(0x3B) == Rounds8(0x3B);
    } else if i == 0x3C { assert TableEntry(0x3C) == Rounds8(0x3C);
    } else if i == 0x3D { assert TableEntry(0x3D) == Rounds8(0x3D);
    } else if i == 0x3E { assert TableEntry(0x3E) == Rounds8(0x3E);
    } else { assert i == 0x3F; }
  }

  lemma EntryRow4(i: bv32)
    requires i < 256 && i & 0xF0 == 0x40
    ensures TableEntry(i) == Rounds8(i)
  {
    if i == 0x40 { assert TableEntry(0x40) == Rounds8(0x40);
    } else if i == 0x41 { assert TableEntry(0x41) == Rounds8(0x41);
    } else if i == 0x42 { assert TableEntry(0x42) == Rounds8(0x42);
    } else if i == 0x43 { assert TableEntry(0x43) == Rounds8(0x43);
    } else if i == 0x44 { assert TableEntry(0x44) == Rounds8(0x44);
    } else if i == 0x45 { assert TableEntry(0x45) == Rounds8(0x45);
    } else if i == 0x46 { assert TableEntry(0x46) == Rounds8(0x46);
    } else if i == 0x47 { assert TableEntry(0x47) == Rounds8(0x47);
    } else if i == 0x48 { assert TableEntry(0x48) == Rounds8(0x48);
    } else if i == 0x49 { assert TableEntry(0x49) == Rounds8(0x49);
    } else if i == 0x4A { assert TableEntry(0x4A) == Rounds8(0x4A);
    } else if i == 0x4B { assert TableEntry(0x4B) == Rounds8(0x4B);
    } else if i == 0x4C { assert TableEntry(0x4C) == Rounds8(0x4C);
    } else if i == 0x4D { assert TableEntry(0x4D) == Rounds8(0x4D);
    } else if i == 0x4E { assert TableEntry(0x4E) == Rounds8(0x4E);
    } else { assert i == 0x4F; }
  }

  lemma EntryRow5(i: bv32)
    requires i < 256 && i & 0xF0 == 0x50
    ensures TableEntry(i) == Rounds8(i)
  {
    if i == 0x50 { assert TableEntry(0x50) == Rounds8(0x50);
    } else if i == 0x51 { assert TableEntry(0x51) == Rounds8(0x51);
    } else if i == 0x52 { assert TableEntry(0x52) == Rounds8(0x52);
    } else if i == 0x53 { assert TableEntry(0x53) == Rounds8(0x53);
    } else if i == 0x54 { assert TableEntry(0x54) == Rounds8(0x54);
    } else if i == 0x55 { assert TableEntry(0x55) == Rounds8(0x55);
    } else if i == 0x56 { assert TableEntry(0x56) == Rounds8(0x56);
    } else if i == 0x57 { assert TableEntry(0x57) == Rounds8(0x57);
    } else if i == 0x58 { assert TableEntry(0x58) == Rounds8(0x58);
    } else if i == 0x59 { assert TableEntry(0x59) == Rounds8(0x59);
    } else if i == 0x5A { assert TableEntry(0x5A) == Rounds8(0x5A);
    } else if i == 0x5B { assert TableEntry(0x5B) == Rounds8(0x5B);
    } else if i == 0x5C { assert TableEntry(0x5C) == Rounds8(0x5C);
    } else if i == 0x5D { assert TableEntry(0x5D) == Rounds8(0x5D);
    } else if i == 0x5E { assert TableEntry(0x5E) == Rounds8(0x5E);
    } else { assert i == 0x5F; }
  }

  lemma EntryRow6(i: bv32)
    requires i < 256 && i & 0xF0 == 0x60
    ensures TableEntry(i) == Rounds8(i)
  {
    if i == 0x60 { assert TableEntry(0x60) == Rounds8(0x60);
    } else if i == 0x61 { assert TableEntry(0x61) == Rounds8(0x61);
    } else if i == 0x62 { assert TableEntry(0x62) == Rounds8(0x62);
    } else if i == 0x63 { assert TableEntry(0x63) == Rounds8(0x63);
    } else if i == 0x64 { assert TableEntry(0x64) == Rounds8(0x64);
    } else if i == 0x65 { assert TableEntry(0x65) == Rounds8(0x65);
    } else if i == 0x66 { assert TableEntry(0x66) == Rounds8(0x66);
    } else if i == 0x67 { assert TableEntry(0x67) == Rounds8(0x67);
    } else if i == 0x68 { assert TableEntry(0x68) == Rounds8(0x68);
    } else if i == 0x69 { assert TableEntry(0x69) == Rounds8(0x69);
    } else if i == 0x6A { assert TableEntry(0x6A) == Rounds8(0x6A);
    } else if i == 0x6B { assert TableEntry(0x6B) == Rounds8(0x6B);
    } else if i == 0x6C { assert TableEntry(0x6C) == Rounds8(0x6C);
    } else if i == 0x6D { assert TableEntry(0x6D) == Rounds8(0x6D);
    } else if i == 0x6E { assert TableEntry(0x6E) == Rounds8(0x6E);
    } else { assert i == 0x6F; }
  }

  lemma EntryRow7(i: bv32)
    requires i < 256 && i & 0xF0 == 0x70
    ensures TableEntry(i) == Rounds8(i)
  {
    if i == 0x70 { assert TableEntry(0x70) == Rounds8(0x70);
    } else if i == 0x71 { assert TableEntry(0x71) == Rounds8(0x71);
    } else if i == 0x72 { assert TableEntry(0x72) == Rounds8(0x72);
    } else if i == 0x73 { assert TableEntry(0x73) == Rounds8(0x73);
    } else if i == 0x74 { assert TableEntry(0x74) == Rounds8(0x74);
    } else if i == 0x75 { assert TableEntry(0x75) == Rounds8(0x75);
    } else if i == 0x76 { assert TableEntry(0x76) == Rounds8(0x76);
    } else if i == 0x77 { assert TableEntry(0x77) == Rounds8(0x77);
    } else if i == 0x78 { assert TableEntry(0x78) == Rounds8(0x78);
    } else if i == 0x79 { assert TableEntry(0x79) == Rounds8(0x79);
    } else if i == 0x7A { assert TableEntry(0x7A) == Rounds8(0x7A);
    } else if i == 0x7B { assert TableEntry(0x7B) == Rounds8(0x7B);
    } else if i == 0x7C { assert TableEntry(0x7C) == Rounds8(0x7C);
    } else if i == 0x7D { assert TableEntry(0x7D) == Rounds8(0x7D);
    } else if i == 0x7E { assert TableEntry(0x7E) == Rounds8(0x7E);
    } else { assert i == 0x7F; }
  }

  lemma EntryRow8(i: bv32)
    requires i < 256 && i & 0xF0 == 0x80
    ensures TableEntry(i) == Rounds8(i)
  {
    if i == 0x80 { assert TableEntry(0x80) == Rounds8(0x80);
    } else if i == 0x81 { assert TableEntry(0x81) == Rounds8(0x81);
    } else if i == 0x82 { assert TableEntry(0x82) == Rounds8(0x82);
    } else if i == 0x83 { assert TableEntry(0x83) == Rounds8(0x83);
    } else if i == 0x84 { assert TableEntry(0x84) == Rounds8(0x84);
    } else if i == 0x85 { assert TableEntry(0x85) == Rounds8(0x85);
    } else if i == 0x86 { assert TableEntry(0x86) == Rounds8(0x86);
    } else if i == 0x87 { assert TableEntry(0x87) == Rounds8(0x87);
    } else if i == 0x88 { assert TableEntry(0x88) == Rounds8(0x88);
    } else if i == 0x89 { assert TableEntry(0x89) == Rounds8(0x89);
    } else if i == 0x8A { assert TableEntry(0x8A) == Rounds8(0x8A);
    } else if i == 0x8B { assert TableEntry(0x8B) == Rounds8(0x8B);
    } else if i == 0x8C { assert TableEntry(0x8C) == Rounds8(0x8C);
    } else if i == 0x8D { assert TableEntry(0x8D) == Rounds8(0x8D);
    } else if i == 0x8E { assert TableEntry(0x8E) == Rounds8(0x8E);
    } else { assert i == 0x8F; }
  }

  lemma EntryRow9(i: bv32)
    requires i < 256 && i & 0xF0 == 0x90
    ensures TableEntry(i) == Rounds8(i)
  {
    if i == 0x90 { assert TableEntry(0x90) == Rounds8(0x90);
    } else if i == 0x91 { assert TableEntry(0x91) == Rounds8(0x91);
    } else if i == 0x92 { assert TableEntry(0x92) == Rounds8(0x92);
    } else if i == 0x93 { assert TableEntry(0x93) == Rounds8(0x93);
    } else if i == 0x94 { assert TableEntry(0x94) == Rounds8(0x94);
    } else if i == 0x95 { assert TableEntry(0x95) == Rounds8(0x95);
    } else if i == 0x96 { assert TableEntry(0x96) == Rounds8(0x96);
    } else if i == 0x97 { assert TableEntry(0x97) == Rounds8(0x97);
    } else if i == 0x98 { assert TableEntry(0x98) == Rounds8(0x98);
    } else if i == 0x99 { assert TableEntry(0x99) == Rounds8(0x99);
    } else if i == 0x9A { assert TableEntry(0x9A) == Rounds8(0x9A);
    } else if i == 0x9B { assert TableEntry(0x9B) == Rounds8(0x9B);
    } else if i == 0x9C { assert TableEntry(0x9C) == Rounds8(0x9C);
    } else if i == 0x9D { assert TableEntry(0x9D) == Rounds8(0x9D);
    } else if i == 0x9E { assert TableEntry(0x9E) == Rounds8(0x9E);
    } else { assert i == 0x9F; }
  }

  lemma EntryRowA(i: bv32)
    requires i < 256 && i & 0xF0 == 0xA0
    ensures TableEntry(i) == Rounds8(i)
  {
    if i == 0xA0 { assert TableEntry(0xA0) == Rounds8(0xA0);
    } else if i == 0xA1 { assert TableEntry(0xA1) == Rounds8(0xA1);
    } else if i == 0xA2 { assert TableEntry(0xA2) == Rounds8(0xA2);
    } else if i == 0xA3 { assert TableEntry(0xA3) == Rounds8(0xA3);
    } else if i == 0xA4 { assert TableEntry(0xA4) == Rounds8(0xA4);
    } else if i == 0xA5 { assert TableEntry(0xA5) == Rounds8(0xA5);
    } else if i == 0xA6 { assert TableEntry(0xA6) == Rounds8(0xA6);
    } else if i == 0xA7 { assert TableEntry(0xA7) == Rounds8(0xA7);
    } else if i == 0xA8 { assert TableEntry(0xA8) == Rounds8(0xA8);
    } else if i == 0xA9 { assert TableEntry(0xA9) == Rounds8(0xA9);
    } else if i == 0xAA { assert TableEntry(0xAA) == Rounds8(0xAA);
    } else if i == 0xAB { assert TableEntry(0xAB) == Rounds8(0xAB);
    } else if i == 0xAC { assert TableEntry(0xAC) == Rounds8(0xAC);
    } else if i == 0xAD { assert TableEntry(0xAD) == Rounds8(0xAD);
    } else if i == 0xAE { assert TableEntry(0xAE) == Rounds8(0xAE);
    } else { assert i == 0xAF; }
  }

  lemma EntryRowB(i: bv32)
    requires i < 256 && i & 0xF0 == 0xB0
    ensures TableEntry(i) == Rounds8(i)
  {
    if i == 0xB0 { assert TableEntry(0xB0) == Rounds8(0xB0);
    } else if i == 0xB1 { assert TableEntry(0xB1) == Rounds8(0xB1);
    } else if i == 0xB2 { assert TableEntry(0xB2) == Rounds8(0xB2);
    } else if i == 0xB3 { assert TableEntry(0xB3) == Rounds8(0xB3);
    } else if i == 0xB4 { assert TableEntry(0xB4) == Rounds8(0xB4);
    } else if i == 0xB5 { assert TableEntry(0xB5) == Rounds8(0xB5);
    } else if i == 0xB6 { assert TableEntry(0xB6) == Rounds8(0xB6);
    } else if i == 0xB7 { assert TableEntry(0xB7) == Rounds8(0xB7);
    } else if i == 0xB8 { assert TableEntry(0xB8) == Rounds8(0xB8);
    } else if i == 0xB9 { assert TableEntry(0xB9) == Rounds8(0xB9);
    } else if i == 0xBA { assert TableEntry(0xBA) == Rounds8(0xBA);
    } else if i == 0xBB { assert TableEntry(0xBB) == Rounds8(0xBB);
    } else if i == 0xBC { assert TableEntry(0xBC) == Rounds8(0xBC);
    } else if i == 0xBD { assert TableEntry(0xBD) == Rounds8(0xBD);
    } else if i == 0xBE { assert TableEntry(0xBE) == Rounds8(0xBE);
    } else { assert i == 0xBF; }
  }

  lemma EntryRowC(i: bv32)
    requires i < 256 && i & 0xF0 == 0xC0
    ensures TableEntry(i) == Rounds8(i)
  {
    if i == 0xC0 { assert TableEntry(0xC0) == Rounds8(0xC0);
    } else if i == 0xC1 { assert TableEntry(0xC1) == Rounds8(0xC1);
    } else if i == 0xC2 { assert TableEntry(0xC2) == Rounds8(0xC2);
    } else if i == 0xC3 { assert TableEntry(0xC3) == Rounds8(0xC3);
    } else if i == 0xC4 { assert TableEntry(0xC4) == Rounds8(0xC4);
    } else if i == 0xC5 { assert TableEntry(0xC5) == Rounds8(0xC5);
    } else if i == 0xC6 { assert TableEntry(0xC6) == Rounds8(0xC6);
    } else if i == 0xC7 { assert TableEntry(0xC7) == Rounds8(0xC7);
    } else if i == 0xC8 { assert TableEntry(0xC8) == Rounds8(0xC8);
    } else if i == 0xC9 { assert TableEntry(0xC9) == Rounds8(0xC9);
    } else if i == 0xCA { assert TableEntry(0xCA) == Rounds8(0xCA);
    } else if i == 0xCB { assert TableEntry(0xCB) == Rounds8(0xCB);
    } else if i == 0xCC { assert TableEntry(0xCC) == Rounds8(0xCC);
    } else if i == 0xCD { assert TableEntry(0xCD) == Rounds8(0xCD);
    } else if i == 0xCE { assert TableEntry(0xCE) == Rounds8(0xCE);
    } else { assert i == 0xCF; }
  }

  lemma EntryRowD(i: bv32)
    requires i < 256 && i & 0xF0 == 0xD0
    ensures TableEntry(i) == Rounds8(i)
  {
    if i == 0xD0 { assert TableEntry(0xD0) == Rounds8(0xD0);
    } else if i == 0xD1 { assert TableEntry(0xD1) == Rounds8(0xD1);
    } else if i == 0xD2 { assert TableEntry(0xD2) == Rounds8(0xD2);
    } else if i == 0xD3 { assert TableEntry(0xD3) == Rounds8(0xD3);
    } else if i == 0xD4 { assert TableEntry(0xD4) == Rounds8(0xD4);
    } else if i == 0xD5 { assert TableEntry(0xD5) == Rounds8(0xD5);
    } else if i == 0xD6 { assert TableEntry(0xD6) == Rounds8(0xD6);
    } else if i == 0xD7 { assert TableEntry(0xD7) == Rounds8(0xD7);
    } else if i == 0xD8 { assert TableEntry(0xD8) == Rounds8(0xD8);
    } else if i == 0xD9 { assert TableEntry(0xD9) == Rounds8(0xD9);
    } else if i == 0xDA { assert TableEntry(0xDA) == Rounds8(0xDA);
    } else if i == 0xDB { assert TableEntry(0xDB) == Rounds8(0xDB);
    } else if i == 0xDC { assert TableEntry(0xDC) == Rounds8(0xDC);
    } else if i == 0xDD { assert TableEntry(0xDD) == Rounds8(0xDD);
    } else if i == 0xDE { assert TableEntry(0xDE) == Rounds8(0xDE);
    } else { assert i == 0xDF; }
  }

  lemma EntryRowE(i: bv32)
    requires i < 256 && i & 0xF0 == 0xE0
    ensures TableEntry(i) == Rounds8(i)
  {
    if i == 0xE0 { assert TableEntry(0xE0) == Rounds8(0xE0);
    } else if i == 0xE1 { assert TableEntry(0xE1) == Rounds8(0xE1);
    } else if i == 0xE2 { assert TableEntry(0xE2) == Rounds8(0xE2);
    } else if i == 0xE3 { assert TableEntry(0xE3) == Rounds8(0xE3);
    } else if i == 0xE4 { assert TableEntry(0xE4) == Rounds8(0xE4);
    } else if i == 0xE5 { assert TableEntry(0xE5) == Rounds8(0xE5);
    } else if i == 0xE6 { assert TableEntry(0xE6) == Rounds8(0xE6);
    } else if i == 0xE7 { assert TableEntry(0xE7) == Rounds8(0xE7);
    } else if i == 0xE8 { assert TableEntry(0xE8) == Rounds8(0xE8);
    } else if i == 0xE9 { assert TableEntry(0xE9) == Rounds8(0xE9);
    } else if i == 0xEA { assert TableEntry(0xEA) == Rounds8(0xEA);
    } else if i == 0xEB { assert TableEntry(0xEB) == Rounds8(0xEB);
    } else if i == 0xEC { assert TableEntry(0xEC) == Rounds8(0xEC);
    } else if i == 0xED { assert TableEntry(0xED) == Rounds8(0xED);
    } else if i == 0xEE { assert TableEntry(0xEE) == Rounds8(0xEE);
    } else { assert i == 0xEF; }
  }

  lemma EntryRowF(i: bv32)
    requires i < 256 && i & 0xF0 == 0xF0
    ensures TableEntry(i) == Rounds8(i)
  {
    if i == 0xF0 { assert TableEntry(0xF0) == Rounds8(0xF0);
    } else if i == 0xF1 { assert TableEntry(0xF1) == Rounds8(0xF1);
    } else if i == 0xF2 { assert TableEntry(0xF2) == Rounds8(0xF2);
    } else if i == 0xF3 { assert TableEntry(0xF3) == Rounds8(0xF3);
    } else if i == 0xF4 { assert TableEntry(0xF4) == Rounds8(0xF4);
    } else if i == 0xF5 { assert TableEntry(0xF5) == Rounds8(0xF5);
    } else if i == 0xF6 { assert TableEntry(0xF6) == Rounds8(0xF6);
    } else if i == 0xF7 { assert TableEntry(0xF7) == Rounds8(0xF7);
    } else if i == 0xF8 { assert TableEntry(0xF8) == Rounds8(0xF8);
    } else if i == 0xF9 { assert TableEntry(0xF9) == Rounds8(0xF9);
    } else if i == 0xFA { assert TableEntry(0xFA) == Rounds8(0xFA);
    } else if i == 0xFB { assert TableEntry(0xFB) == Rounds8(0xFB);
    } else if i == 0xFC { assert TableEntry(0xFC) == Rounds8(0xFC);
    } else if i == 0xFD { assert TableEntry(0xFD) == Rounds8(0xFD);
    } else if i == 0xFE { assert TableEntry(0xFE) == Rounds8(0xFE);
    } else { assert i == 0xFF; }
  }

  /** Entry i of the table is eight reflected shift/XOR rounds of i. */
  lemma TableEntryIsRounds(i: bv32)
    requires i < 256
    ensures TableEntry(i) == Rounds8(i)
  {
    var h := i & 0xF0;
    if h == 0x00 { EntryRow0(i);
    } else if h == 0x10 { EntryRow1(i);
    } else if h == 0x20 { EntryRow2(i);
    } else if h == 0x30 { EntryRow3(i);
    } else if h == 0x40 { EntryRow4(i);
    } else if h == 0x50 { EntryRow5(i);
    } else if h == 0x60 { EntryRow6(i);
    } else if h == 0x70 { EntryRow7(i);
    } else if h == 0x80 { EntryRow8(i);
    } else if h == 0x90 { EntryRow9(i);
    } else if h == 0xA0 { EntryRowA(i);
    } else if h == 0xB0 { EntryRowB(i);
    } else if h == 0xC0 { EntryRowC(i);
    } else if h == 0xD0 { EntryRowD(i);
    } else if h == 0xE0 { EntryRowE(i);
    } else { EntryRowF(i); }
  }
}
