// CRC-32 of ISO 3309 / ITU-T V.42 (the checksum of RFC 1952, section 2.3.1):
// the bitwise definition, and the firmware's table-driven loop proved equal
// to it.

module Crc32 {
  import opened Crc32Table
  import Text

  /** The octet a character contributes: `(uint8_t)c`. */
  function Octet(c: char): (b: bv32)
    ensures b < 256
  {
    ((c as int % 256) as bv8) as bv32
  }

  /**
   * The shift register after feeding the octets of s one bit at a time,
   * starting from 0xFFFFFFFF.
   */
  function Register(s: string): bv32
  {
    if |s| == 0 then 0xFFFF_FFFF
    else Rounds8(Register(s[..|s| - 1]) ^ Octet(s[|s| - 1]))
  }

  /** Standard CRC-32: the final register XOR 0xFFFFFFFF. */
  function Crc(s: string): bv32
  {
    Register(s) ^ 0xFFFF_FFFF
  }

  /** The CRC as an unsigned 32-bit number. */
  function CrcValue(s: string): (v: nat)
    ensures Text.IsU32(v)
  {
    Crc(s) as nat
  }

  lemma RegisterNext(data: string, i: nat)
    requires i < |data|
    ensures Register(data[..i + 1]) == Rounds8(Register(data[..i]) ^ Octet(data[i]))
  {
    assert data[..i + 1][..i] == data[..i];
  }

  /**
   * The body of the firmware's loop, `table[(crc ^ b) & 0xFF] ^ (crc >> 8)`:
   * eight reflected rounds of the register with octet b XORed in.
   */
  method TableUpdate(reg: bv32, b: bv32) returns (next: bv32)
    requires b < 256
    ensures next == Rounds8(reg ^ b)
  {
    TableStep(reg, b);
    next := TableEntry((reg ^ b) & 0xFF) ^ (reg >> 8);
  }

  /** Feeding octet i of data moves the register from prefix i to prefix i + 1. */
  method Feed(reg: bv32, data: string, i: nat) returns (next: bv32)
    requires i < |data| && reg == Register(data[..i])
    ensures next == Register(data[..i + 1])
  {
    RegisterNext(data, i);
    next := TableUpdate(reg, Octet(data[i]));
  }

  /**
   * crc32_compute: one table step per octet from 0xFFFFFFFF, then the final
   * XOR; the result is the bitwise CRC-32 of the data.
   */
  method Compute(data: string) returns (crc: bv32)
    ensures crc == Crc(data)
  {
    var reg: bv32 := 0xFFFF_FFFF;
    var i := 0;
    while i < |data|
      invariant 0 <= i <= |data|
      invariant reg == Register(data[..i])
    {
      reg := Feed(reg, data, i);
      i := i + 1;
    }
    assert data[..|data|] == data;
    crc := reg ^ 0xFFFF_FFFF;
  }
}
