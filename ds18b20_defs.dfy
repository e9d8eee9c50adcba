/**
 * The DS18B20 wire constants and types: the ROM and function command codes,
 * the resolution register encoding and the per-sensor information record.
 */
module Ds18b20Defs {

  /** A value of one 8-bit register or command byte. */
  type Byte = x: int | 0 <= x < 256

  // ROM commands
  const SearchRom: Byte := 0xF0
  const ReadRom: Byte := 0x33
  const MatchRom: Byte := 0x55
  const SkipRom: Byte := 0xCC
  const AlarmSearch: Byte := 0xEC

  // Function commands
  const ConvertT: Byte := 0x44
  const WriteScratchpad: Byte := 0x4E
  const ReadScratchpad: Byte := 0xBE
  const CopyScratchpad: Byte := 0x48
  const RecallE2: Byte := 0xB8
  const ReadPowerSupply: Byte := 0xB4

  /** Every command code the header defines, in declaration order. */
  const CommandCodes: seq<Byte> :=
    [SearchRom, ReadRom, MatchRom, SkipRom, AlarmSearch, ConvertT,
     WriteScratchpad, ReadScratchpad, CopyScratchpad, RecallE2, ReadPowerSupply]

  /** The eleven command codes are pairwise distinct bytes. */
  lemma CommandCodesDistinct()
    ensures |CommandCodes| == 11
    ensures forall i, j :: 0 <= i < j < |CommandCodes| ==> CommandCodes[i] != CommandCodes[j]
  {
  }

  /** The four register values of the resolution enumeration. */
  predicate IsResolution(r: int) {
    r == 0x1F || r == 0x3F || r == 0x5F || r == 0x7F
  }

  type Resolution = r: Byte | IsResolution(r) witness 0x1F

  const Res9Bit: Resolution := 0x1F
  const Res10Bit: Resolution := 0x3F
  const Res11Bit: Resolution := 0x5F
  const Res12Bit: Resolution := 0x7F

  /** The information record kept per sensor. */
  datatype Info = Info(gpioNum: int, init: bool, resolution: Resolution)

  /** Exactly four bytes are legal resolution values. */
  lemma ResolutionValues()
    ensures (set r: int | 0 <= r < 256 && IsResolution(r)) == {Res9Bit, Res10Bit, Res11Bit, Res12Bit}
    ensures |set r: int | 0 <= r < 256 && IsResolution(r)| == 4
  {
    var legal := set r: int | 0 <= r < 256 && IsResolution(r);
    assert legal == {0x1F, 0x3F, 0x5F, 0x7F};
  }

  /**
   * A byte is a resolution value exactly when its low five bits are all set
   * and its top bit is clear: the four values differ only in bits 5 and 6.
   */
  lemma ResolutionLayout(r: Byte)
    ensures IsResolution(r) <==> (r % 32 == 31 && r < 128)
  {
  }

  /** The register value the enumeration gives a conversion depth of `bits` bits. */
  function ResolutionOf(bits: int): (r: Resolution)
    requires 9 <= bits <= 12
    ensures r == 0x1F + 0x20 * (bits - 9)
  {
    match bits
    case 9 => Res9Bit
    case 10 => Res10Bit
    case 11 => Res11Bit
    case 12 => Res12Bit
  }

  /** The conversion depth a resolution value selects; the inverse of ResolutionOf. */
  function BitDepth(r: Resolution): (bits: int)
    ensures 9 <= bits <= 12
    ensures ResolutionOf(bits) == r
    ensures r % 32 == 31 && r / 32 == bits - 9
  {
    assert IsResolution(r);
    9 + r / 32
  }

  /** ResolutionOf is injective: each depth has its own register value. */
  lemma ResolutionOfInjective(m: int, n: int)
    requires 9 <= m <= 12 && 9 <= n <= 12
    ensures ResolutionOf(m) == ResolutionOf(n) <==> m == n
  {
  }
}
