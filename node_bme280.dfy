/** The node's BME280 driver (bme280.c): the calibration readout of section
    4.2.2 of the Bosch BME280 datasheet, the raw readings, and the integer
    compensation formulas of section 4.2.3, with the C types' widths written
    out. A right shift of a signed value is the floor division the compiler
    generates (`x >> k` is `x / 2^k` with a positive divisor); every int32 or
    int64 intermediate wraps as the processor's two's complement arithmetic
    does; C's `/` truncates toward zero. */
module NodeBme280 {
  import opened Base

  type i8 = x: int | -0x80 <= x < 0x80
  type i16 = x: int | -0x8000 <= x < 0x8000
  type i32 = x: int | -0x8000_0000 <= x < 0x8000_0000
  type i64 = x: int | -0x8000_0000_0000_0000 <= x < 0x8000_0000_0000_0000

  /** Conversion to a signed type: the value congruent to `x` in range. */
  function I8(x: int): (r: i8)
    ensures -0x80 <= x < 0x80 ==> r == x
    ensures r % 0x100 == x % 0x100
  {
    var m := x % 0x100; if m < 0x80 then m else m - 0x100
  }

  function I16(x: int): (r: i16)
    ensures -0x8000 <= x < 0x8000 ==> r == x
    ensures r % 0x1_0000 == x % 0x1_0000
  {
    var m := x % 0x1_0000; if m < 0x8000 then m else m - 0x1_0000
  }

  function I32(x: int): (r: i32)
    ensures -0x8000_0000 <= x < 0x8000_0000 ==> r == x
    ensures r % 0x1_0000_0000 == x % 0x1_0000_0000
  {
    var m := x % 0x1_0000_0000; if m < 0x8000_0000 then m else m - 0x1_0000_0000
  }

  function I64(x: int): (r: i64)
    ensures -0x8000_0000_0000_0000 <= x < 0x8000_0000_0000_0000 ==> r == x
    ensures r % 0x1_0000_0000_0000_0000 == x % 0x1_0000_0000_0000_0000
  {
    var m := x % 0x1_0000_0000_0000_0000; if m < 0x8000_0000_0000_0000 then m else m - 0x1_0000_0000_0000_0000
  }

  function Abs(x: int): nat
  {
    if x < 0 then -x else x
  }

  /** C's `/`: the quotient truncated toward zero. */
  function TDiv(a: int, b: int): (q: int)
    requires b != 0
  {
    if (a < 0) == (b < 0) then Abs(a) / Abs(b) else -(Abs(a) / Abs(b))
  }

  // ------------------------------------------------------------ registers

  const BmeAddr: byte := 0x76
  const RegComp1: byte := 0x88
  const RegComp1Len: nat := 24
  const RegComp2: byte := 0xA1
  const RegComp3: byte := 0xE1
  const RegComp3Len: nat := 7
  const RegCtrlHum: byte := 0xF2
  const RegStatus: byte := 0xF3
  const RegCtrlMeasure: byte := 0xF4
  const RegPress: byte := 0xF7
  const RegTemp: byte := 0xFA
  const RegHumidity: byte := 0xFD
  const StatusMeasuring: byte := 0x08
  const Oversampling1x: byte := 0x01
  const ForcedMode: byte := 0x01
  const CalibrationLength: nat := 32

  // ------------------------------------------------------------ calibration

  /** `struct compensation_t` without `t_fine`. */
  datatype Calibration = Calibration(
    t1: u16, t2: i16, t3: i16,
    p1: u16, p2: i16, p3: i16, p4: i16, p5: i16, p6: i16, p7: i16, p8: i16, p9: i16,
    h1: byte, h2: i16, h3: byte, h4: i16, h5: i16, h6: i8)

  /** The static zero initialiser, in force until `bme_setup` runs. */
  const Uncalibrated := Calibration(0, 0, 0, 0, 0, 0, 0, 0, 0, 0, 0, 0, 0, 0, 0, 0, 0, 0)

  /** `h4` and `h5` are 12-bit two's complement values in the chip. */
  predicate Is12Bit(x: int) { -0x800 <= x < 0x800 }

  /** A little-endian 16-bit word: `hi << 8 | lo`. */
  function Le16(lo: byte, hi: byte): u16
  {
    hi * 0x100 + lo
  }

  /** The unsigned and the signed little-endian word at `b[i..i + 2]`. */
  function U16At(b: seq<byte>, i: nat): u16
    requires i + 1 < |b|
  {
    Le16(b[i], b[i + 1])
  }

  function I16At(b: seq<byte>, i: nat): i16
    requires i + 1 < |b|
  {
    I16(Le16(b[i], b[i + 1]))
  }

  /** Temperature and pressure word `j` of a readout: `dig_T1` and `dig_P1`
      are unsigned, the others signed. */
  function ReadWord(b: seq<byte>, j: nat): int
    requires j < 12 && |b| >= 24
  {
    if j == 0 || j == 3 then U16At(b, 2 * j) else I16At(b, 2 * j)
  }

  /** A 12-bit value from a whole byte and a nibble, `msb << 4 | nibble`,
      with the byte read as signed. */
  function Signed12(msb: byte, nibble: int): (x: int)
    requires 0 <= nibble < 0x10
    ensures Is12Bit(x) && x % 0x10 == nibble
  {
    I8(msb) * 0x10 + nibble
  }

  /** The same with the byte read as unsigned, as `read_compensation_data` does. */
  function Unsigned12(msb: byte, nibble: int): (x: int)
    requires 0 <= nibble < 0x10
    ensures 0 <= x < 0x1000 && x % 0x10 == nibble
  {
    msb * 0x10 + nibble
  }

  /** The calibration the trimming readout holds: 24 bytes from 0x88, one from
      0xA1 and seven from 0xE1, decoded as section 4.2.2 lays them out, with
      `h4` and `h5` sign-extended from their 12 bits. */
  function DecodeCalibration(b: seq<byte>): (c: Calibration)
    requires |b| == CalibrationLength
    ensures Is12Bit(c.h4) && Is12Bit(c.h5)
  {
    Calibration(
      ReadWord(b, 0), ReadWord(b, 1), ReadWord(b, 2),
      ReadWord(b, 3), ReadWord(b, 4), ReadWord(b, 5), ReadWord(b, 6), ReadWord(b, 7), ReadWord(b, 8),
      ReadWord(b, 9), ReadWord(b, 10), ReadWord(b, 11),
      b[24], I16At(b, 25), b[27],
      Signed12(b[28], b[29] % 0x10), Signed12(b[30], b[29] / 0x10), I8(b[31]))
  }

  /** `read_compensation_data` as written: `h4` and `h5` are assembled from
      the unsigned bytes, so their sign bit lands in bit 11 and is never
      extended; every other field is decoded as above. */
  function DecodeCalibrationAsWritten(b: seq<byte>): (c: Calibration)
    requires |b| == CalibrationLength
    ensures 0 <= c.h4 < 0x1000 && 0 <= c.h5 < 0x1000
    ensures c.(h4 := 0, h5 := 0) == DecodeCalibration(b).(h4 := 0, h5 := 0)
  {
    DecodeCalibration(b).(h4 := Unsigned12(b[28], b[29] % 0x10), h5 := Unsigned12(b[30], b[29] / 0x10))
  }

  /** The low and high byte of a 16-bit value, signed or not. */
  function LoByte(w: int): byte
  {
    w % 0x1_0000 % 0x100
  }

  function HiByte(w: int): byte
  {
    w % 0x1_0000 / 0x100
  }

  /** The twelve temperature and pressure words, in register order. */
  function TrimWord(c: Calibration, j: nat): int
    requires j < 12
  {
    [c.t1, c.t2, c.t3, c.p1, c.p2, c.p3, c.p4, c.p5, c.p6, c.p7, c.p8, c.p9][j]
  }

  /** Byte `i` of the trimming readout that holds calibration `c`, the
      layout of section 4.2.2 read forward: twelve little-endian words, then
      `h1`, the word `h2`, `h3`, the two 12-bit values sharing their middle
      byte, and `h6`. */
  function ReadoutByte(c: Calibration, i: nat): byte
    requires i < CalibrationLength
  {
    if i < 24 then (if i % 2 == 0 then LoByte(TrimWord(c, i / 2)) else HiByte(TrimWord(c, i / 2)))
    else if i == 24 then c.h1
    else if i == 25 then LoByte(c.h2)
    else if i == 26 then HiByte(c.h2)
    else if i == 27 then c.h3
    else if i == 28 then c.h4 / 0x10 % 0x100
    else if i == 29 then c.h5 % 0x10 * 0x10 + c.h4 % 0x10
    else if i == 30 then c.h5 / 0x10 % 0x100
    else c.h6 % 0x100
  }

  /** The trimming readout that holds calibration `c`. */
  function EncodeCalibration(c: Calibration): (b: seq<byte>)
    requires Is12Bit(c.h4) && Is12Bit(c.h5)
    ensures |b| == CalibrationLength
  {
    seq(CalibrationLength, i requires 0 <= i < CalibrationLength => ReadoutByte(c, i))
  }

  lemma UnsignedWord(b: seq<byte>, i: nat, w: u16)
    requires i + 1 < |b| && b[i] == LoByte(w) && b[i + 1] == HiByte(w)
    ensures U16At(b, i) == w
  {
  }

  lemma SignedWord(b: seq<byte>, i: nat, w: i16)
    requires i + 1 < |b| && b[i] == LoByte(w) && b[i + 1] == HiByte(w)
    ensures I16At(b, i) == w
  {
    var u := w % 0x1_0000;
    assert Le16(b[i], b[i + 1]) == u;
    if w < 0 {
      assert u == w + 0x1_0000;
    }
  }

  lemma SignedByte(x: i8)
    ensures I8(x % 0x100) == x
  {
    if x < 0 {
      assert x % 0x100 == x + 0x100;
    }
  }

  lemma ByteSigned(x: byte)
    ensures I8(x) % 0x100 == x
  {
  }

  lemma WordOfBytes(lo: byte, hi: byte)
    ensures Le16(lo, hi) % 0x100 == lo && Le16(lo, hi) / 0x100 == hi
  {
  }

  lemma SignedWordMod(u: u16)
    ensures I16(u) % 0x1_0000 == u
  {
  }

  lemma UnsignedBytes(b: seq<byte>, i: nat)
    requires i + 1 < |b|
    ensures LoByte(U16At(b, i)) == b[i] && HiByte(U16At(b, i)) == b[i + 1]
  {
    WordOfBytes(b[i], b[i + 1]);
  }

  lemma SignedBytes(b: seq<byte>, i: nat)
    requires i + 1 < |b|
    ensures LoByte(I16At(b, i)) == b[i] && HiByte(I16At(b, i)) == b[i + 1]
  {
    var u := Le16(b[i], b[i + 1]);
    WordOfBytes(b[i], b[i + 1]);
    SignedWordMod(u);
  }

  lemma NibbleBytes(h4: int, h5: int)
    requires Is12Bit(h4) && Is12Bit(h5)
    ensures var mid := h5 % 0x10 * 0x10 + h4 % 0x10;
      0 <= mid < 0x100 &&
      Signed12(h4 / 0x10 % 0x100, mid % 0x10) == h4 && Signed12(h5 / 0x10 % 0x100, mid / 0x10) == h5
  {
    var mid := h5 % 0x10 * 0x10 + h4 % 0x10;
    assert mid % 0x10 == h4 % 0x10 && mid / 0x10 == h5 % 0x10;
    HighNibble(h4);
    HighNibble(h5);
  }

  lemma HighNibble(h: int)
    requires Is12Bit(h)
    ensures Signed12(h / 0x10 % 0x100, h % 0x10) == h
  {
    var q := h / 0x10;
    assert -0x80 <= q < 0x80;
    assert I8(q % 0x100) == q by {
      if q < 0 {
        assert q % 0x100 == q + 0x100;
      }
    }
  }

  lemma BytesNibble(b28: byte, b29: byte, b30: byte)
    ensures var h4 := Signed12(b28, b29 % 0x10);
      var h5 := Signed12(b30, b29 / 0x10);
      h4 / 0x10 % 0x100 == b28 && h5 % 0x10 * 0x10 + h4 % 0x10 == b29 && h5 / 0x10 % 0x100 == b30
  {
  }

  /** Each temperature and pressure word reads back from its two bytes. */
  lemma WordEncoded(c: Calibration, j: nat)
    requires Is12Bit(c.h4) && Is12Bit(c.h5) && j < 12
    ensures ReadWord(EncodeCalibration(c), j) == TrimWord(c, j)
  {
    var b := EncodeCalibration(c);
    assert b[2 * j] == ReadoutByte(c, 2 * j) && b[2 * j + 1] == ReadoutByte(c, 2 * j + 1);
    if j == 0 || j == 3 {
      UnsignedWord(b, 2 * j, TrimWord(c, j));
    } else {
      SignedWord(b, 2 * j, TrimWord(c, j));
    }
  }

  /** The temperature and pressure words of a calibration survive its readout. */
  lemma TrimDecoded(c: Calibration)
    requires Is12Bit(c.h4) && Is12Bit(c.h5)
    ensures var d := DecodeCalibration(EncodeCalibration(c));
      d.t1 == c.t1 && d.t2 == c.t2 && d.t3 == c.t3 &&
      d.p1 == c.p1 && d.p2 == c.p2 && d.p3 == c.p3 && d.p4 == c.p4 && d.p5 == c.p5 &&
      d.p6 == c.p6 && d.p7 == c.p7 && d.p8 == c.p8 && d.p9 == c.p9
  {
    var b := EncodeCalibration(c);
    forall j | 0 <= j < 12
      ensures ReadWord(b, j) == TrimWord(c, j)
    {
      WordEncoded(c, j);
    }
  }

  /** The humidity parameters of a calibration survive its readout. */
  lemma HumidDecoded(c: Calibration)
    requires Is12Bit(c.h4) && Is12Bit(c.h5)
    ensures var d := DecodeCalibration(EncodeCalibration(c));
      d.h1 == c.h1 && d.h2 == c.h2 && d.h3 == c.h3 && d.h4 == c.h4 && d.h5 == c.h5 && d.h6 == c.h6
  {
    var b := EncodeCalibration(c);
    assert b[24] == c.h1 && b[27] == c.h3 && b[31] == c.h6 % 0x100;
    assert b[25] == LoByte(c.h2) && b[26] == HiByte(c.h2);
    SignedWord(b, 25, c.h2);
    SignedByte(c.h6);
    NibblesDecoded(c);
  }

  /** `h4` and `h5`, which share a byte, survive the readout. */
  lemma NibblesDecoded(c: Calibration)
    requires Is12Bit(c.h4) && Is12Bit(c.h5)
    ensures var d := DecodeCalibration(EncodeCalibration(c));
      d.h4 == c.h4 && d.h5 == c.h5
  {
    var b := EncodeCalibration(c);
    var mid := c.h5 % 0x10 * 0x10 + c.h4 % 0x10;
    NibbleBytes(c.h4, c.h5);
    assert b[28] == c.h4 / 0x10 % 0x100 && b[29] == mid && b[30] == c.h5 / 0x10 % 0x100;
    var d := DecodeCalibration(b);
    assert d.h4 == Signed12(b[28], b[29] % 0x10) && d.h5 == Signed12(b[30], b[29] / 0x10);
  }

  /** Decoding the readout of a calibration gives the calibration back. */
  lemma DecodeEncode(c: Calibration)
    requires Is12Bit(c.h4) && Is12Bit(c.h5)
    ensures DecodeCalibration(EncodeCalibration(c)) == c
  {
    TrimDecoded(c);
    HumidDecoded(c);
  }

  /** Every readout is the encoding of the calibration it decodes to: the
      32 bytes are used, each once. */
  lemma {:induction false} EncodeDecode(b: seq<byte>)
    requires |b| == CalibrationLength
    ensures EncodeCalibration(DecodeCalibration(b)) == b
  {
    var e := EncodeCalibration(DecodeCalibration(b));
    forall i | 0 <= i < CalibrationLength
      ensures e[i] == b[i]
    {
      ReadoutByteDecoded(b, i);
    }
  }

  /** Each byte of the re-encoded readout is the byte it was decoded from. */
  lemma ReadoutByteDecoded(b: seq<byte>, i: nat)
    requires |b| == CalibrationLength && i < CalibrationLength
    ensures ReadoutByte(DecodeCalibration(b), i) == b[i]
  {
    var c := DecodeCalibration(b);
    if i < 24 {
      var j := i / 2;
      assert TrimWord(c, j) == ReadWord(b, j);
      if j == 0 || j == 3 {
        UnsignedBytes(b, 2 * j);
      } else {
        SignedBytes(b, 2 * j);
      }
    } else if i == 25 || i == 26 {
      SignedBytes(b, 25);
    } else if 28 <= i <= 30 {
      BytesNibble(b[28], b[29], b[30]);
    } else if i == 31 {
      ByteSigned(b[31]);
    }
  }

  /** As written, a negative `h4` comes back as a large positive value: the
      readout of a calibration with `h4 = -1` decodes to 4095. */
  lemma AsWrittenLosesSign()
    ensures DecodeCalibrationAsWritten(EncodeCalibration(Uncalibrated.(h4 := -1))).h4 == 0xFFF
    ensures DecodeCalibration(EncodeCalibration(Uncalibrated.(h4 := -1))).h4 == -1
  {
    var b := EncodeCalibration(Uncalibrated.(h4 := -1));
    assert b[28] == 0xFF && b[29] == 0x0F;
    DecodeEncode(Uncalibrated.(h4 := -1));
  }

  // ------------------------------------------------------------ raw readings

  /** The 20-bit raw temperature or pressure: `b0 << 12 | b1 << 4 | b2 >> 4`. */
  function Raw20(b0: byte, b1: byte, b2: byte): (raw: int)
    ensures 0 <= raw < 0x10_0000
  {
    b0 * 0x1000 + b1 * 0x10 + b2 / 0x10
  }

  /** The raw value holds the two bytes whole and the high nibble of the
      third; the low nibble of the third is dropped. */
  lemma Raw20Fields(b0: byte, b1: byte, b2: byte)
    ensures Raw20(b0, b1, b2) / 0x1000 == b0
    ensures Raw20(b0, b1, b2) / 0x10 % 0x100 == b1
    ensures Raw20(b0, b1, b2) % 0x10 == b2 / 0x10
  {
  }

  // ------------------------------------------------------------ compensation

  /** `var1` of `compensate_temp`. */
  function TempLinear(c: Calibration, adcT: int): i32
    requires 0 <= adcT < 0x10_0000
  {
    I32(I32(adcT / 8 - c.t1 * 2) * c.t2) / 0x800
  }

  /** The difference `compensate_temp` squares. */
  function TempDelta(c: Calibration, adcT: int): int
    requires 0 <= adcT < 0x10_0000
  {
    adcT / 0x10 - c.t1
  }

  /** `var2` of `compensate_temp`. */
  function TempQuadratic(c: Calibration, adcT: int): i32
    requires 0 <= adcT < 0x10_0000
  {
    var d := TempDelta(c, adcT);
    I32(I32(I32(d * d) / 0x1000) * c.t3) / 0x4000
  }

  /** `compensation.t_fine` as `compensate_temp` leaves it for the raw
      temperature `adcT`. */
  function TFine(c: Calibration, adcT: int): (tFine: i32)
    requires 0 <= adcT < 0x10_0000
  {
    I32(TempLinear(c, adcT) + TempQuadratic(c, adcT))
  }

  /** The result of `compensate_temp`: hundredths of a degree Celsius. */
  function CompensateTemp(c: Calibration, adcT: int): (t: int)
    requires 0 <= adcT < 0x10_0000
    ensures -0x80_0000 <= t < 0x80_0000
  {
    I32(I32(TFine(c, adcT) * 5) + 128) / 0x100
  }

  /** `var2` of `compensate_press` after its third assignment. */
  function PressOffset(c: Calibration, tFine: i32): i64
  {
    var v1 := I64(tFine - 128000);
    var v2 := I64(I64(v1 * v1) * c.p6);
    var v2 := I64(v2 + I64(I64(v1 * c.p5) * 0x2_0000));
    I64(v2 + I64(c.p4 * 0x8_0000_0000))
  }

  /** `var1` of `compensate_press` after its second assignment. */
  function PressQuadratic(c: Calibration, tFine: i32): i64
  {
    var v1 := I64(tFine - 128000);
    I64(I64(I64(v1 * v1) * c.p3) / 0x100 + I64(I64(v1 * c.p2) * 0x1000))
  }

  /** `var1` of `compensate_press` after its third assignment: the divisor. */
  function PressDivisor(c: Calibration, tFine: i32): i64
  {
    I64(I64(0x8000_0000_0000 + PressQuadratic(c, tFine)) * c.p1) / 0x2_0000_0000
  }

  /** `p` of `compensate_press` after the division. */
  function PressScaled(adcP: int, offset: i64, divisor: i64): i64
    requires 0 <= adcP < 0x10_0000 && divisor != 0
  {
    var p := I64(0x10_0000 - adcP);
    I64(TDiv(I64(I64(I64(p * 0x8000_0000) - offset) * 3125), divisor))
  }

  /** `p` of `compensate_press` after the final correction. */
  function PressCorrected(c: Calibration, p: i64): i64
  {
    var v1 := I64(I64(c.p9 * (p / 0x2000)) * (p / 0x2000)) / 0x200_0000;
    var v2 := I64(c.p8 * p) / 0x8_0000;
    I64(I64(I64(p + v1) + v2) / 0x100 + I64(c.p7 * 0x10))
  }

  /** The result of `compensate_press` for the raw pressure `adcP`: pascals
      in 24.8 fixed point, or 0 when the divisor vanishes. */
  function CompensatePress(c: Calibration, tFine: i32, adcP: int): (p: int)
    requires 0 <= adcP < 0x10_0000
    ensures 0 <= p < 0x1_0000_0000
  {
    var divisor := PressDivisor(c, tFine);
    if divisor == 0 then 0
    else PressCorrected(c, PressScaled(adcP, PressOffset(c, tFine), divisor)) % 0x1_0000_0000
  }

  /** The first factor of `compensate_humid`'s product. */
  function HumidOffset(c: Calibration, v: i32, adcH: int): i32
    requires 0 <= adcH < 0x1_0000
  {
    I32(I32(I32(I32(adcH * 0x4000) - I32(c.h4 * 0x10_0000)) - I32(c.h5 * v)) + 16384) / 0x8000
  }

  /** The second factor of `compensate_humid`'s product. */
  function HumidScale(c: Calibration, v: i32): i32
  {
    var inner := I32(I32(I32(v * c.h6) / 0x400) * I32(I32(I32(v * c.h3) / 0x800) + 32768)) / 0x400;
    I32(I32(I32(inner + 2097152) * c.h2) + 8192) / 0x4000
  }

  /** The product of the two factors. */
  function HumidProduct(a: i32, b: i32): i32
  {
    I32(a * b)
  }

  /** The product after its `h1` correction. */
  function HumidCorrected(c: Calibration, v: i32): i32
  {
    I32(v - I32(I32(I32(I32(v / 0x8000) * (v / 0x8000)) / 0x80) * c.h1) / 0x10)
  }

  /** The result of `compensate_humid` for the raw humidity `adcH`: percent
      relative humidity in 22.10 fixed point, clamped to 100 %. */
  function CompensateHumid(c: Calibration, tFine: i32, adcH: int): (h: int)
    requires 0 <= adcH < 0x1_0000
    ensures 0 <= h <= 102400
  {
    var v := I32(tFine - 76800);
    var v := HumidCorrected(c, HumidProduct(HumidOffset(c, v, adcH), HumidScale(c, v)));
    var v := if v < 0 then 0 else v;
    var v := if v > 419430400 then 419430400 else v;
    v / 0x1000
  }

  /** A value that clears the divisor's guard is never used as a divisor:
      with `p1 = 0`, in particular before `bme_setup` has read the
      calibration, the pressure is 0. */
  lemma PressureGuard(c: Calibration, tFine: i32, adcP: int)
    requires 0 <= adcP < 0x10_0000 && c.p1 == 0
    ensures CompensatePress(c, tFine, adcP) == 0
  {
  }

  /** Before `bme_setup` every compensated reading is 0. */
  lemma UncalibratedReadsZero(adcT: int, adcP: int, adcH: int)
    requires 0 <= adcT < 0x10_0000 && 0 <= adcP < 0x10_0000 && 0 <= adcH < 0x1_0000
    ensures TFine(Uncalibrated, adcT) == 0 && CompensateTemp(Uncalibrated, adcT) == 0
    ensures CompensatePress(Uncalibrated, 0, adcP) == 0
    ensures CompensateHumid(Uncalibrated, 0, adcH) == 0
  {
    UncalibratedTemp(adcT);
    PressureGuard(Uncalibrated, 0, adcP);
    HumidWithoutH2(Uncalibrated, 0, adcH);
  }

  lemma UncalibratedTemp(adcT: int)
    requires 0 <= adcT < 0x10_0000
    ensures TFine(Uncalibrated, adcT) == 0 && CompensateTemp(Uncalibrated, adcT) == 0
  {
    assert TempLinear(Uncalibrated, adcT) == 0;
    assert TempQuadratic(Uncalibrated, adcT) == 0;
  }

  /** With `h1` and `h2` zero the humidity is zero, whatever the reading. */
  lemma HumidWithoutH2(c: Calibration, tFine: i32, adcH: int)
    requires 0 <= adcH < 0x1_0000 && c.h1 == 0 && c.h2 == 0
    ensures CompensateHumid(c, tFine, adcH) == 0
  {
    var v := I32(tFine - 76800);
    HumidScaleWithoutH2(c, v);
    ZeroProduct(HumidOffset(c, v, adcH));
    HumidCorrectedZero(c);
    CorrectedZero(c, tFine, adcH);
  }

  lemma CorrectedZero(c: Calibration, tFine: i32, adcH: int)
    requires 0 <= adcH < 0x1_0000
    requires HumidCorrected(c, HumidProduct(HumidOffset(c, I32(tFine - 76800), adcH), HumidScale(c, I32(tFine - 76800)))) == 0
    ensures CompensateHumid(c, tFine, adcH) == 0
  {
  }

  lemma HumidScaleWithoutH2(c: Calibration, v: i32)
    requires c.h2 == 0
    ensures HumidScale(c, v) == 0
  {
  }

  lemma ZeroProduct(a: i32)
    ensures HumidProduct(a, 0) == 0
  {
  }

  lemma HumidCorrectedZero(c: Calibration)
    requires c.h1 == 0
    ensures HumidCorrected(c, 0) == 0
  {
  }

  /** The pressure `bme_get_pressure` reports: whole pascals. The float it
      passes through holds every integer below 2^24 exactly. */
  function Pressure(c: Calibration, tFine: i32, adcP: int): (pa: int)
    requires 0 <= adcP < 0x10_0000
    ensures 0 <= pa < 0x100_0000
  {
    CompensatePress(c, tFine, adcP) / 0x100
  }

  /** The humidity `bme_get_humidity` reports, in hundredths of a percent:
      whole percents only, and never above 100 %. */
  function Humidity(c: Calibration, tFine: i32, adcH: int): (rh: int)
    requires 0 <= adcH < 0x1_0000
    ensures 0 <= rh <= 10000 && rh % 100 == 0
  {
    Percent(CompensateHumid(c, tFine, adcH))
  }

  /** `(h >> 10) * 100.f`: the float holds every product exactly. */
  function Percent(h: int): (rh: int)
    requires 0 <= h <= 102400
    ensures 0 <= rh <= 10000 && rh % 100 == 0
  {
    h / 0x400 * 100
  }

  /** For a part whose `dig_T3` is zero and whose `dig_T2` is positive, a
      higher raw reading never gives a lower temperature, as long as the
      product `compensate_temp` forms for `var1` fits its 32 bits. */
  lemma {:induction false} CompensateTempMonotone(c: Calibration, a: int, b: int)
    requires c.t3 == 0 && c.t2 > 0
    requires 0 <= a <= b < 0x10_0000
    requires -0x8000_0000 <= (a / 8 - c.t1 * 2) * c.t2 && (b / 8 - c.t1 * 2) * c.t2 < 0x8000_0000
    ensures CompensateTemp(c, a) <= CompensateTemp(c, b)
  {
    var da, db := a / 8 - c.t1 * 2, b / 8 - c.t1 * 2;
    assert da <= db;
    MulMonotone(da, db, c.t2);
    var pa, pb := da * c.t2, db * c.t2;
    assert TempLinear(c, a) == pa / 0x800 && TempLinear(c, b) == pb / 0x800;
    DivMonotone(pa, pb, 0x800);
    assert TempQuadratic(c, a) == 0 && TempQuadratic(c, b) == 0;
    var ta, tb := TFine(c, a), TFine(c, b);
    assert ta == pa / 0x800 && tb == pb / 0x800;
    DivMonotone(ta * 5 + 128, tb * 5 + 128, 0x100);
  }

  lemma MulMonotone(x: int, y: int, k: int)
    requires x <= y && k > 0
    ensures x * k <= y * k
  {
  }

  lemma DivMonotone(x: int, y: int, d: int)
    requires x <= y && d > 0
    ensures x / d <= y / d
  {
    var qx, qy := x / d, y / d;
    assert x == d * qx + x % d && y == d * qy + y % d;
    if qx > qy {
      MulMonotone(qy + 1, qx, d);
    }
  }

  /** The calibration and readings Bosch uses to illustrate these formulas
      give 25.08 degrees Celsius and 100653 pascals. */
  const Example := Calibration(27504, 26435, -1000, 36477, -10685, 3024, 2855, 140, -7, 15500, -14600, 6000,
                               0, 0, 0, 0, 0, 0)

  lemma WorkedExample()
    ensures TFine(Example, 519888) == 128422
    ensures CompensateTemp(Example, 519888) == 2508
    ensures Pressure(Example, 128422, 415148) == 100653
  {
    ExampleTemperature();
    ExamplePressureTerms();
    ExamplePressure();
  }

  lemma ExampleTemperature()
    ensures TFine(Example, 519888) == 128422
    ensures CompensateTemp(Example, 519888) == 2508
  {
    ExampleTemperatureTerms();
    ExampleSquare();
    assert TempQuadratic(Example, 519888) == -371;
  }

  lemma ExampleTemperatureTerms()
    ensures TempLinear(Example, 519888) == 128793
    ensures TempDelta(Example, 519888) == 4989
  {
  }

  lemma ExamplePressureTerms()
    ensures PressOffset(Example, 128422) == 98104795527812
    ensures PressQuadratic(Example, 128422) == -18467047103
    ensures PressDivisor(Example, 128422) == 597560748
  {
    ExampleOffset();
  }

  lemma ExamplePressure()
    requires PressOffset(Example, 128422) == 98104795527812
    requires PressDivisor(Example, 128422) == 597560748
    ensures Pressure(Example, 128422, 415148) == 100653
  {
    assert PressScaled(415148, 98104795527812, 597560748) == 6600644165;
    ExampleCorrection();
    assert PressCorrected(Example, 6600644165) == 25767233;
  }

  lemma ExampleSquare()
    ensures I32(I32(I32(4989 * 4989) / 0x1000) * -1000) / 0x4000 == -371
  {
  }

  lemma ExampleOffset()
    ensures I64(I64(I64(I64(422 * 422) * -7) + I64(I64(422 * 140) * 0x2_0000)) + I64(2855 * 0x8_0000_0000))
      == 98104795527812
  {
  }

  lemma ExampleCorrection()
    ensures I64(I64(6000 * (6600644165 / 0x2000)) * (6600644165 / 0x2000)) / 0x200_0000 == 116089612
    ensures I64(-14600 * 6600644165) / 0x8_0000 == -183810053
    ensures I64(I64(I64(6600644165 + 116089612) + -183810053) / 0x100 + I64(15500 * 0x10)) == 25767233
  {
    ExampleCorrectionSquare();
  }

  lemma ExampleCorrectionSquare()
    ensures I64(I64(6000 * 805742) * 805742) / 0x200_0000 == 116089612
  {
  }

  // ------------------------------------------------------------ the driver

  class Bme280 {
    /** The chip's register file as the I2C reads see it. */
    var regs: seq<byte>
    /** `compensation`, without `t_fine`. */
    var cal: Calibration
    /** `compensation.t_fine`. */
    var tFine: i32

    predicate Valid()
      reads this`regs
    {
      |regs| == 0x100
    }

    constructor (regs: seq<byte>)
      requires |regs| == 0x100
      ensures Valid() && this.regs == regs && cal == Uncalibrated && tFine == 0
    {
      this.regs := regs;
      cal := Uncalibrated;
      tFine := 0;
    }

    /** The 32 trimming bytes, from the three blocks `read_compensation_data` reads. */
    function Readout(): (b: seq<byte>)
      requires Valid()
      reads this`regs
      ensures |b| == CalibrationLength
    {
      regs[RegComp1..RegComp1 + RegComp1Len] + [regs[RegComp2]] + regs[RegComp3..RegComp3 + RegComp3Len]
    }

    /** `read_compensation_data`. */
    method ReadCompensationData()
      requires Valid()
      modifies this`cal
      ensures cal == DecodeCalibration(Readout())
    {
      var read := regs[RegComp1..RegComp1 + RegComp1Len] + [regs[RegComp2]] + regs[RegComp3..RegComp3 + RegComp3Len];
      cal := DecodeCalibration(read);
    }

    /** `write_register`. */
    method WriteRegister(reg: byte, val: byte)
      requires Valid()
      modifies this`regs
      ensures Valid() && regs == old(regs)[reg := val]
    {
      regs := regs[reg := val];
    }

    /** `bme_setup`: the calibration read, and 1x oversampling for all three
        measurements in sleep mode. */
    method Setup()
      requires Valid()
      modifies this`cal, this`regs
      ensures Valid() && cal == DecodeCalibration(old(Readout()))
      ensures regs == old(regs)[RegCtrlHum := Oversampling1x][RegCtrlMeasure := Oversampling1x * 0x20 + Oversampling1x * 4]
    {
      ReadCompensationData();
      WriteRegister(RegCtrlHum, Oversampling1x);
      WriteRegister(RegCtrlMeasure, Oversampling1x * 0x20 + Oversampling1x * 4);
    }

    /** `bme_start_measurement`: the mode bit 0 of the control register set,
        its other bits kept. */
    method StartMeasurement()
      requires Valid()
      modifies this`regs
      ensures Valid() && regs == old(regs)[RegCtrlMeasure := regs[RegCtrlMeasure]]
      ensures regs[RegCtrlMeasure] % 2 == ForcedMode && regs[RegCtrlMeasure] / 2 == old(regs)[RegCtrlMeasure] / 2
    {
      var ctrl := regs[RegCtrlMeasure];
      WriteRegister(RegCtrlMeasure, if ctrl % 2 == 1 then ctrl else ctrl + ForcedMode);
    }

    /** `bme_measure_done`: the measuring bit of the status register is clear. */
    method MeasureDone() returns (done: bool)
      requires Valid()
      ensures done <==> regs[RegStatus] / StatusMeasuring % 2 == 0
    {
      var status := regs[RegStatus];
      done := status / 8 % 2 == 0;
    }

    /** `compensate_temp`: `t_fine` is left for the pressure and humidity
        computations that follow. */
    method CompensateTemperature(adcT: int) returns (t: int)
      requires 0 <= adcT < 0x10_0000
      modifies this`tFine
      ensures tFine == TFine(cal, adcT) && t == CompensateTemp(cal, adcT)
    {
      var var1 := TempLinear(cal, adcT);
      var var2 := TempQuadratic(cal, adcT);
      tFine := I32(var1 + var2);
      t := I32(I32(tFine * 5) + 128) / 0x100;
    }

    /** `bme_get_temp`: the compensated temperature narrowed to 16 bits. */
    method GetTemp() returns (t: i16)
      requires Valid()
      modifies this`tFine
      ensures tFine == TFine(cal, Raw20(regs[RegTemp], regs[RegTemp + 1], regs[RegTemp + 2]))
      ensures t == I16(CompensateTemp(cal, Raw20(regs[RegTemp], regs[RegTemp + 1], regs[RegTemp + 2])))
    {
      var adcTemp := regs[RegTemp] as int * 0x1000 + regs[RegTemp + 1] as int * 0x10 + regs[RegTemp + 2] / 0x10;
      var temp := CompensateTemperature(adcTemp);
      t := I16(temp);
    }

    /** `bme_get_pressure`: compensated with the `t_fine` of the latest
        temperature reading. */
    method GetPressure() returns (pa: int)
      requires Valid()
      ensures pa == Pressure(cal, tFine, Raw20(regs[RegPress], regs[RegPress + 1], regs[RegPress + 2]))
      ensures 0 <= pa < 0x100_0000
    {
      var adcPress := regs[RegPress] as int * 0x1000 + regs[RegPress + 1] as int * 0x10 + regs[RegPress + 2] / 0x10;
      pa := CompensatePress(cal, tFine, adcPress) / 0x100;
    }

    /** `bme_get_humidity`: compensated with the `t_fine` of the latest
        temperature reading. */
    method GetHumidity() returns (rh: int)
      requires Valid()
      ensures rh == Humidity(cal, tFine, BigEndian16(regs[RegHumidity], regs[RegHumidity + 1]))
      ensures 0 <= rh <= 10000 && rh % 100 == 0
    {
      var adcHum := regs[RegHumidity] as int * 0x100 + regs[RegHumidity + 1];
      rh := Percent(CompensateHumid(cal, tFine, adcHum));
    }
  }
}
