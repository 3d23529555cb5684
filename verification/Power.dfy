/** The arithmetic of one power rail: raw sensor words to millivolts, milliamps, milliwatts.
  Conversions are exact rationals; the rounding of float and double is not modelled. */
module Power {

  const UINT16_LIMIT: nat := 0x1_0000

  /** A raw sensor word, or none if the I2C transfer failed. */
  datatype Raw = NoReply | Word(bits: nat)

  predicate IsRaw(raw: Raw) {
    raw.Word? ==> raw.bits < UINT16_LIMIT
  }

  /** 1.25 mV per LSB. */
  function ExactMillivolts(raw: Raw): real {
    if raw.NoReply? then 0.0 else 1.25 * raw.bits as real
  }

  /** 2.5 uV per LSB over 5 milliohms, in mA. */
  function ExactMilliamps(raw: Raw): real {
    if raw.NoReply? then 0.0 else raw.bits as real * 0.0025 / 5.0 * 1000.0
  }

  /** GetVoltage and GetCurrent truncate to an integer. */
  function GetVoltage(raw: Raw): int {
    ExactMillivolts(raw).Floor
  }

  function GetCurrent(raw: Raw): int {
    ExactMilliamps(raw).Floor
  }

  /** The milliwatts that PrintPowerRail shows. */
  function PrintedPower(v: int, i: int): int {
    i * v / 1000
  }

  /** The shown power never exceeds the exact power, falls short of it by less than
    1 + (v + i + 1) / 1000 mW, and is computed without overflow of an int. */
  predicate CloseTo(v: int, i: int, exact: real) {
    && 0 <= i * v < 0x8000_0000
    && PrintedPower(v, i) * 1000 <= i * v < PrintedPower(v, i) * 1000 + 1000
    && PrintedPower(v, i) as real <= exact
    && exact < PrintedPower(v, i) as real + 1.0 + (v + i + 1) as real / 1000.0
  }

  /** The voltage fits its 16-bit result exactly for raw words up to 52428. */
  lemma VoltageFits(raw: Raw)
    requires IsRaw(raw)
    ensures 0 <= GetVoltage(raw) < UINT16_LIMIT <==> (raw.Word? ==> raw.bits <= 52428)
    ensures 0 <= GetCurrent(raw) < UINT16_LIMIT / 2
  {
  }

  lemma ScaleUp(a: int, b: int, c: int)
    requires 0 <= a && b <= c
    ensures a * b <= a * c
  {
  }

  lemma ProductBound(v: int, i: int)
    requires 0 <= v <= 65535 && 0 <= i <= 32767
    ensures 0 <= i * v < 0x8000_0000
  {
    ScaleUp(i, 0, v);
    ScaleUp(i, v, 65535);
  }

  lemma ScaleUpReal(a: real, b: real, c: real)
    requires 0.0 <= a && b <= c
    ensures a * b <= a * c
  {
  }

  lemma ScaleUpStrictly(a: real, b: real, c: real)
    requires 0.0 < a && b < c
    ensures a * b < a * c
  {
  }

  lemma ProductAsReal(a: int, b: int)
    ensures (a * b) as real == (a as real) * (b as real)
  {
  }

  /** The product of two truncated values brackets the exact product. */
  lemma TruncatedProduct(v: int, i: int, x: real, y: real)
    requires 0 <= v && v as real <= x < (v + 1) as real
    requires 0 <= i && i as real <= y < (i + 1) as real
    ensures (i * v) as real <= y * x < ((i + 1) * (v + 1)) as real
  {
    assert (i * v) as real <= y * x by {
      ProductAsReal(i, v);
      ScaleUpReal(i as real, v as real, x);
      ScaleUpReal(x, i as real, y);
    }
    assert y * x < ((i + 1) * (v + 1)) as real by {
      ProductAsReal(i + 1, v + 1);
      ScaleUpReal(x, y, (i + 1) as real);
      ScaleUpStrictly((i + 1) as real, x, (v + 1) as real);
    }
  }

  lemma DividedByThousand(product: int, above: int, exact: real)
    requires 0 <= product && product as real <= exact < above as real
    ensures (product / 1000) as real <= exact / 1000.0
    ensures exact / 1000.0 < (product / 1000) as real + 1.0 + (above - product) as real / 1000.0
  {
    assert 1000 * (product / 1000) <= product < 1000 * (product / 1000) + 1000;
  }

  lemma PowerOfTruncated(v: int, i: int, x: real, y: real)
    requires 0 <= v < UINT16_LIMIT && v as real <= x < (v + 1) as real
    requires 0 <= i < UINT16_LIMIT / 2 && i as real <= y < (i + 1) as real
    ensures CloseTo(v, i, x * y / 1000.0)
  {
    ProductBound(v, i);
    TruncatedProduct(v, i, x, y);
    assert (i + 1) * (v + 1) == i * v + v + i + 1;
    DividedByThousand(i * v, i * v + v + i + 1, y * x);
  }

  /** In integers: 5/4 mV and 1/2 mA per LSB, rounded down; nothing without a reply. */
  lemma ConversionsAreExact(b: nat)
    ensures GetVoltage(Word(b)) == 5 * b / 4 && GetCurrent(Word(b)) == b / 2
    ensures GetVoltage(NoReply) == 0 && GetCurrent(NoReply) == 0
  {
    assert 4 * (5 * b / 4) <= 5 * b < 4 * (5 * b / 4) + 4;
    assert 2 * (b / 2) <= b < 2 * (b / 2) + 2;
  }

  /** So for every pair of raw words whose voltage fits, the shown power is close to the product of
    1.25 mV and 0.5 mA per LSB. */
  lemma PrintedPowerIsClose(b: nat, c: nat, millivolts: real, milliamps: real)
    requires b <= 52428 && c < UINT16_LIMIT
    requires millivolts == 1.25 * b as real && milliamps == 0.5 * c as real
    ensures GetVoltage(Word(b)) == 5 * b / 4 && GetCurrent(Word(c)) == c / 2
    ensures CloseTo(GetVoltage(Word(b)), GetCurrent(Word(c)), millivolts * milliamps / 1000.0)
  {
    ConversionsAreExact(b);
    ConversionsAreExact(c);
    Brackets(b, c, millivolts, milliamps);
    PowerOfTruncated(5 * b / 4, c / 2, millivolts, milliamps);
  }

  lemma Brackets(b: nat, c: nat, millivolts: real, milliamps: real)
    requires b <= 52428 && c < UINT16_LIMIT
    requires millivolts == 1.25 * b as real && milliamps == 0.5 * c as real
    ensures (5 * b / 4) as real <= millivolts < (5 * b / 4 + 1) as real && 5 * b / 4 < UINT16_LIMIT
    ensures (c / 2) as real <= milliamps < (c / 2 + 1) as real && c / 2 < UINT16_LIMIT / 2
  {
    assert 4 * (5 * b / 4) <= 5 * b < 4 * (5 * b / 4) + 4;
    assert 2 * (c / 2) <= c < 2 * (c / 2) + 2;
  }
}
