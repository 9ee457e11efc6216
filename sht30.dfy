/**
 * The SHT30 humidity and temperature sensor on the I2C bus. On target the
 * driver triggers a single-shot measurement, waits, reads a 6-byte block
 * (temperature MSB, LSB, CRC, humidity MSB, LSB, CRC) and converts one of
 * the two 16-bit words; off target it returns fixed values and never
 * touches the bus.
 */
module Sht30Driver {
  import opened Wrappers
  import opened Platform

  const ADDR: nat := 0x44
  const MODE: Byte := 0x2C
  const HIGH: Byte := 0x06
  const READ: Byte := 0x00
  const WAIT_TIME_MS: nat := 200
  const BLOCK_LEN: nat := 6
  const RAW_MAX: nat := 65535
  const SIMULATED_TEMPERATURE: real := 12.3
  const SIMULATED_HUMIDITY: real := 45.6

  // ---------------------------------------------------------------------
  // Big-endian decode, written with the shift and or of the driver

  function Pow2(k: nat): (p: nat)
    ensures p >= 1
  {
    if k == 0 then 1 else 2 * Pow2(k - 1)
  }

  /** Bitwise or of two naturals, bit by bit from the least significant. */
  function BitOr(a: nat, b: nat): (r: nat)
    ensures a <= r && b <= r && r <= a + b
    decreases a + b
  {
    if a == 0 then b
    else if b == 0 then a
    else 2 * BitOr(a / 2, b / 2) + (if a % 2 == 1 || b % 2 == 1 then 1 else 0)
  }

  /** `x << k` on a `u16`: bits shifted past bit 15 are lost. */
  function ShiftLeft16(x: nat, k: nat): (r: nat)
    ensures r < 0x1_0000
  {
    (x * Pow2(k)) % 0x1_0000
  }

  /** Or-ing a value into the zero bits below a shift is addition. */
  lemma {:induction false} OrBelowShift(a: nat, lo: nat, k: nat)
    requires lo < Pow2(k)
    ensures BitOr(a * Pow2(k), lo) == a * Pow2(k) + lo
  {
    if k > 0 && a * Pow2(k) != 0 && lo != 0 {
      assert a * Pow2(k) == 2 * (a * Pow2(k - 1));
      OrBelowShift(a, lo / 2, k - 1);
    }
  }

  /** `(hi as u16) << 8 | lo as u16`: the big-endian word of two bytes. */
  function Word(hi: Byte, lo: Byte): (w: nat)
    ensures w == hi * 256 + lo
    ensures w <= RAW_MAX
  {
    assert Pow2(8) == 256;
    OrBelowShift(hi, lo, 8);
    BitOr(ShiftLeft16(hi, 8), lo)
  }

  /** The raw temperature: bytes 0 and 1 of the block. */
  function RawTemperature(reg: seq<Byte>): (raw: nat)
    requires |reg| == BLOCK_LEN
    ensures raw <= RAW_MAX && raw / 256 == reg[0] && raw % 256 == reg[1]
  {
    Word(reg[0], reg[1])
  }

  /** The raw humidity: bytes 3 and 4 of the block. */
  function RawHumidity(reg: seq<Byte>): (raw: nat)
    requires |reg| == BLOCK_LEN
    ensures raw <= RAW_MAX && raw / 256 == reg[3] && raw % 256 == reg[4]
  {
    Word(reg[3], reg[4])
  }

  /** The two bytes the sensor sends for a 16-bit value, most significant first. */
  function WordBytes(raw: nat): (b: (Byte, Byte))
    requires raw <= RAW_MAX
  {
    (raw / 256, raw % 256)
  }

  /** Decoding the bytes of a word gives the word back, whatever the checksum bytes hold. */
  lemma DecodeRoundTrip(t: nat, h: nat, crc1: Byte, crc2: Byte)
    requires t <= RAW_MAX && h <= RAW_MAX
    ensures var reg := [WordBytes(t).0, WordBytes(t).1, crc1, WordBytes(h).0, WordBytes(h).1, crc2];
            RawTemperature(reg) == t && RawHumidity(reg) == h
  {
  }

  /** Bytes 2 and 5 (the checksums) never affect either reading. */
  lemma ChecksumBytesIgnored(reg: seq<Byte>, other: seq<Byte>)
    requires |reg| == BLOCK_LEN && |other| == BLOCK_LEN
    requires reg[0] == other[0] && reg[1] == other[1] && reg[3] == other[3] && reg[4] == other[4]
    ensures RawTemperature(reg) == RawTemperature(other)
    ensures RawHumidity(reg) == RawHumidity(other)
  {
  }

  // ---------------------------------------------------------------------
  // Transfer functions, over exact reals

  /** Temperature in degrees Celsius: the 16-bit range spread over -45 to 130. */
  function Temperature(raw: nat): (t: real)
    requires raw <= RAW_MAX
    ensures -45.0 <= t <= 130.0
    ensures raw == 0 ==> t == -45.0
    ensures raw == RAW_MAX ==> t == 130.0
  {
    -45.0 + 175.0 * (raw as real) / 65535.0
  }

  /** Relative humidity in percent: the 16-bit range spread over 0 to 100. */
  function Humidity(raw: nat): (h: real)
    requires raw <= RAW_MAX
    ensures 0.0 <= h <= 100.0
    ensures raw == 0 ==> h == 0.0
    ensures raw == RAW_MAX ==> h == 100.0
  {
    100.0 * (raw as real) / 65535.0
  }

  lemma TemperatureStrictlyIncreasing(a: nat, b: nat)
    requires a < b <= RAW_MAX
    ensures Temperature(a) < Temperature(b)
  {
  }

  lemma HumidityStrictlyIncreasing(a: nat, b: nat)
    requires a < b <= RAW_MAX
    ensures Humidity(a) < Humidity(b)
  {
  }

  /** The raw value is recovered from a temperature, so no two raw values read alike. */
  lemma TemperatureInvertible(raw: nat)
    requires raw <= RAW_MAX
    ensures (Temperature(raw) + 45.0) * 65535.0 / 175.0 == raw as real
  {
  }

  /** The raw value is recovered from a humidity, so no two raw values read alike. */
  lemma HumidityInvertible(raw: nat)
    requires raw <= RAW_MAX
    ensures Humidity(raw) * 65535.0 / 100.0 == raw as real
  {
  }

  // ---------------------------------------------------------------------
  // The driver and its bus traffic

  /** What the driver does to the outside world, in order. */
  datatype Event =
    | OpenBus
    | SetSlaveAddress(address: nat)
    | BlockWrite(command: Byte, data: seq<Byte>)
    | BlockRead(command: Byte, length: nat)
    | Sleep(ms: nat)

  /** An open I2C bus handle and the slave address it talks to. */
  datatype I2c = I2c(slaveAddress: nat)

  /** One measurement: trigger, settle, read the block, settle again. */
  function MeasurementCycle(): seq<Event>
  {
    [BlockWrite(MODE, [HIGH]), Sleep(WAIT_TIME_MS), BlockRead(READ, BLOCK_LEN), Sleep(WAIT_TIME_MS)]
  }

  /** Total time spent sleeping in a sequence of events. */
  function SleepTotal(events: seq<Event>): (ms: nat)
    ensures (forall i :: 0 <= i < |events| ==> !events[i].Sleep?) ==> ms == 0
  {
    if events == [] then 0
    else SleepTotal(events[..|events| - 1]) + (if events[|events| - 1].Sleep? then events[|events| - 1].ms else 0)
  }

  lemma {:induction false} SleepTotalAppend(a: seq<Event>, b: seq<Event>)
    ensures SleepTotal(a + b) == SleepTotal(a) + SleepTotal(b)
    decreases |b|
  {
    if b != [] {
      assert (a + b)[..|a + b| - 1] == a + b[..|b| - 1];
      SleepTotalAppend(a, b[..|b| - 1]);
    } else {
      assert a + b == a;
    }
  }

  /** Every on-target read costs 400 ms of sleeping. */
  lemma MeasurementCycleSleeps()
    ensures SleepTotal(MeasurementCycle()) == 2 * WAIT_TIME_MS
  {
    var c := MeasurementCycle();
    assert c[..3][..2][..1][..0] == [];
  }

  class SHT30 {
    /** The answer of `is_rpi()`, fixed when the program is built. */
    const onTarget: bool
    var i2c: Option<I2c>
    /** Everything the driver has done on the bus and with the clock. */
    var events: seq<Event>

    ghost predicate Valid()
      reads this
    {
      i2c == if onTarget then Some(I2c(ADDR)) else None
    }

    /** `SHT30::init`: off target no bus handle; on target a bus talking to 0x44. */
    constructor Init(isRpi: bool)
      ensures Valid() && onTarget == isRpi
      ensures i2c.Some? <==> isRpi
      ensures events == if isRpi then [OpenBus, SetSlaveAddress(ADDR)] else []
    {
      onTarget := isRpi;
      if !isRpi {
        i2c := None;
        events := [];
      } else {
        events := [OpenBus];
        events := events + [SetSlaveAddress(ADDR)];
        i2c := Some(I2c(ADDR));
      }
    }

    /** `block_read`: the bus fills `buffer` with what the device sends. */
    method ReadBlock(command: Byte, buffer: array<Byte>, reply: seq<Byte>)
      requires |reply| == buffer.Length
      modifies this`events, buffer
      ensures buffer[..] == reply
      ensures events == old(events) + [BlockRead(command, buffer.Length)]
    {
      forall k | 0 <= k < buffer.Length {
        buffer[k] := reply[k];
      }
      events := events + [BlockRead(command, buffer.Length)];
    }

    /**
     * The trigger/settle/read/settle sequence both readings run; `reply`
     * is the block the sensor answers with.
     */
    method Measure(reply: seq<Byte>) returns (reg: array<Byte>)
      requires Valid() && onTarget && |reply| == BLOCK_LEN
      modifies this`events
      ensures fresh(reg) && reg[..] == reply
      ensures events == old(events) + MeasurementCycle()
    {
      events := events + [BlockWrite(MODE, [HIGH])];
      events := events + [Sleep(WAIT_TIME_MS)];
      reg := new Byte[BLOCK_LEN](_ => 0);
      ReadBlock(READ, reg, reply);
      events := events + [Sleep(WAIT_TIME_MS)];
    }

    /** `SHT30::read_temperture`. */
    method ReadTemperature(reply: seq<Byte>) returns (t: real)
      requires Valid() && |reply| == BLOCK_LEN
      modifies this
      ensures Valid() && i2c == old(i2c)
      ensures !onTarget ==> t == SIMULATED_TEMPERATURE && events == old(events)
      ensures onTarget ==> t == Temperature(RawTemperature(reply))
                           && events == old(events) + MeasurementCycle()
                           && SleepTotal(events) == SleepTotal(old(events)) + 2 * WAIT_TIME_MS
    {
      if !onTarget {
        return SIMULATED_TEMPERATURE;
      }
      var reg := Measure(reply);
      var raw := Word(reg[0], reg[1]);
      t := Temperature(raw);
      SleepTotalAppend(old(events), MeasurementCycle());
      MeasurementCycleSleeps();
    }

    /** `SHT30::read_humidity`: a measurement of its own, not shared with the temperature. */
    method ReadHumidity(reply: seq<Byte>) returns (h: real)
      requires Valid() && |reply| == BLOCK_LEN
      modifies this
      ensures Valid() && i2c == old(i2c)
      ensures !onTarget ==> h == SIMULATED_HUMIDITY && events == old(events)
      ensures onTarget ==> h == Humidity(RawHumidity(reply))
                           && events == old(events) + MeasurementCycle()
                           && SleepTotal(events) == SleepTotal(old(events)) + 2 * WAIT_TIME_MS
    {
      if !onTarget {
        return SIMULATED_HUMIDITY;
      }
      var reg := Measure(reply);
      var raw := Word(reg[3], reg[4]);
      h := Humidity(raw);
      SleepTotalAppend(old(events), MeasurementCycle());
      MeasurementCycleSleeps();
    }
  }
}
