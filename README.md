# rpi-sauna-monitor sensor drivers in Dafny

This project models the sensor side of a Raspberry Pi sauna monitor. It covers three drivers.

- **DS18B20** (`src/ds18b20.rs`): discovery of the thermometer's directory under the
  kernel's 1-Wire device list, and reading of its `w1_slave` file. Discovery takes the
  first directory whose name is `<family>-<serial>` with family number 28. A reading is
  the integer after `t=` on the file's second line, in thousandths of a degree.
- **SHT30** (`src/sht30.rs`): the I2C temperature and humidity sensor. A measurement
  writes the high-repeatability command, waits 200 ms, reads a 6-byte block and waits
  200 ms again. It decodes big-endian words at bytes 0-1 (temperature) and 3-4 (humidity)
  and converts them with the sensor's transfer functions. Off target it returns fixed
  simulated values.
- **OneWire** (`src/onewire.rs`): a draft scanner over a debug directory. `new` keeps the
  *last* entry whose number matches, as a bare name. `search` returns the first number it
  can read, or `0x1234`.

Module layout:

- `wrappers.dfy`: `Option` and `Result`.
- `platform.dfy`: the build-target test behind `is_rpi`.
- `filesystem.dfy`: the file system as a value (directory listings and line-split files)
  and path joining.
- `text.dfy`: the string operations the drivers use: `find`, `split_once`, and `parse`
  for `u32`, `u64` and `i32`.
- `ds18b20.dfy`, `sht30.dfy`, `onewire.dfy`: one module per driver.

The DS18B20 driver only computes over what it reads. It is modelled as functions over
a file-system value. The OneWire operations read the same file-system value. Their
loops (`OneWire::new` and `search`) become methods with loop invariants. The SHT30
driver owns a mutable bus handle. It is a `class` whose methods record every bus
operation and sleep in an event trace.

Some panics are modelled as error results:
- the four panics of `read_temperture` (the file cannot be opened, fewer than two lines,
  no `t=`, and an integer that does not parse);
- the `entry.unwrap()` in OneWire's `new` and `search`.

The other panics (`to_str().unwrap()` in discovery, the line read's `unwrap()` and the
SHT30 bus `unwrap()`s) are listed under "Left out". Nothing here is executed; the
properties below are proved by the verifier.

## Model

| member | source | states |
|---|---|---|
| Platform.IsRpiNeedsAllThree | src/ds18b20.rs:5-14 | the target counts as a Raspberry Pi exactly when arch is `arm`, OS is `linux` and env is `gnu` |
| Platform.Aarch64IsSimulated | src/sht30.rs:5-14 | a 64-bit ARM Linux build is not treated as the Pi, so it takes the simulated paths |
| FileSystem.ReadDir | src/ds18b20.rs:18 | listing a directory succeeds exactly when the directory exists |
| FileSystem.ReadLines | src/ds18b20.rs:76 | opening a file succeeds exactly when the file exists |
| FileSystem.Join | src/ds18b20.rs:74 | the joined path ends with the name, and starts with the directory unless the name is absolute |
| Text.Find | src/ds18b20.rs:85 | the result is an occurrence of the pattern with no earlier occurrence; `None` means no occurrence at all |
| Text.FindChar | src/ds18b20.rs:25 | the result is the first position of the character; `None` exactly when the character is absent |
| Text.SplitOnce | src/ds18b20.rs:25 | splitting fails exactly when the separator is absent |
| Text.SplitOnceParts | src/ds18b20.rs:25 | on success the string is head, separator, tail, and the head holds no separator |
| Text.SplitOnceAtFirst | src/onewire.rs:18 | splitting `head + sep + tail` with no separator in head gives back exactly `(head, tail)` |
| Text.ShowNatValue | src/ds18b20.rs:26 | the decimal digits of `n` read back as `n` |
| Text.LeadingZeroValue | src/ds18b20.rs:26 | a leading `0` does not change a digit string's value |
| Text.ParseUnsigned | src/ds18b20.rs:26 | a parsed unsigned number is below the type's limit and the text starts with a digit or `+` |
| Text.ParseShowUnsigned | src/onewire.rs:19 | parsing the decimal form of `n` gives `n` when it fits the type and fails when it overflows |
| Text.ParseLeadingZero | src/ds18b20.rs:26 | a leading zero does not change the parsed number |
| Text.ParseI32 | src/ds18b20.rs:87 | a parsed `i32` lies in the `i32` range and the text ends with a digit |
| Text.ParseShowI32 | src/ds18b20.rs:87 | every `i32` round-trips through its decimal form |
| Text.TrailingNonDigitRejected | src/ds18b20.rs:87 | a text ending with a non-digit is not an `i32` |
| Text.FamilyPrefix | src/ds18b20.rs:25-26 | the number before the first `-` is below the type's limit |
| Text.FamilyPrefixShape | src/ds18b20.rs:25-26 | a name with a number contains `-` and starts with a digit or `+` |
| Text.FamilyPrefixOf | src/ds18b20.rs:25-26 | for `head-tail` with no `-` in head, the number is head parsed, whatever the tail |
| Ds18b20Driver.FindDirWithPrefix | src/ds18b20.rs:16-39 | a found directory implies the root could be listed |
| Ds18b20Driver.ScanFindsFirst | src/ds18b20.rs:19-35 | the scan finds nothing exactly when no readable entry passes the test, else it returns the root joined with the first one that does |
| Ds18b20Driver.ScanStopsAtFirstMatch | src/ds18b20.rs:27-29 | once an accepted entry appears, later entries cannot change the result |
| Ds18b20Driver.DeviceDirUnderRoot | src/ds18b20.rs:21 | an accepted device path starts with the root directory |
| Ds18b20Driver.Init | src/ds18b20.rs:51-71 | `init` fails with `NotFound` exactly when discovery under the chosen root finds nothing |
| Ds18b20Driver.InitSelectsFirstDevice | src/ds18b20.rs:51-71 | `init` fails exactly when the root is missing or no entry is a family-28 directory; otherwise it holds the first such directory, under the root |
| Ds18b20Driver.LeadingZeroMatches | src/ds18b20.rs:26-27 | comparison is numeric: `028-...` is accepted for family 28 |
| Ds18b20Driver.OverflowingPrefixSkipped | src/ds18b20.rs:26 | a family part whose digits (after an optional `+`, leading zeros allowed) are worth 2^32 or more is never accepted; there is no wrap-around |
| Ds18b20Driver.OverflowingNumberSkipped | src/ds18b20.rs:26 | the decimal form of any number at or above 2^32 is never accepted as a family |
| Ds18b20Driver.NameWithoutDashSkipped | src/ds18b20.rs:25 | a name without `-` is never accepted |
| Ds18b20Driver.NonNumericPrefixSkipped | src/ds18b20.rs:26 | a family part that is empty, a lone `+`, or holds a non-digit after its optional `+` (such as `2x`, `1a2`, `+x`) is never accepted |
| Ds18b20Driver.FixtureFamilyParses | src/ds18b20.rs:26 | the text `28` parses as the `u32` 28 |
| Ds18b20Driver.FixtureNameAccepted | src/ds18b20.rs:23-27 | `28-000001` is a family-28 directory |
| Ds18b20Driver.OtherFamilySkipped | src/ds18b20.rs:26-27 | a name whose family part parses to another number is never accepted |
| Ds18b20Driver.FixtureOtherFamilies | src/ds18b20.rs:26 | the texts `41` and `3` parse as the `u32`s 41 and 3 |
| Ds18b20Driver.FixtureOthersRejected | src/ds18b20.rs:23-27 | `41-000002` and `3-abc` are not family-28 directories |
| Ds18b20Driver.ScanSelectsOnlyAccepted | src/ds18b20.rs:19-29 | when only one of a listing's three entries passes the test, the scan selects it, whatever the listing order |
| Ds18b20Driver.FixtureScan | src/ds18b20.rs:19-29 | in the debug directory, listed in any order, `28-000001` is selected and `41-000002` and `3-abc` are rejected |
| Ds18b20Driver.FixturePath | src/ds18b20.rs:21 | the debug device path and its `w1_slave` file path |
| Ds18b20Driver.FixtureDiscovery | src/ds18b20.rs:51-71 | off target, `init` over the debug directory yields `./test/debug_path/28-000001`, whatever the listing order |
| Ds18b20Driver.ParseMillidegrees | src/ds18b20.rs:80-87 | fewer than two lines is exactly the short-file error; a reading lies in the `i32` range |
| Ds18b20Driver.ParseMillidegreesCases | src/ds18b20.rs:85-87 | no `t=` on the second line is exactly the missing-marker error; a marker followed by a non-`i32` is exactly the bad-integer error; a success parses the text after the first marker |
| Ds18b20Driver.ReadTemperature | src/ds18b20.rs:73-92 | a missing `w1_slave` is exactly the open error; for a present file, the read succeeds exactly when its lines parse and otherwise returns the parser's error; a reading times 1000 is the parsed integer, and it lies in the `i32` range divided by 1000 |
| Ds18b20Driver.ReadsMillidegrees | src/ds18b20.rs:73-92 | a second line `...t=<n>` with no earlier `t=` reads as `n / 1000` degrees |
| Ds18b20Driver.MarkerAfterPrefix | src/ds18b20.rs:85 | the marker is found right after a prefix without one |
| Ds18b20Driver.NoCharNoMarker | src/ds18b20.rs:85 | a line without `t` has no marker |
| Ds18b20Driver.TrailingCharacterFails | src/ds18b20.rs:86-87 | the whole rest of the line must be the integer: a trailing non-digit is the bad-integer error |
| Ds18b20Driver.FirstLineIgnored | src/ds18b20.rs:81 | the first line has no effect on the reading |
| Ds18b20Driver.FixtureNumberParses | src/ds18b20.rs:87 | `23456` parses as an `i32` |
| Ds18b20Driver.FixtureLineParses | src/ds18b20.rs:80-87 | the fixture's second line gives 23456 thousandths |
| Ds18b20Driver.FixtureReading | src/ds18b20.rs:73-92 | the fixture sensor reads 23.456 degrees |
| Sht30Driver.BitOr | src/sht30.rs:61 | bitwise or is at least each operand and at most their sum |
| Sht30Driver.ShiftLeft16 | src/sht30.rs:61 | a `u16` shift stays below 2^16 |
| Sht30Driver.OrBelowShift | src/sht30.rs:61 | or-ing a value below 2^k into a value shifted by k is addition |
| Sht30Driver.Word | src/sht30.rs:61 | `hi << 8 \| lo` on bytes is `hi * 256 + lo` and never exceeds 65535 |
| Sht30Driver.RawTemperature | src/sht30.rs:61 | the raw temperature is the big-endian word of bytes 0 and 1 |
| Sht30Driver.RawHumidity | src/sht30.rs:84 | the raw humidity is the big-endian word of bytes 3 and 4 |
| Sht30Driver.DecodeRoundTrip | src/sht30.rs:61-84 | a block built from two words and two checksum bytes decodes back to those words |
| Sht30Driver.ChecksumBytesIgnored | src/sht30.rs:57-84 | bytes 2 and 5 (the sensor's checksums) never affect a reading |
| Sht30Driver.Temperature | src/sht30.rs:62 | the temperature lies in -45..130 °C, with -45 at raw 0 and 130 at raw 65535 |
| Sht30Driver.TemperatureStrictlyIncreasing | src/sht30.rs:62 | a larger raw value is a higher temperature |
| Sht30Driver.TemperatureInvertible | src/sht30.rs:62 | the raw value is recovered from the temperature |
| Sht30Driver.Humidity | src/sht30.rs:85 | humidity lies in 0..100 %, with 0 at raw 0 and 100 at raw 65535 |
| Sht30Driver.HumidityStrictlyIncreasing | src/sht30.rs:85 | a larger raw value is a higher humidity |
| Sht30Driver.HumidityInvertible | src/sht30.rs:85 | the raw value is recovered from the humidity |
| Sht30Driver.SleepTotal | src/sht30.rs:55-59 | a trace without sleeps sleeps 0 ms |
| Sht30Driver.SleepTotalAppend | src/sht30.rs:55-59 | sleep time adds up over concatenated traces |
| Sht30Driver.MeasurementCycleSleeps | src/sht30.rs:54-59 | one measurement sleeps twice the 200 ms wait |
| Sht30Driver.SHT30.Init | src/sht30.rs:31-41 | on target the bus is opened and addressed at 0x44; off target there is no bus and nothing happens |
| Sht30Driver.SHT30.ReadBlock | src/sht30.rs:57-58 | the buffer receives the device's reply, and one block read is recorded |
| Sht30Driver.SHT30.Measure | src/sht30.rs:50-59 | one measurement records write `0x2C [0x06]`, a 200 ms sleep, a 6-byte read at `0x00` and a 200 ms sleep, and returns the bytes read |
| Sht30Driver.SHT30.ReadTemperature | src/sht30.rs:43-64 | off target 12.3 with no bus traffic; on target the converted bytes 0-1 of one measurement cycle |
| Sht30Driver.SHT30.ReadHumidity | src/sht30.rs:66-87 | off target 45.6 with no bus traffic; on target the converted bytes 3-4 of one measurement cycle |
| OneWireScanner.New | src/onewire.rs:11-37 | panics exactly when the listed directory has an unreadable entry; otherwise keeps the address and the name of the last matching entry, or none for a missing directory |
| OneWireScanner.LastMatchIsLast | src/onewire.rs:16-28 | the stored name is absent exactly when no entry passes the test, else it is the last entry that does |
| OneWireScanner.TargetIsBareName | src/onewire.rs:23 | the stored target is the bare name of a readable entry, not a path |
| OneWireScanner.FirstMatchVersusLastMatch | src/onewire.rs:16-28 | with two directories of one family, DS18B20 discovery keeps the first as a path while `new` keeps the second as a name |
| OneWireScanner.U64Accepts | src/onewire.rs:19 | a number that parses as `u32` also parses as `u64` |
| OneWireScanner.Search | src/onewire.rs:39-61 | `None` exactly for a missing directory; a panic only at an unreadable entry before any number; otherwise the first readable number, or `0x1234` when there is none |
| OneWireScanner.IsCrcValid | src/onewire.rs:63-66 | every reading is accepted |
| OneWireScanner.Read | src/onewire.rs:71-72 | the 8-byte buffer is left unchanged |

## Left out

- File system, I2C bus and sleeping are not performed. Directory listings and file lines are a value given to each operation. The bus reply bytes are a parameter. Sleeps and bus operations appear only as trace events.
- `is_rpi` is a compile-time check of the build target. The drivers take its result as a boolean; `Platform.IsRpi` states the condition.
- f64 arithmetic is modelled with exact reals. The rounding of `(integer as f64) / 1000.0` and of the SHT30 transfer functions is not captured.
- Parse error kinds (empty, invalid digit, overflow) collapse into one failure, since the source only checks success.
- Directory entry names are Dafny strings. Non-UTF-8 names are not modelled. On those, `to_str().unwrap()` in `find_dir_with_prefix` panics and `new` and `search` skip the entry.
- `path.is_dir()` is a flag on each entry. Symbolic links and files that change during the scan are not modelled.
- Line splitting by `BufReader::lines` is not modelled; a file is its sequence of lines. An I/O error while reading a line is not modelled either.
- `println!` output is left out: it does not influence any result.
- Sht30Driver.SHT30.ReadTemperature: a failure of `I2c::new`, `set_slave_address`, `block_write` or `block_read` (each an `unwrap` panic) is not modelled; the bus always answers with the given bytes.
- Sht30Driver.SHT30.ReadHumidity: bus failures are not modelled, for the same reason.
- Sht30Driver.SHT30.Init: bus failures are not modelled, for the same reason.
- `OneWire::write` has an empty body and takes no input, so it is not modelled.
- OneWireScanner.Read: the source's `read` has an empty body; the contract says only that the buffer is unchanged.
- `src/main.rs`, `src/slack.rs` and `src/util.rs` (the monitoring loop, the Slack upload and helpers) are not part of this model.
- The debug fixture `3-abc` may look like a malformed name. In the code, the `3` before the `-` parses, so `3-abc` carries family 3. The model follows the code: the entry is skipped only because 3 is not 28.
