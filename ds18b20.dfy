/**
 * The DS18B20 single-wire thermometer as the kernel's w1 driver exposes it:
 * one directory per device, named `<family>-<serial>`, holding a two-line
 * text file `w1_slave` whose second line ends in `t=<millidegrees>`.
 */
module Ds18b20Driver {
  import opened Wrappers
  import opened Text
  import opened FileSystem

  const DEVICES_ROOT: Path := "/sys/bus/w1/devices/"
  const DEBUG_ROOT: Path := "./test/debug_path/"
  /** The single-wire family code of the DS18B20 (written in decimal in the driver). */
  const FAMILY_CODE: nat := 28
  const SLAVE_FILE: string := "w1_slave"
  const TEMP_MARKER: string := "t="

  datatype SensorError = NotFound

  /** The ways `read_temperture` stops short; each one is a panic in the driver. */
  datatype ReadError = CannotOpen | TooFewLines | NoTemperatureMarker | BadInteger

  /** The driver holds only the path of the device directory it discovered. */
  datatype DS18B20 = DS18B20(sensorPath: Path)

  /**
   * An entry `find_dir_with_prefix` accepts: a directory whose name has a
   * `-` and whose text before the first `-` parses as a `u32` equal to `prefix`.
   */
  predicate IsDeviceDir(e: DirEntry, prefix: nat)
  {
    e.Entry? && e.isDir && FamilyPrefix(e.name, U32_LIMIT) == Some(prefix)
  }

  /** The test of `find_dir_with_prefix`, as a value the scan is given. */
  function DeviceDirTest(prefix: nat): DirEntry -> bool
  {
    e => IsDeviceDir(e, prefix)
  }

  /** `entries[i]` is accepted and no entry before it is. */
  predicate IsFirstAccepted(entries: seq<DirEntry>, accept: DirEntry -> bool, i: nat)
  {
    i < |entries| && entries[i].Entry? && accept(entries[i])
    && forall j :: 0 <= j < i ==> !(entries[j].Entry? && accept(entries[j]))
  }

  /** The loop of `find_dir_with_prefix`: the first accepted entry, joined to `root`. */
  function ScanEntries(root: Path, entries: seq<DirEntry>, accept: DirEntry -> bool): Option<Path>
  {
    if entries == [] then None
    else if entries[0].Entry? && accept(entries[0]) then Some(Join(root, entries[0].name))
    else ScanEntries(root, entries[1..], accept)
  }

  /** `find_dir_with_prefix(root_dir, prefix)`; an unreadable root yields `None`. */
  function FindDirWithPrefix(fs: Fs, root: Path, prefix: nat): (r: Option<Path>)
    ensures r.Some? ==> root in fs.dirs
  {
    match ReadDir(fs, root)
    case None => None
    case Some(entries) => ScanEntries(root, entries, DeviceDirTest(prefix))
  }

  /** The directory `init` scans: the kernel's device list on target, a fixture otherwise. */
  function RootDir(isRpi: bool): Path
  {
    if isRpi then DEVICES_ROOT else DEBUG_ROOT
  }

  /** `DS18B20::init`: discover a family-28 device under the root for this platform. */
  function Init(isRpi: bool, fs: Fs): (r: Result<DS18B20, SensorError>)
    ensures r == Err(NotFound) <==> FindDirWithPrefix(fs, RootDir(isRpi), FAMILY_CODE).None?
  {
    match FindDirWithPrefix(fs, RootDir(isRpi), FAMILY_CODE)
    case Some(path) => Ok(DS18B20(path))
    case None => Err(NotFound)
  }

  /**
   * The text part of `read_temperture`: skip the first line, find the first
   * `t=` in the second and parse everything after it as an `i32`.
   */
  function ParseMillidegrees(lines: seq<string>): (r: Result<int, ReadError>)
    ensures r == Err(TooFewLines) <==> |lines| < 2
    ensures r.Ok? ==> I32_MIN <= r.value <= I32_MAX
  {
    if |lines| < 2 then Err(TooFewLines)
    else
      match Find(lines[1], TEMP_MARKER)
      case None => Err(NoTemperatureMarker)
      case Some(k) =>
        match ParseI32(lines[1][k + |TEMP_MARKER|..])
        case None => Err(BadInteger)
        case Some(n) => Ok(n)
  }

  /** `DS18B20::read_temperture`: degrees Celsius from the device's `w1_slave` file. */
  function ReadTemperature(d: DS18B20, fs: Fs): (r: Result<real, ReadError>)
    ensures r == Err(CannotOpen) <==> Join(d.sensorPath, SLAVE_FILE) !in fs.files
    ensures r.Ok? ==> var lines := fs.files[Join(d.sensorPath, SLAVE_FILE)];
                      ParseMillidegrees(lines).Ok? && r.value * 1000.0 == ParseMillidegrees(lines).value as real
    ensures r.Ok? ==> I32_MIN as real / 1000.0 <= r.value <= I32_MAX as real / 1000.0
    ensures Join(d.sensorPath, SLAVE_FILE) in fs.files ==>
              var parsed := ParseMillidegrees(fs.files[Join(d.sensorPath, SLAVE_FILE)]);
              (r.Ok? <==> parsed.Ok?) && (parsed.Err? ==> r == Err(parsed.error))
  {
    match ReadLines(fs, Join(d.sensorPath, SLAVE_FILE))
    case None => Err(CannotOpen)
    case Some(lines) =>
      match ParseMillidegrees(lines)
      case Err(e) => Err(e)
      case Ok(n) => Ok(n as real / 1000.0)
  }

  // ---------------------------------------------------------------------
  // Discovery

  /**
   * The scan yields `None` exactly when no entry is accepted, and otherwise
   * the path of the first accepted entry.
   */
  lemma {:induction false} ScanFindsFirst(root: Path, entries: seq<DirEntry>, accept: DirEntry -> bool)
    ensures ScanEntries(root, entries, accept).None? <==>
              forall i :: 0 <= i < |entries| ==> !(entries[i].Entry? && accept(entries[i]))
    ensures ScanEntries(root, entries, accept).Some? ==>
              exists i: nat :: IsFirstAccepted(entries, accept, i)
                               && ScanEntries(root, entries, accept).value == Join(root, entries[i].name)
  {
    if entries != [] && !(entries[0].Entry? && accept(entries[0])) {
      var rest := entries[1..];
      ScanFindsFirst(root, rest, accept);
      assert forall i :: 1 <= i < |entries| ==> entries[i] == rest[i - 1];
      if ScanEntries(root, rest, accept).Some? {
        var i: nat :| IsFirstAccepted(rest, accept, i)
                      && ScanEntries(root, rest, accept).value == Join(root, rest[i].name);
        assert IsFirstAccepted(entries, accept, i + 1);
      }
    } else if entries != [] {
      assert IsFirstAccepted(entries, accept, 0);
    }
  }

  /** An accepted name starts with a digit or `+`, so joining it keeps the root as a prefix. */
  lemma DeviceDirUnderRoot(root: Path, e: DirEntry, prefix: nat)
    requires IsDeviceDir(e, prefix)
    ensures |root| <= |Join(root, e.name)| && Join(root, e.name)[..|root|] == root
  {
    FamilyPrefixShape(e.name, U32_LIMIT);
  }

  /**
   * `init` succeeds with the first family-28 directory under its root, and
   * the device path lies under that root.
   */
  lemma InitSelectsFirstDevice(isRpi: bool, fs: Fs)
    ensures Init(isRpi, fs).Err? <==>
              (RootDir(isRpi) !in fs.dirs
               || forall i :: 0 <= i < |fs.dirs[RootDir(isRpi)]| ==> !IsDeviceDir(fs.dirs[RootDir(isRpi)][i], FAMILY_CODE))
    ensures Init(isRpi, fs).Ok? ==>
              var root := RootDir(isRpi);
              var path := Init(isRpi, fs).value.sensorPath;
              root in fs.dirs && |root| <= |path| && path[..|root|] == root
              && exists i: nat :: IsFirstAccepted(fs.dirs[root], DeviceDirTest(FAMILY_CODE), i) && path == Join(root, fs.dirs[root][i].name)
  {
    var root := RootDir(isRpi);
    if root in fs.dirs {
      var entries := fs.dirs[root];
      var accept := DeviceDirTest(FAMILY_CODE);
      ScanFindsFirst(root, entries, accept);
      if ScanEntries(root, entries, accept).Some? {
        var i: nat :| IsFirstAccepted(entries, accept, i)
                      && ScanEntries(root, entries, accept).value == Join(root, entries[i].name);
        DeviceDirUnderRoot(root, entries[i], FAMILY_CODE);
      }
    }
  }

  /** Once an accepted entry has been seen, later entries are never examined. */
  lemma {:induction false} ScanStopsAtFirstMatch(root: Path, entries: seq<DirEntry>, later: seq<DirEntry>, accept: DirEntry -> bool)
    requires exists i :: 0 <= i < |entries| && entries[i].Entry? && accept(entries[i])
    ensures ScanEntries(root, entries + later, accept) == ScanEntries(root, entries, accept)
  {
    if !(entries[0].Entry? && accept(entries[0])) {
      assert (entries + later)[1..] == entries[1..] + later;
      var i :| 0 <= i < |entries| && entries[i].Entry? && accept(entries[i]);
      assert entries[1..][i - 1] == entries[i];
      ScanStopsAtFirstMatch(root, entries[1..], later, accept);
    }
  }

  /** Matching is numeric: a leading zero in the family part still selects the device. */
  lemma LeadingZeroMatches(prefix: nat, serial: string)
    requires prefix < U32_LIMIT
    ensures IsDeviceDir(Entry("0" + ShowNat(prefix) + "-" + serial, true), prefix)
  {
    FamilyPrefixOf("0" + ShowNat(prefix), serial, U32_LIMIT);
    ParseLeadingZero(ShowNat(prefix), U32_LIMIT);
    ParseShowUnsigned(prefix, U32_LIMIT);
  }

  /**
   * A family part that overflows `u32` is skipped, even one equal to the
   * wanted family modulo 2^32: there is no wrap-around. This holds with or
   * without a leading `+`, and with any number of leading zeros.
   */
  lemma OverflowingPrefixSkipped(head: string, serial: string, prefix: nat)
    requires var digits := if |head| > 1 && head[0] == '+' then head[1..] else head;
             AllDigits(digits) && DigitsValue(digits) >= U32_LIMIT
    ensures !IsDeviceDir(Entry(head + "-" + serial, true), prefix)
  {
    assert '-' !in head;
    FamilyPrefixOf(head, serial, U32_LIMIT);
  }

  /** In particular the decimal form of any number at or above 2^32 is skipped. */
  lemma OverflowingNumberSkipped(n: nat, serial: string, prefix: nat)
    requires n >= U32_LIMIT
    ensures !IsDeviceDir(Entry(ShowNat(n) + "-" + serial, true), prefix)
  {
    ShowNatValue(n);
    OverflowingPrefixSkipped(ShowNat(n), serial, prefix);
  }

  /** A name without `-` is skipped. */
  lemma NameWithoutDashSkipped(name: string, prefix: nat)
    requires '-' !in name
    ensures !IsDeviceDir(Entry(name, true), prefix)
  {
  }

  /**
   * A family part that is not a number is skipped: it is empty, or what
   * follows an optional leading `+` is empty or holds a non-digit.
   */
  lemma NonNumericPrefixSkipped(head: string, serial: string, prefix: nat)
    requires '-' !in head
    requires var digits := if |head| > 1 && head[0] == '+' then head[1..] else head;
             digits == [] || !AllDigits(digits)
    ensures !IsDeviceDir(Entry(head + "-" + serial, true), prefix)
  {
    FamilyPrefixOf(head, serial, U32_LIMIT);
  }

  // The fixture lemmas below take each literal text as a parameter pinned by a
  // `requires` equality. Stated on the literal itself, the verifier would
  // unroll the split and the digit parser over every character of it while
  // proving each clause; as a parameter the text is unfolded only where the
  // proof asks for it. Each lemma still speaks of exactly one text.

  /** The fixture device name carries family 28 (the name is pinned by `requires`). */
  lemma FixtureNameAccepted(name: string)
    requires name == "28-000001"
    ensures IsDeviceDir(Entry(name, true), FAMILY_CODE)
  {
    var head, serial := "28", "000001";
    assert name == head + "-" + serial;
    FamilyPrefixOf(head, serial, U32_LIMIT);
    FixtureFamilyParses(head);
  }

  /** The fixture's family part `28` parses as family 28 (the text is pinned by `requires`). */
  lemma FixtureFamilyParses(s: string)
    requires s == "28"
    ensures ParseUnsigned(s, U32_LIMIT) == Some(FAMILY_CODE)
  {
    assert AllDigits(s) && DigitsValue(s) == 28;
  }

  /** A name whose family part parses to a number other than `prefix` is skipped. */
  lemma OtherFamilySkipped(head: string, serial: string, n: nat, prefix: nat)
    requires '-' !in head
    requires ParseUnsigned(head, U32_LIMIT) == Some(n) && n != prefix
    ensures !IsDeviceDir(Entry(head + "-" + serial, true), prefix)
  {
    FamilyPrefixOf(head, serial, U32_LIMIT);
  }

  /** The other fixture family parts parse as 41 and 3 (the texts are pinned by `requires`). */
  lemma FixtureOtherFamilies(a: string, b: string)
    requires a == "41" && b == "3"
    ensures ParseUnsigned(a, U32_LIMIT) == Some(41)
    ensures ParseUnsigned(b, U32_LIMIT) == Some(3)
  {
    assert AllDigits(a) && DigitsValue(a) == 41;
    assert AllDigits(b) && DigitsValue(b) == 3;
  }

  /** The other two fixture names carry families 41 and 3, so neither is accepted. */
  lemma FixtureOthersRejected(a: string, b: string)
    requires a == "41-000002" && b == "3-abc"
    ensures !IsDeviceDir(Entry(a, true), FAMILY_CODE)
    ensures !IsDeviceDir(Entry(b, true), FAMILY_CODE)
  {
    var headA, serialA, headB, serialB := "41", "000002", "3", "abc";
    assert a == headA + "-" + serialA && b == headB + "-" + serialB;
    FixtureOtherFamilies(headA, headB);
    OtherFamilySkipped(headA, serialA, 41, FAMILY_CODE);
    OtherFamilySkipped(headB, serialB, 3, FAMILY_CODE);
  }

  /**
   * When a listing holds three entries in some order and only `device` is
   * accepted, the scan selects `device`.
   */
  lemma ScanSelectsOnlyAccepted(root: Path, entries: seq<DirEntry>, device: DirEntry, other: DirEntry,
                                malformed: DirEntry, accept: DirEntry -> bool)
    requires multiset(entries) == multiset{device, other, malformed}
    requires device.Entry? && accept(device)
    requires !(other.Entry? && accept(other)) && !(malformed.Entry? && accept(malformed))
    ensures ScanEntries(root, entries, accept) == Some(Join(root, device.name))
  {
    assert device in multiset(entries);
    ScanFindsFirst(root, entries, accept);
    var i: nat :| IsFirstAccepted(entries, accept, i)
                  && ScanEntries(root, entries, accept).value == Join(root, entries[i].name);
    assert entries[i] in multiset(entries);
  }

  /**
   * The fixture directory holds `28-000001`, `41-000002` and `3-abc`, listed
   * in any order: only the first is a family-28 directory, so it is selected.
   */
  lemma FixtureDiscovery(fs: Fs)
    requires DEBUG_ROOT in fs.dirs
    requires multiset(fs.dirs[DEBUG_ROOT]) == multiset{Entry("28-000001", true), Entry("41-000002", true), Entry("3-abc", true)}
    ensures Init(false, fs) == Ok(DS18B20("./test/debug_path/28-000001"))
  {
    FixtureScan(fs.dirs[DEBUG_ROOT]);
    FixturePath();
  }

  lemma FixturePath()
    ensures Join(DEBUG_ROOT, "28-000001") == "./test/debug_path/28-000001"
    ensures Join("./test/debug_path/28-000001", SLAVE_FILE) == "./test/debug_path/28-000001/w1_slave"
  {
  }

  lemma FixtureScan(entries: seq<DirEntry>)
    requires multiset(entries) == multiset{Entry("28-000001", true), Entry("41-000002", true), Entry("3-abc", true)}
    ensures ScanEntries(DEBUG_ROOT, entries, DeviceDirTest(FAMILY_CODE)) == Some(Join(DEBUG_ROOT, "28-000001"))
  {
    var device, other, malformed := Entry("28-000001", true), Entry("41-000002", true), Entry("3-abc", true);
    FixtureNameAccepted(device.name);
    FixtureOthersRejected(other.name, malformed.name);
    ScanSelectsOnlyAccepted(DEBUG_ROOT, entries, device, other, malformed, DeviceDirTest(FAMILY_CODE));
  }

  // ---------------------------------------------------------------------
  // Reading

  /**
   * How the parse ends: too few lines, no `t=` anywhere in the second line,
   * or the text after the first `t=` parsed as an `i32` (`BadInteger` when that fails).
   */
  lemma ParseMillidegreesCases(lines: seq<string>)
    ensures ParseMillidegrees(lines) == Err(NoTemperatureMarker) <==>
              |lines| >= 2 && forall k: nat :: !OccursAt(lines[1], TEMP_MARKER, k)
    ensures ParseMillidegrees(lines) == Err(BadInteger) <==>
              |lines| >= 2 && Find(lines[1], TEMP_MARKER).Some?
              && ParseI32(lines[1][Find(lines[1], TEMP_MARKER).value + |TEMP_MARKER|..]).None?
    ensures ParseMillidegrees(lines).Ok? ==>
              exists k: nat :: OccursAt(lines[1], TEMP_MARKER, k)
                               && (forall j :: 0 <= j < k ==> !OccursAt(lines[1], TEMP_MARKER, j))
                               && ParseI32(lines[1][k + |TEMP_MARKER|..]) == Some(ParseMillidegrees(lines).value)
  {
    if |lines| >= 2 && Find(lines[1], TEMP_MARKER).Some? {
      var k := Find(lines[1], TEMP_MARKER).value;
      assert OccursAt(lines[1], TEMP_MARKER, k);
    }
  }

  /** With no `t=` inside `prefix`, the first `t=` of `prefix + "t=" + rest` is right after `prefix`. */
  lemma {:induction false} MarkerAfterPrefix(prefix: string, rest: string)
    requires Find(prefix, TEMP_MARKER).None?
    ensures Find(prefix + TEMP_MARKER + rest, TEMP_MARKER) == Some(|prefix|)
  {
    var s := prefix + TEMP_MARKER + rest;
    assert OccursAt(s, TEMP_MARKER, |prefix|) by {
      assert s[|prefix|..|prefix| + 2] == TEMP_MARKER;
    }
    forall j: nat | j < |prefix|
      ensures !OccursAt(s, TEMP_MARKER, j)
    {
      if j + 2 <= |prefix| {
        assert s[j..j + 2] == prefix[j..j + 2];
        assert !OccursAt(prefix, TEMP_MARKER, j);
      } else {
        assert j + 1 == |prefix| && s[j + 1] == 't';
        assert s[j..j + 2][1] == s[j + 1];
      }
    }
  }

  /** A second line `<prefix>t=<n>` reads back as `n` millidegrees, i.e. `n / 1000` degrees. */
  lemma ReadsMillidegrees(d: DS18B20, fs: Fs, first: string, prefix: string, n: int, more: seq<string>)
    requires Find(prefix, TEMP_MARKER).None?
    requires I32_MIN <= n <= I32_MAX
    requires Join(d.sensorPath, SLAVE_FILE) in fs.files
    requires fs.files[Join(d.sensorPath, SLAVE_FILE)] == [first, prefix + TEMP_MARKER + ShowInt(n)] + more
    ensures ReadTemperature(d, fs) == Ok(n as real / 1000.0)
  {
    var line := prefix + TEMP_MARKER + ShowInt(n);
    MarkerAfterPrefix(prefix, ShowInt(n));
    assert line[|prefix| + |TEMP_MARKER|..] == ShowInt(n);
    ParseShowI32(n);
  }

  /** Anything but a digit after the number makes the read fail. */
  lemma TrailingCharacterFails(first: string, prefix: string, rest: string, c: char, more: seq<string>)
    requires Find(prefix, TEMP_MARKER).None?
    requires !IsDigit(c)
    ensures ParseMillidegrees([first, prefix + TEMP_MARKER + rest + [c]] + more) == Err(BadInteger)
  {
    MarkerAfterPrefix(prefix, rest + [c]);
    var line := prefix + TEMP_MARKER + rest + [c];
    assert line == prefix + TEMP_MARKER + (rest + [c]);
    assert line[|prefix| + |TEMP_MARKER|..] == rest + [c];
    TrailingNonDigitRejected(rest, c);
  }

  /** The first line is never looked at. */
  lemma FirstLineIgnored(a: string, b: string, rest: seq<string>)
    ensures ParseMillidegrees([a] + rest) == ParseMillidegrees([b] + rest)
  {
  }

  /** A line without the character `t` holds no `t=` marker. */
  lemma {:induction false} NoCharNoMarker(s: string)
    requires 't' !in s
    ensures Find(s, TEMP_MARKER).None?
  {
    forall j: nat ensures !OccursAt(s, TEMP_MARKER, j) {
      if j + 2 <= |s| {
        assert s[j..j + 2][0] == s[j];
      }
    }
  }

  // The fixture lemmas of this part take each literal text as a parameter pinned by a
  // `requires` equality. Stated on the literal itself, the verifier would
  // unroll the split and the digit parser over every character of it while
  // proving each clause; as a parameter the text is unfolded only where the
  // proof asks for it. Each lemma still speaks of exactly one text.

  /** The number in the fixture's second line (the text is pinned by `requires`). */
  lemma FixtureNumberParses(s: string)
    requires s == "23456"
    ensures ParseI32(s) == Some(23456)
  {
    assert s[0] != '+' && s[0] != '-';
    assert DigitsValue("23") == 23;
    assert "234"[..2] == "23" && DigitsValue("234") == 234;
    assert "2345"[..3] == "234" && DigitsValue("2345") == 2345;
    assert "23456"[..4] == "2345" && DigitsValue("23456") == 23456;
  }

  /** The second line of the fixture file holds 23456 millidegrees. */
  lemma FixtureLineParses(first: string, prefix: string, number: string)
    requires prefix == "00 00 00 00 00 00 00 00 " && number == "23456"
    ensures ParseMillidegrees([first, prefix + TEMP_MARKER + number]) == Ok(23456)
  {
    NoCharNoMarker(prefix);
    MarkerAfterPrefix(prefix, number);
    assert (prefix + TEMP_MARKER + number)[|prefix| + |TEMP_MARKER|..] == number;
    FixtureNumberParses(number);
  }

  /** The fixture file of the off-target build reads as 23.456 degrees. */
  lemma FixtureReading(fs: Fs, prefix: string, number: string)
    requires prefix == "00 00 00 00 00 00 00 00 " && number == "23456"
    requires fs.files == map["./test/debug_path/28-000001/w1_slave" :=
      ["aa bb cc dd ee ff gg hh ii t=23456", prefix + TEMP_MARKER + number]]
    ensures ReadTemperature(DS18B20("./test/debug_path/28-000001"), fs) == Ok(23.456)
  {
    FixtureLineParses("aa bb cc dd ee ff gg hh ii t=23456", prefix, number);
    FixturePath();
  }
}
