/**
 * The draft single-wire scanner. It lists a fixed debug directory and reads
 * the number before the first `-` of each entry name as a `u64`, like the
 * DS18B20 discovery, but `new` keeps the last matching name and `search`
 * reports the first number it can read, whatever its value.
 */
module OneWireScanner {
  import opened Wrappers
  import opened Platform
  import opened Text
  import opened FileSystem
  import Ds18b20Driver

  const DEVFILE_PATH: Path := "./debug/"
  /** What `search` answers when the directory lists no numbered entry. */
  const FALLBACK_ADDRESS: nat := 0x1234
  const ROM_LEN: nat := 8

  /** `entry.unwrap()` on an entry the directory iteration could not read. */
  datatype ScanError = EntryUnreadable

  /** The scanner keeps the address it was built for and the bare name of the matching entry. */
  datatype OneWire = OneWire(address: nat, targetDir: Option<string>)

  /** An entry `new` accepts: any entry, directory or not, whose name carries `address`. */
  predicate IsAddressEntry(e: DirEntry, address: nat)
  {
    e.Entry? && FamilyPrefix(e.name, U64_LIMIT) == Some(address)
  }

  predicate AllReadable(entries: seq<DirEntry>)
  {
    forall i :: 0 <= i < |entries| ==> entries[i].Entry?
  }

  /** The test of `new`, as a value the scan is given. */
  function AddressTest(address: nat): DirEntry -> bool
  {
    e => IsAddressEntry(e, address)
  }

  /** The name of the last accepted entry. */
  function LastMatch(entries: seq<DirEntry>, accept: DirEntry -> bool): Option<string>
  {
    if entries == [] then None
    else if entries[|entries| - 1].Entry? && accept(entries[|entries| - 1]) then Some(entries[|entries| - 1].name)
    else LastMatch(entries[..|entries| - 1], accept)
  }

  /** `entries[i]` is accepted and no later entry is. */
  predicate IsLastAccepted(entries: seq<DirEntry>, accept: DirEntry -> bool, i: nat)
  {
    i < |entries| && entries[i].Entry? && accept(entries[i])
    && forall j :: i < j < |entries| ==> !(entries[j].Entry? && accept(entries[j]))
  }

  /** No entry before `i` failed or carried a readable number. */
  predicate NoNumberBefore(entries: seq<DirEntry>, i: nat)
    requires i <= |entries|
  {
    forall j :: 0 <= j < i ==> entries[j].Entry? && FamilyPrefix(entries[j].name, U64_LIMIT).None?
  }

  /**
   * `OneWire::new`: every entry is visited (there is no early exit), and
   * each match overwrites the previous one, so the last match is kept. An
   * unreadable directory leaves no target; an unreadable entry is a panic.
   */
  method New(address: nat, fs: Fs) returns (r: Result<OneWire, ScanError>)
    requires address < U64_LIMIT
    ensures r.Err? <==> DEVFILE_PATH in fs.dirs && !AllReadable(fs.dirs[DEVFILE_PATH])
    ensures r.Ok? ==> r.value.address == address
    ensures r.Ok? ==> r.value.targetDir == if DEVFILE_PATH in fs.dirs then LastMatch(fs.dirs[DEVFILE_PATH], AddressTest(address)) else None
  {
    var targetDir: Option<string> := None;
    match ReadDir(fs, DEVFILE_PATH) {
      case None =>
      case Some(entries) =>
        var i := 0;
        while i < |entries|
          invariant i <= |entries|
          invariant AllReadable(entries[..i])
          invariant targetDir == LastMatch(entries[..i], AddressTest(address))
        {
          var entry := entries[i];
          if entry.EntryError? {
            return Err(EntryUnreadable);
          }
          match SplitOnce(entry.name, '-') {
            case None =>
            case Some((numStr, _)) =>
              match ParseUnsigned(numStr, U64_LIMIT) {
                case None =>
                case Some(num) =>
                  if num == address {
                    targetDir := Some(entry.name);
                  }
              }
          }
          assert entries[..i + 1][..i] == entries[..i];
          i := i + 1;
        }
        assert entries[..i] == entries;
    }
    return Ok(OneWire(address, targetDir));
  }

  /**
   * `OneWire::search`: `None` for an unreadable directory; otherwise the
   * number of the first entry that carries one, or `0x1234` when none does.
   * An unreadable entry met before that is a panic.
   */
  method Search(fs: Fs) returns (r: Result<Option<nat>, ScanError>)
    ensures r == Ok(None) <==> DEVFILE_PATH !in fs.dirs
    ensures DEVFILE_PATH in fs.dirs ==>
              var entries := fs.dirs[DEVFILE_PATH];
              match r
              case Err(_) =>
                exists i :: 0 <= i < |entries| && NoNumberBefore(entries, i) && entries[i].EntryError?
              case Ok(v) =>
                v.Some?
                && ((exists i :: 0 <= i < |entries| && NoNumberBefore(entries, i)
                                 && entries[i].Entry? && FamilyPrefix(entries[i].name, U64_LIMIT) == v)
                    || (NoNumberBefore(entries, |entries|) && v.value == FALLBACK_ADDRESS))
  {
    match ReadDir(fs, DEVFILE_PATH) {
      case None =>
        return Ok(None);
      case Some(entries) =>
        var i := 0;
        while i < |entries|
          invariant i <= |entries|
          invariant NoNumberBefore(entries, i)
        {
          var entry := entries[i];
          if entry.EntryError? {
            return Err(EntryUnreadable);
          }
          match SplitOnce(entry.name, '-') {
            case None =>
            case Some((numStr, _)) =>
              match ParseUnsigned(numStr, U64_LIMIT) {
                case None =>
                case Some(num) =>
                  return Ok(Some(num));
              }
          }
          i := i + 1;
        }
    }
    var onewireAddress := FALLBACK_ADDRESS;
    return Ok(Some(onewireAddress));
  }

  /** `is_crc_valid`: the check is not implemented and accepts everything. */
  function IsCrcValid(w: OneWire): (ok: bool)
    ensures ok
  {
    true
  }

  /** `read`: not implemented; the caller's 8-byte buffer is left as it was. */
  method Read(w: OneWire, data: array<Byte>)
    requires data.Length == ROM_LEN
    ensures data[..] == old(data[..])
  {
  }

  // ---------------------------------------------------------------------
  // Properties of the last-match scan

  /**
   * `new` finds nothing exactly when no entry carries the address, and
   * otherwise names the last entry that does.
   */
  lemma {:induction false} LastMatchIsLast(entries: seq<DirEntry>, accept: DirEntry -> bool)
    ensures LastMatch(entries, accept).None? <==>
              forall i :: 0 <= i < |entries| ==> !(entries[i].Entry? && accept(entries[i]))
    ensures LastMatch(entries, accept).Some? ==>
              exists i: nat :: IsLastAccepted(entries, accept, i)
                               && LastMatch(entries, accept).value == entries[i].name
  {
    if entries != [] {
      var n := |entries| - 1;
      if entries[n].Entry? && accept(entries[n]) {
        assert IsLastAccepted(entries, accept, n);
      } else {
        var init := entries[..n];
        LastMatchIsLast(init, accept);
        assert forall i :: 0 <= i < n ==> entries[i] == init[i];
        if LastMatch(init, accept).Some? {
          var i: nat :| IsLastAccepted(init, accept, i) && LastMatch(init, accept).value == entries[i].name;
          assert IsLastAccepted(entries, accept, i);
        }
      }
    }
  }

  /**
   * The target `new` stores is a bare entry name, never a path under the
   * scanned directory, and that entry is a readable one.
   */
  lemma TargetIsBareName(entries: seq<DirEntry>, address: nat)
    requires LastMatch(entries, AddressTest(address)).Some?
    ensures exists i :: 0 <= i < |entries| && entries[i].Entry? && LastMatch(entries, AddressTest(address)).value == entries[i].name
  {
    LastMatchIsLast(entries, AddressTest(address));
  }

  /**
   * Two directories of the same family: the DS18B20 discovery keeps the
   * first, as a full path; `new` keeps the second, as a bare name.
   */
  lemma FirstMatchVersusLastMatch(root: Path, first: string, second: string, family: nat)
    requires family < U32_LIMIT
    requires FamilyPrefix(first, U32_LIMIT) == Some(family) && FamilyPrefix(second, U32_LIMIT) == Some(family)
    ensures Ds18b20Driver.ScanEntries(root, [Entry(first, true), Entry(second, true)], Ds18b20Driver.DeviceDirTest(family))
              == Some(Join(root, first))
    ensures LastMatch([Entry(first, true), Entry(second, true)], AddressTest(family)) == Some(second)
  {
    U64Accepts(first, family);
    U64Accepts(second, family);
  }

  /** A family number that fits in `u32` reads the same as a `u64`. */
  lemma U64Accepts(name: string, family: nat)
    requires FamilyPrefix(name, U32_LIMIT) == Some(family)
    ensures FamilyPrefix(name, U64_LIMIT) == Some(family)
  {
  }
}
