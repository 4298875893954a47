/**
 * Naming rules shared by the ingest path and the watcher: the archive file
 * name `<timestamp>_<name>` and the symlink location
 * `<symlink root>/<category>/<uuid><suffix>`.
 */
module Naming {
  import opened Wrappers
  import opened Text
  import opened Paths

  /** `f"{timestamp}_{name}"` with the integer timestamp in decimal. */
  function ArchiveName(timestamp: nat, name: string): string {
    DecimalString(timestamp) + "_" + name
  }

  /** `<archive root>/<category>/<timestamp>_<name of source>`. */
  function ArchiveTarget(archiveRoot: Path, category: string, timestamp: nat, source: Path): Path {
    archiveRoot + [category, ArchiveName(timestamp, Name(source))]
  }

  /** `<symlink root>/<category>/<uuid><suffix of the archive path>`. */
  function SymlinkPath(symlinkRoot: Path, category: string, fileUuid: string, archivePath: Path): Path {
    symlinkRoot + [category, fileUuid + Suffix(Name(archivePath))]
  }

  /** Index of the first '_' in a string, or |s| when there is none. */
  function FirstUnderscore(s: string): (r: nat)
    ensures r <= |s|
    ensures r < |s| ==> s[r] == '_'
    ensures forall i :: 0 <= i < r ==> s[i] != '_'
  {
    if |s| == 0 then 0
    else if s[0] == '_' then 0
    else 1 + FirstUnderscore(s[1..])
  }

  /** The original file name recorded in an archive name: everything after the timestamp and '_'. */
  function OriginalNameOf(archiveName: string): (r: Option<string>) {
    var k := FirstUnderscore(archiveName);
    if k < |archiveName| && k > 0 && forall i :: 0 <= i < k ==> IsDigit(archiveName[i])
    then Some(archiveName[k + 1..])
    else None
  }

  /** The archive name can be taken apart again: the timestamp prefix never hides part of the name. */
  lemma {:induction false} ArchiveNameRoundTrip(timestamp: nat, name: string)
    ensures OriginalNameOf(ArchiveName(timestamp, name)) == Some(name)
  {
    var d := DecimalString(timestamp);
    var s := ArchiveName(timestamp, name);
    assert s == d + ("_" + name);
    FirstUnderscoreAfterDigits(d, "_" + name);
    assert s[|d| + 1..] == name;
  }

  lemma {:induction false} FirstUnderscoreAfterDigits(d: string, rest: string)
    requires forall i :: 0 <= i < |d| ==> IsDigit(d[i])
    requires |rest| > 0 && rest[0] == '_'
    ensures FirstUnderscore(d + rest) == |d|
  {
    if |d| > 0 {
      assert (d + rest)[1..] == d[1..] + rest;
      FirstUnderscoreAfterDigits(d[1..], rest);
    } else {
      assert d + rest == rest;
    }
  }

  /** The timestamp prefix `<digits>_` holds no dot. */
  lemma ArchivePrefixHasNoDot(timestamp: nat)
    ensures '.' !in DecimalString(timestamp) + "_"
  {
    var d := DecimalString(timestamp) + "_";
    forall i | 0 <= i < |d| ensures d[i] != '.' {
      if i < |d| - 1 { assert IsDigit(DecimalString(timestamp)[i]); }
    }
  }

  /**
   * The archive name keeps the suffix of the original name, so the symlink of
   * a watched file ends in the original extension -- unless the name starts
   * with a dot, which the watcher never processes.
   */
  lemma ArchiveNameKeepsSuffix(timestamp: nat, name: string)
    requires name != "" && name[0] != '.'
    ensures Suffix(ArchiveName(timestamp, name)) == Suffix(name)
  {
    var d := DecimalString(timestamp) + "_";
    ArchivePrefixHasNoDot(timestamp);
    assert ArchiveName(timestamp, name) == d + name;
    LastIndexOfAfterPrefix(d, name, '.');
    if '.' in name {
      var j := LastIndexOf(name, '.');
      assert (d + name)[|d| + j..] == name[j..];
    }
  }

  /** Where the watcher puts the link for a file it archived, named after the original file. */
  lemma SymlinkNameKeepsSuffix(symlinkRoot: Path, category: string, fileUuid: string,
                               archiveRoot: Path, timestamp: nat, source: Path)
    requires Name(source) != "" && Name(source)[0] != '.'
    ensures var link := SymlinkPath(symlinkRoot, category, fileUuid,
                                    ArchiveTarget(archiveRoot, category, timestamp, source));
            Parent(link) == symlinkRoot + [category] &&
            Name(link) == fileUuid + Suffix(Name(source))
  {
    ArchiveNameKeepsSuffix(timestamp, Name(source));
    var link := SymlinkPath(symlinkRoot, category, fileUuid,
                            ArchiveTarget(archiveRoot, category, timestamp, source));
    assert link[..|link| - 1] == symlinkRoot + [category];
  }
}
