/**
 * The diff command up to the point where it hands two text files to the
 * line differ: default revision selection, its guards, the existence checks
 * and the binary-file test.
 */
module Diff {
  import opened Wrappers
  import opened Text
  import opened Schemas
  import opened Lineage

  /** How many leading bytes `is_binary_file` inspects. */
  const BINARY_PROBE_SIZE: nat := 1024

  /**
   * `is_binary_file` on what reading the file gave (None when it could not
   * be opened): unreadable files count as binary, readable ones are binary
   * when their first 1024 bytes hold a zero byte.
   */
  function IsBinaryFile(content: Option<seq<bv8>>): (r: bool)
    ensures content.None? ==> r
  {
    match content
    case None => true
    case Some(bytes) =>
      var chunk := if |bytes| <= BINARY_PROBE_SIZE then bytes else bytes[..BINARY_PROBE_SIZE];
      0 in chunk
  }

  /** A readable file is binary exactly when a zero byte occurs among its first 1024 bytes. */
  lemma BinaryIffZeroInProbe(bytes: seq<bv8>)
    ensures IsBinaryFile(Some(bytes)) <==>
      exists i :: 0 <= i < |bytes| && i < BINARY_PROBE_SIZE && bytes[i] == 0
  {
    var chunk := if |bytes| <= BINARY_PROBE_SIZE then bytes else bytes[..BINARY_PROBE_SIZE];
    assert forall i :: 0 <= i < |chunk| ==> chunk[i] == bytes[i];
    if IsBinaryFile(Some(bytes)) {
      var i :| 0 <= i < |chunk| && chunk[i] == 0;
      assert bytes[i] == 0;
    }
  }

  /** Bytes after the first 1024 never change the verdict. */
  lemma OnlyTheProbeMatters(bytes: seq<bv8>, more: seq<bv8>)
    requires |bytes| >= BINARY_PROBE_SIZE
    ensures IsBinaryFile(Some(bytes + more)) == IsBinaryFile(Some(bytes))
  {
    var whole := bytes + more;
    BinaryIffZeroInProbe(whole);
    BinaryIffZeroInProbe(bytes);
    assert forall i :: 0 <= i < BINARY_PROBE_SIZE ==> whole[i] == bytes[i];
    if IsBinaryFile(Some(whole)) {
      var i :| 0 <= i < |whole| && i < BINARY_PROBE_SIZE && whole[i] == 0;
      assert bytes[i] == 0;
    }
  }

  datatype DiffError =
    | IdentifierRequired
    | FileNotFound
    | InsufficientRevisions(found: nat)
    | PathLookupFailed(message: string)
    | RevisionFileMissing(revision: int)

  /** What the command goes on to do once both files were found. */
  datatype DiffAction =
    | BinarySkipped(rev1: int, rev2: int)
    | CompareText(rev1: int, rev2: int, path1: string, path2: string)

  /**
   * The revisions to compare. When both were given they are used as they
   * are; when either is missing, both are replaced: `rev2` by the first
   * record of the lookup (the newest) and `rev1` by the second. An empty
   * lookup and a single record are errors.
   */
  function SelectRevisions(identifier: string, rev1: Option<int>, rev2: Option<int>, records: seq<CalRecord>)
    : (r: Result<(int, int), DiffError>)
    ensures r == Err(IdentifierRequired) <==> identifier == ""
    ensures identifier != "" && rev1.Some? && rev2.Some? ==> r == Ok((rev1.value, rev2.value))
    ensures identifier != "" && (rev1.None? || rev2.None?) ==>
      && (r == Err(FileNotFound) <==> |records| == 0)
      && (r == Err(InsufficientRevisions(1)) <==> |records| == 1)
      && (r.Ok? <==> |records| >= 2)
      && (r.Ok? ==> r.value == (records[1].revision, records[0].revision))
  {
    if identifier == "" then Err(IdentifierRequired)
    else if rev1.Some? && rev2.Some? then Ok((rev1.value, rev2.value))
    else if |records| == 0 then Err(FileNotFound)
    else if |records| < 2 then Err(InsufficientRevisions(|records|))
    else Ok((records[1].revision, records[0].revision))
  }

  /**
   * On a lookup sorted newest first, the defaults are the two highest
   * revisions found: `rev2` is at least every revision and `rev1` at least
   * every revision but the first record's.
   */
  lemma DefaultsAreTheTwoNewest(identifier: string, records: seq<CalRecord>)
    requires SortedByRevisionDesc(records)
    ensures var r := SelectRevisions(identifier, None, None, records);
      r.Ok? ==>
        r.value.0 <= r.value.1 &&
        (forall k :: 0 <= k < |records| ==> records[k].revision <= r.value.1) &&
        (forall k :: 1 <= k < |records| ==> records[k].revision <= r.value.0)
  {
    var r := SelectRevisions(identifier, None, None, records);
    if r.Ok? {
      forall k | 1 <= k < |records| ensures records[k].revision <= records[1].revision {
        if k > 1 {
          assert records[1].revision >= records[k].revision;
        }
      }
    }
  }

  /**
   * The default pair for an identity whose latest revision is n: revisions
   * n-1 and n, or "file not found" when it has none and "insufficient
   * revisions" when it has one.
   */
  function UuidDefaults(rows: seq<Row>, identifier: string): Result<(int, int), DiffError> {
    var n := LatestRevision(rows, Lower(identifier));
    if n == 0 then Err(FileNotFound)
    else if n == 1 then Err(InsufficientRevisions(1))
    else Ok((n - 1, n))
  }

  /**
   * Looked up by UUID in a well-formed store, the defaults are revisions
   * n-1 and n of the identity, n being its latest; a missing identity is
   * "file not found" and a single revision is "insufficient revisions".
   */
  lemma UuidDefaultsAreLastTwoRevisions(rows: seq<Row>, identifier: string, rev1: Option<int>, rev2: Option<int>,
                                        records: seq<CalRecord>)
    requires WellFormed(rows) && IsUuidText(identifier) && (rev1.None? || rev2.None?)
    requires multiset(records) == multiset(Matching(rows, identifier))
    requires SortedByRevisionDesc(records)
    ensures var n := LatestRevision(rows, Lower(identifier));
      var r := SelectRevisions(identifier, rev1, rev2, records);
      && (n == 0 ==> r == Err(FileNotFound))
      && (n == 1 ==> r == Err(InsufficientRevisions(1)))
      && (n >= 2 ==> r == Ok((n - 1, n)))
    ensures SelectRevisions(identifier, rev1, rev2, records) == UuidDefaults(rows, identifier)
  {
    assert identifier != "" by {
      assert |identifier| == 36;
    }
    UuidLookupNewestFirst(rows, identifier, records);
  }

  /**
   * After the revisions are chosen: a failed path lookup or no paths, then
   * a missing first or second file, are errors; if either file is binary
   * the comparison is skipped; otherwise the two texts are compared.
   */
  function ProbeRevisionFiles(rev1: int, rev2: int, fileInfo: Result<Option<(string, string)>, string>,
                              isPresent: string -> bool, contents: string -> Option<seq<bv8>>)
    : (r: Result<DiffAction, DiffError>)
    ensures fileInfo.Err? ==> r == Err(PathLookupFailed(fileInfo.error))
    ensures fileInfo == Ok(None) ==> r == Err(FileNotFound)
    ensures r.Ok? ==>
      fileInfo.Ok? && fileInfo.value.Some? &&
      isPresent(fileInfo.value.value.0) && isPresent(fileInfo.value.value.1) &&
      r.value.rev1 == rev1 && r.value.rev2 == rev2
    ensures r.Ok? ==>
      (r.value.BinarySkipped? <==>
        IsBinaryFile(contents(fileInfo.value.value.0)) || IsBinaryFile(contents(fileInfo.value.value.1)))
    ensures r == Err(RevisionFileMissing(rev1)) && rev1 != rev2 ==>
      fileInfo.Ok? && fileInfo.value.Some? && !isPresent(fileInfo.value.value.0)
    ensures fileInfo.Ok? && fileInfo.value.Some? ==>
      var (path1, path2) := fileInfo.value.value;
      && (!isPresent(path1) ==> r == Err(RevisionFileMissing(rev1)))
      && (isPresent(path1) && !isPresent(path2) ==> r == Err(RevisionFileMissing(rev2)))
      && (isPresent(path1) && isPresent(path2) ==> r.Ok?)
      && (r.Ok? && r.value.CompareText? ==> r.value.path1 == path1 && r.value.path2 == path2)
  {
    match fileInfo
    case Err(message) => Err(PathLookupFailed(message))
    case Ok(None) => Err(FileNotFound)
    case Ok(Some(paths)) =>
      var (path1, path2) := paths;
      if !isPresent(path1) then Err(RevisionFileMissing(rev1))
      else if !isPresent(path2) then Err(RevisionFileMissing(rev2))
      else if IsBinaryFile(contents(path1)) || IsBinaryFile(contents(path2)) then Ok(BinarySkipped(rev1, rev2))
      else Ok(CompareText(rev1, rev2, path1, path2))
  }

  /** The command once the revisions are chosen, or the error choosing them gave. */
  function ProbeSelected(selected: Result<(int, int), DiffError>,
                         fileInfo: (int, int) -> Result<Option<(string, string)>, string>,
                         isPresent: string -> bool, contents: string -> Option<seq<bv8>>)
    : Result<DiffAction, DiffError>
  {
    match selected
    case Err(e) => Err(e)
    case Ok(revisions) =>
      ProbeRevisionFiles(revisions.0, revisions.1, fileInfo(revisions.0, revisions.1), isPresent, contents)
  }

  /**
   * `diff_command` up to the comparison. The lookup runs only when a
   * revision is missing and leaves the store unchanged; `fileInfo` stands
   * for `get_file_paths_for_revisions` on the chosen pair.
   */
  method DiffCommand(store: LineageStore, identifier: string, rev1: Option<int>, rev2: Option<int>,
                     lookupFault: bool, fileInfo: (int, int) -> Result<Option<(string, string)>, string>,
                     isPresent: string -> bool, contents: string -> Option<seq<bv8>>)
    returns (r: Result<DiffAction, DiffError>)
    requires store.Valid()
    ensures identifier == "" ==> r == Err(IdentifierRequired)
    ensures identifier != "" && rev1.Some? && rev2.Some? ==>
      r == ProbeRevisionFiles(rev1.value, rev2.value, fileInfo(rev1.value, rev2.value), isPresent, contents)
    ensures identifier != "" && (rev1.None? || rev2.None?) && lookupFault ==> r == Err(FileNotFound)
    ensures IsUuidText(identifier) && (rev1.None? || rev2.None?) && !lookupFault ==>
      r == ProbeSelected(UuidDefaults(store.rows, identifier), fileInfo, isPresent, contents)
    ensures identifier != "" && (rev1.None? || rev2.None?) && !lookupFault ==>
      exists records :: multiset(records) == multiset(Matching(store.rows, identifier)) &&
        SortedByRevisionDesc(records) &&
        r == ProbeSelected(SelectRevisions(identifier, rev1, rev2, records), fileInfo, isPresent, contents)
    ensures identifier != "" && (rev1.None? || rev2.None?) && !lookupFault ==>
      && (|Matching(store.rows, identifier)| == 0 ==> r == Err(FileNotFound))
      && (|Matching(store.rows, identifier)| == 1 ==> r == Err(InsufficientRevisions(1)))
  {
    if identifier == "" {
      assert !IsUuidText(identifier);
      return Err(IdentifierRequired);
    }
    if rev1.Some? && rev2.Some? {
      return ProbeRevisionFiles(rev1.value, rev2.value, fileInfo(rev1.value, rev2.value), isPresent, contents);
    }
    var records := store.GetRecordsByIdentifier(identifier, lookupFault);
    var selected := SelectRevisions(identifier, rev1, rev2, records);
    if IsUuidText(identifier) && !lookupFault {
      UuidDefaultsAreLastTwoRevisions(store.rows, identifier, rev1, rev2, records);
    }
    r := ProbeSelected(selected, fileInfo, isPresent, contents);
  }
}
