/**
 * The remaining operations of logic.py: ingesting one file by hand and the
 * selection step of interactive note editing. The store operations
 * themselves are the methods of `Lineage.LineageStore`.
 */
module Logic {
  import opened Wrappers
  import opened Paths
  import opened Config
  import opened Categories
  import opened Naming
  import opened Schemas
  import opened Lineage
  import FS = FileSystem

  /**
   * Whether `mkdir(parents=True, exist_ok=True)` of the archive's category
   * folder for `filePath` succeeds: no prefix of it is a file or a link.
   */
  predicate CanMakeCategoryDir(entries: map<Path, FS.Entry>, base: Path, filePath: Path) {
    forall q :: q in FS.Prefixes(ArchiveDir(base) + [FileCategory(filePath)]) && q in entries ==> entries[q].Dir?
  }

  /** The tree once the archive's category folder for `filePath` exists. */
  function WithCategoryDir(entries: map<Path, FS.Entry>, base: Path, filePath: Path): map<Path, FS.Entry> {
    FS.WithDirs(entries, ArchiveDir(base) + [FileCategory(filePath)])
  }

  /**
   * `ingest_new_file`: a path that does not exist or is not a file is refused
   * before anything happens; otherwise the category folder is made, the file
   * is moved to `<archive>/<category>/<timestamp>_<name>` and revision 1 is
   * recorded under its original name. A failed folder or move records
   * nothing; a failed insert leaves the moved file in the archive.
   */
  method IngestNewFile(fs: FS.FileSystem, store: LineageStore, base: Path, filePath: Path, env: Ambient)
    returns (r: Option<CalRecord>)
    requires fs.Valid() && store.Valid()
    modifies fs, store
    ensures fs.Valid() && store.Valid()
    ensures !old(fs.IsFile(filePath)) ==>
      r.None? && fs.entries == old(fs.entries) && store.rows == old(store.rows)
    ensures r.None? ==> store.rows == old(store.rows)
    ensures var target := ArchiveTarget(ArchiveDir(base), FileCategory(filePath), env.clockSeconds, filePath);
      var made := WithCategoryDir(old(fs.entries), base, filePath);
      && (r.Some? <==>
            && old(fs.IsFile(filePath)) && CanMakeCategoryDir(old(fs.entries), base, filePath)
            && FS.CanMove(made, filePath, target)
            && !env.storeFault && |Name(filePath)| <= MAX_FILENAME_LENGTH && !HasKey(old(store.rows), env.freshUuid, 1))
      && (old(fs.IsFile(filePath)) && !CanMakeCategoryDir(old(fs.entries), base, filePath) ==>
            fs.entries == old(fs.entries))
      && (old(fs.IsFile(filePath)) && CanMakeCategoryDir(old(fs.entries), base, filePath) ==>
            if FS.CanMove(made, filePath, target) then fs.entries == FS.Moved(made, filePath, target)
            else fs.entries == made)
    ensures r.Some? ==> filePath !in fs.entries
    ensures r.Some? ==>
      var target := ArchiveTarget(ArchiveDir(base), FileCategory(filePath), env.clockSeconds, filePath);
      r.value == NewCalRecord(Name(filePath), Render(target), NO_OVERRIDES, env) &&
      r.value.revision == 1 &&
      store.rows == old(store.rows) + [ToRow(r.value)] &&
      filePath in old(fs.entries) && target in fs.entries &&
      fs.entries[target] == old(fs.entries)[filePath]
  {
    if !fs.Exists(filePath) {
      return None;
    }
    if !fs.IsFile(filePath) {
      return None;
    }
    assert filePath in fs.entries && !fs.entries[filePath].Dir?;
    ghost var entry := fs.entries[filePath];
    var category := FileCategory(filePath);
    var archiveCategoryDir := ArchiveDir(base) + [category];
    var made := fs.MakeDirs(archiveCategoryDir);
    if !made {
      return None;
    }
    var target := archiveCategoryDir + [ArchiveName(env.clockSeconds, Name(filePath))];
    assert target == ArchiveTarget(ArchiveDir(base), category, env.clockSeconds, filePath);
    assert filePath in fs.entries && fs.entries[filePath] == entry;
    var moved := fs.Move(filePath, target);
    if !moved {
      return None;
    }
    r := store.CreateNewCalRecord(Name(filePath), Render(target), env);
  }

  /** The gate of `edit_notes_interactive`: edit only when the lookup found exactly one record. */
  function NotesTarget(records: seq<CalRecord>): (r: Option<CalRecord>)
    ensures r.Some? <==> |records| == 1
    ensures r.Some? ==> r.value == records[0]
  {
    if |records| == 0 then None
    else if |records| > 1 then None
    else Some(records[0])
  }

  /** With no matching row the lookup is empty. */
  lemma {:induction false} MatchingEmpty(rows: seq<Row>, identifier: string)
    requires forall j :: 0 <= j < |rows| ==> !Matches(rows[j], identifier)
    ensures Matching(rows, identifier) == []
  {
    if |rows| > 0 {
      var front := rows[..|rows| - 1];
      assert forall j :: 0 <= j < |front| ==> front[j] == rows[j];
      MatchingEmpty(front, identifier);
    }
  }

  /** With exactly one matching row the lookup is that row alone. */
  lemma {:induction false} MatchingSingle(rows: seq<Row>, identifier: string, i: int)
    requires 0 <= i < |rows| && Matches(rows[i], identifier)
    requires forall j :: 0 <= j < |rows| && j != i ==> !Matches(rows[j], identifier)
    ensures Matching(rows, identifier) == [ToRecord(rows[i])]
  {
    var front := rows[..|rows| - 1];
    assert forall j :: 0 <= j < |front| ==> front[j] == rows[j];
    if i == |rows| - 1 {
      MatchingEmpty(front, identifier);
    } else {
      MatchingSingle(front, identifier, i);
    }
  }

  /**
   * The gate lets an edit through exactly when one row matches the
   * identifier -- so several revisions of one identity, or several files
   * whose names contain it, are refused -- and the record it edits is that row.
   */
  lemma NotesTargetIsTheOnlyMatch(rows: seq<Row>, identifier: string, records: seq<CalRecord>)
    requires multiset(records) == multiset(Matching(rows, identifier))
    ensures NotesTarget(records).Some? <==>
      exists i :: 0 <= i < |rows| && Matches(rows[i], identifier) &&
        forall j :: 0 <= j < |rows| && j != i ==> !Matches(rows[j], identifier)
    ensures NotesTarget(records).Some? ==>
      exists i :: 0 <= i < |rows| && Matches(rows[i], identifier) && NotesTarget(records).value == ToRecord(rows[i])
  {
    assert |records| == |Matching(rows, identifier)| by {
      assert |multiset(records)| == |multiset(Matching(rows, identifier))|;
    }
    if |records| == 1 {
      var x := records[0];
      assert x in multiset(Matching(rows, identifier));
      MatchingMembers(rows, identifier, x);
      var i :| 0 <= i < |rows| && Matches(rows[i], identifier) && x == ToRecord(rows[i]);
      forall j | 0 <= j < |rows| && j != i ensures !Matches(rows[j], identifier) {
        if Matches(rows[j], identifier) {
          if i < j { MatchingAtLeastTwo(rows, identifier, i, j); }
          else { MatchingAtLeastTwo(rows, identifier, j, i); }
        }
      }
    } else {
      if exists i :: 0 <= i < |rows| && Matches(rows[i], identifier) &&
           forall j :: 0 <= j < |rows| && j != i ==> !Matches(rows[j], identifier)
      {
        var i :| 0 <= i < |rows| && Matches(rows[i], identifier) &&
           forall j :: 0 <= j < |rows| && j != i ==> !Matches(rows[j], identifier);
        MatchingSingle(rows, identifier, i);
      }
    }
  }

  /**
   * `edit_notes_interactive` once the editor has produced `edited` (None when
   * the temporary file or the editor failed): look the identifier up, refuse
   * unless exactly one record matched, then replace that record's notes.
   */
  method EditNotesInteractive(store: LineageStore, identifier: string, edited: Option<string>,
                              lookupFault: bool, updateFault: bool)
    returns (ok: bool)
    requires store.Valid()
    modifies store
    ensures store.Valid()
    ensures (lookupFault || |Matching(old(store.rows), identifier)| != 1 || edited.None?) ==>
      !ok && store.rows == old(store.rows)
    ensures ok <==> !lookupFault && |Matching(old(store.rows), identifier)| == 1 && edited.Some? && !updateFault
    ensures ok ==>
      exists i :: 0 <= i < |old(store.rows)| &&
        Matches(old(store.rows)[i], identifier) &&
        store.rows == old(store.rows)[i := old(store.rows)[i].(notes := Some(edited.value))]
    ensures !ok ==> store.rows == old(store.rows)
  {
    var records := store.GetRecordsByIdentifier(identifier, lookupFault);
    assert |records| == |multiset(records)|;
    assert !lookupFault ==> |records| == |Matching(store.rows, identifier)| by {
      if !lookupFault { assert |multiset(Matching(store.rows, identifier))| == |Matching(store.rows, identifier)|; }
    }
    var target := NotesTarget(records);
    if target.None? || edited.None? {
      return false;
    }
    NotesTargetIsTheOnlyMatch(store.rows, identifier, records);
    ghost var before := store.rows;
    ghost var i :| 0 <= i < |before| && Matches(before[i], identifier) && target.value == ToRecord(before[i]);
    ok := store.UpdateRecordNotes(target.value.id, target.value.revision, edited.value, updateFault);
    if ok {
      NotesOfOneKey(before, store.rows, i, target.value, edited.value, updateFault);
    }
  }

  /**
   * Rewriting the notes of every row with row `i`'s key touches row `i`
   * alone, because keys are unique.
   */
  lemma NotesOfOneKey(before: seq<Row>, after: seq<Row>, i: int, target: CalRecord, notes: string,
                      fault: bool)
    requires KeysUnique(before) && 0 <= i < |before| && |after| == |before|
    requires target == ToRecord(before[i]) && IsCanonicalUuid(target.id) && !fault
    requires forall k :: 0 <= k < |after| ==>
      after[k] == if !fault && IdIs(before[k], target.id) && before[k].revision == target.revision
                  then before[k].(notes := Some(notes))
                  else before[k]
    ensures after == before[i := before[i].(notes := Some(notes))]
  {
    CanonicalUuidIsLower(target.id);
    forall k | 0 <= k < |after|
      ensures after[k] == before[i := before[i].(notes := Some(notes))][k]
    {
      if k != i {
        assert before[k].id != before[i].id || before[k].revision != before[i].revision by {
          if k < i { assert before[k].id != before[i].id || before[k].revision != before[i].revision; }
        }
      }
    }
  }
}
