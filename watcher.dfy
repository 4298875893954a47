/**
 * The watcher's event handler: it routes file-creation events under the
 * ingest and update folders to two pipelines that move the file into the
 * archive, record a lineage row and point the identity's symlink at the
 * archived file. Each step reports failure and stops the pipeline; what
 * earlier steps did stays done.
 */
module Watcher {
  import opened Wrappers
  import opened Text
  import opened Paths
  import opened Config
  import opened Categories
  import opened Naming
  import opened Schemas
  import opened Lineage
  import FS = FileSystem

  /** A watchdog creation event. */
  datatype FileEvent = FileEvent(srcPath: Path, isDirectory: bool)

  /** Where `on_created` sends an event. */
  datatype Route = IgnoreEvent | ToIngest | ToUpdate

  /** How far a pipeline got: the first step that failed, or all of them. */
  datatype Step =
    | MoveFailed
    | RecordFailed
    | LinkFailed(record: CalRecord)
    | Processed(record: CalRecord)

  datatype Outcome = Ignored | Ingested(step: Step) | Updated(step: Step)

  /**
   * `on_created`'s dispatch: directories and hidden files are ignored; a file
   * anywhere below the ingest folder is ingested; a file directly inside the
   * update folder is an update; everything else is ignored.
   */
  function RouteEvent(event: FileEvent, ingestPath: Path, updatePath: Path): (r: Route)
    ensures r == ToIngest <==>
      !event.isDirectory && !StartsWith(Name(event.srcPath), ".") && IsAncestor(ingestPath, event.srcPath)
    ensures r == ToUpdate <==>
      !event.isDirectory && !StartsWith(Name(event.srcPath), ".") &&
      !IsAncestor(ingestPath, event.srcPath) && Parent(event.srcPath) == updatePath
  {
    if event.isDirectory then IgnoreEvent
    else if StartsWith(Name(event.srcPath), ".") then IgnoreEvent
    else if IsAncestor(ingestPath, event.srcPath) then ToIngest
    else if Parent(event.srcPath) == updatePath then ToUpdate
    else IgnoreEvent
  }

  /**
   * In the standard layout, a visible file directly in `_UPDATE` is an
   * update, one at any depth below `_INGEST` is an ingest, and one in a
   * sub-folder of `_UPDATE` is ignored.
   */
  lemma StandardLayoutRouting(base: Path, sub: seq<string>, name: string)
    requires name != "" && name[0] != '.'
    ensures RouteEvent(FileEvent(UpdateDir(base) + [name], false), IngestDir(base), UpdateDir(base)) == ToUpdate
    ensures RouteEvent(FileEvent(IngestDir(base) + sub + [name], false), IngestDir(base), UpdateDir(base)) == ToIngest
    ensures |sub| > 0 ==>
      RouteEvent(FileEvent(UpdateDir(base) + sub + [name], false), IngestDir(base), UpdateDir(base)) == IgnoreEvent
  {
    var upd := UpdateDir(base) + [name];
    assert upd[|base|] == "_UPDATE";
    assert Parent(upd) == UpdateDir(base);
    assert !IsAncestor(IngestDir(base), upd);
    var ing := IngestDir(base) + sub + [name];
    assert ing[..|IngestDir(base)|] == IngestDir(base);
    if |sub| > 0 {
      var deep := UpdateDir(base) + sub + [name];
      assert deep[|base|] == "_UPDATE";
      assert !IsAncestor(IngestDir(base), deep);
      assert |Parent(deep)| == |UpdateDir(base)| + |sub|;
    }
  }

  /** The per-category folders `_ensure_directories` adds, three per category in order. */
  function CategoryDirs(ingestPath: Path, archivePath: Path, symlinkPath: Path, categories: seq<string>): seq<Path>
  {
    if |categories| == 0 then []
    else
      var c := categories[|categories| - 1];
      CategoryDirs(ingestPath, archivePath, symlinkPath, categories[..|categories| - 1]) +
        [ingestPath + [c], archivePath + [c], symlinkPath + [c]]
  }

  /** The folders `_ensure_directories` creates: the four roots, then three per category. */
  function RequiredDirectories(ingestPath: Path, updatePath: Path, archivePath: Path, symlinkPath: Path): seq<Path>
  {
    [ingestPath, updatePath, archivePath, symlinkPath] +
      CategoryDirs(ingestPath, archivePath, symlinkPath, CATEGORIES)
  }

  lemma {:induction false} CategoryDirsMembers(ingestPath: Path, archivePath: Path, symlinkPath: Path,
                                               categories: seq<string>, d: Path)
    ensures |CategoryDirs(ingestPath, archivePath, symlinkPath, categories)| == 3 * |categories|
    ensures d in CategoryDirs(ingestPath, archivePath, symlinkPath, categories) <==>
      exists c :: c in categories && (d == ingestPath + [c] || d == archivePath + [c] || d == symlinkPath + [c])
  {
    if |categories| > 0 {
      var front := categories[..|categories| - 1];
      var c := categories[|categories| - 1];
      CategoryDirsMembers(ingestPath, archivePath, symlinkPath, front, d);
      assert categories == front + [c];
    }
  }

  /** `mkdir(parents=True, exist_ok=True)` of each folder in turn can succeed: no file or link is on any of their paths. */
  predicate CanMakeAll(entries: map<Path, FS.Entry>, directories: seq<Path>) {
    forall d, q :: d in directories && q in FS.Prefixes(d) && q in entries ==> entries[q].Dir?
  }

  /**
   * The handler makes sixteen folders: the ingest, update, archive and
   * symlink roots and, for every category, its folder under the ingest,
   * archive and symlink roots -- and no other.
   */
  lemma RequiredDirectoriesContents(ingestPath: Path, updatePath: Path, archivePath: Path, symlinkPath: Path, d: Path)
    ensures |RequiredDirectories(ingestPath, updatePath, archivePath, symlinkPath)| == 16
    ensures d in RequiredDirectories(ingestPath, updatePath, archivePath, symlinkPath) <==>
      d in {ingestPath, updatePath, archivePath, symlinkPath} ||
      exists c :: c in CATEGORIES && (d == ingestPath + [c] || d == archivePath + [c] || d == symlinkPath + [c])
  {
    CategoryDirsMembers(ingestPath, archivePath, symlinkPath, CATEGORIES, d);
  }

  /** `SFTFileHandler`: the four folders it works with, all under one base. */
  class FileHandler {
    const basePath: Path
    const ingestPath: Path
    const updatePath: Path
    const archivePath: Path
    const symlinkPath: Path

    constructor (base: Path)
      ensures basePath == base
      ensures ingestPath == IngestDir(base) && updatePath == UpdateDir(base)
      ensures archivePath == ArchiveDir(base) && symlinkPath == SymlinkDir(base)
    {
      basePath := base;
      ingestPath := IngestDir(base);
      updatePath := UpdateDir(base);
      archivePath := ArchiveDir(base);
      symlinkPath := SymlinkDir(base);
    }

    /**
     * The list `_ensure_directories` builds: the four roots, then the
     * category folders under the ingest, archive and symlink roots, appended
     * category by category.
     */
    method DirectoryList() returns (directories: seq<Path>)
      ensures directories == RequiredDirectories(ingestPath, updatePath, archivePath, symlinkPath)
    {
      directories := [ingestPath, updatePath, archivePath, symlinkPath];
      for n := 0 to |CATEGORIES|
        invariant directories ==
          [ingestPath, updatePath, archivePath, symlinkPath] + CategoryDirs(ingestPath, archivePath, symlinkPath, CATEGORIES[..n])
      {
        var subdir := CATEGORIES[n];
        assert CATEGORIES[..n + 1][..n] == CATEGORIES[..n];
        directories := directories + [ingestPath + [subdir]];
        directories := directories + [archivePath + [subdir]];
        directories := directories + [symlinkPath + [subdir]];
      }
      assert CATEGORIES[..|CATEGORIES|] == CATEGORIES;
    }

    /**
     * `_ensure_directories`: creates each listed folder with
     * `mkdir(parents=True, exist_ok=True)`, stopping at the first that
     * fails. Only directories are added; nothing that existed changes.
     */
    method EnsureDirectories(fs: FS.FileSystem) returns (ok: bool)
      requires fs.Valid()
      modifies fs
      ensures fs.Valid()
      ensures ok <==> CanMakeAll(old(fs.entries), RequiredDirectories(ingestPath, updatePath, archivePath, symlinkPath))
      ensures ok ==> forall d :: d in RequiredDirectories(ingestPath, updatePath, archivePath, symlinkPath) ==>
        FS.IsDirAt(fs.entries, d)
      ensures forall p :: p in old(fs.entries) ==> p in fs.entries && fs.entries[p] == old(fs.entries)[p]
      ensures forall p :: p in fs.entries && p !in old(fs.entries) ==> fs.entries[p].Dir?
      ensures forall p :: p in fs.entries && p !in old(fs.entries) ==>
        exists d :: d in RequiredDirectories(ingestPath, updatePath, archivePath, symlinkPath) && p in FS.Prefixes(d)
    {
      var directories := DirectoryList();
      for m := 0 to |directories|
        invariant fs.Valid()
        invariant forall d :: d in directories[..m] ==> FS.IsDirAt(fs.entries, d)
        invariant CanMakeAll(old(fs.entries), directories[..m])
        invariant forall p :: p in old(fs.entries) ==> p in fs.entries && fs.entries[p] == old(fs.entries)[p]
        invariant forall p :: p in fs.entries && p !in old(fs.entries) ==> fs.entries[p].Dir?
        invariant forall p :: p in fs.entries && p !in old(fs.entries) ==>
          exists d :: d in directories && p in FS.Prefixes(d)
      {
        ghost var before := fs.entries;
        var made := fs.MakeDirs(directories[m]);
        if !made {
          ghost var q :| q in FS.Prefixes(directories[m]) && q in before && !before[q].Dir?;
          assert q in old(fs.entries) && !old(fs.entries)[q].Dir?;
          assert directories[m] in directories;
          return false;
        }
        forall p | p in fs.entries && p !in old(fs.entries)
          ensures exists d :: d in directories && p in FS.Prefixes(d)
        {
          if p !in before {
            assert directories[m] in directories && p in FS.Prefixes(directories[m]);
          }
        }
        assert directories[..m + 1] == directories[..m] + [directories[m]];
      }
      assert directories[..|directories|] == directories;
      ok := true;
    }

    /**
     * `_move_to_archive`: moves the file to
     * `<archive>/<category>/<timestamp>_<name>` and returns that path, or
     * nothing when the move fails (the file then stays where it was).
     */
    method MoveToArchive(fs: FS.FileSystem, sourcePath: Path, category: string, now: nat)
      returns (r: Option<Path>)
      requires fs.Valid()
      modifies fs
      ensures fs.Valid()
      ensures r.Some? <==> FS.CanMove(old(fs.entries), sourcePath, ArchiveTarget(archivePath, category, now, sourcePath))
      ensures r.Some? ==> r.value == ArchiveTarget(archivePath, category, now, sourcePath)
      ensures r.Some? ==> fs.entries == FS.Moved(old(fs.entries), sourcePath, r.value)
      ensures r.None? ==> fs.entries == old(fs.entries)
    {
      var filename := ArchiveName(now, Name(sourcePath));
      var archiveFilePath := archivePath + [category] + [filename];
      assert archiveFilePath == ArchiveTarget(archivePath, category, now, sourcePath);
      var moved := fs.Move(sourcePath, archiveFilePath);
      if moved {
        r := Some(archiveFilePath);
      } else {
        r := None;
      }
    }

    /** The link the handler keeps for an identity: `<symlinks>/<category>/<uuid><suffix>`. */
    function LinkPath(archive: Path, fileUuid: string, category: string): (link: Path)
      ensures link != [] && Parent(link) == symlinkPath + [category]
    {
      SymlinkPath(symlinkPath, category, fileUuid, archive)
    }

    /**
     * The body of `_create_symlink` once the link path is known: whatever
     * file or link is there (`exists()` or `is_symlink()`) is unlinked, then
     * the link to the archived file is made. It fails, changing nothing, when
     * a directory is in the way or the link's folder is missing.
     */
    method ReplaceLink(fs: FS.FileSystem, link: Path, archive: Path) returns (ok: bool)
      requires fs.Valid() && link != []
      modifies fs
      ensures fs.Valid()
      ensures ok <==> FS.CanReplaceLink(old(fs.entries), link)
      ensures ok ==> fs.entries == old(fs.entries)[link := FS.Symlink(archive)]
      ensures !ok ==> fs.entries == old(fs.entries)
    {
      ghost var before := fs.entries;
      fs.ExistsOrSymlinkIffPresent(link);
      if fs.Exists(link) || fs.IsSymlink(link) {
        var removed := fs.Unlink(link);
        if !removed {
          return false;
        }
        assert Parent(link) != link;
        assert fs.entries[link := FS.Symlink(archive)] == before[link := FS.Symlink(archive)];
      }
      ok := fs.SymlinkTo(link, archive);
    }

    /**
     * `_create_symlink`: replaces whatever is at
     * `<symlinks>/<category>/<uuid><suffix>` with a link to the archived file.
     */
    method CreateSymlink(fs: FS.FileSystem, archive: Path, fileUuid: string, category: string)
      returns (ok: bool)
      requires fs.Valid()
      modifies fs
      ensures fs.Valid()
      ensures ok <==> FS.CanReplaceLink(old(fs.entries), LinkPath(archive, fileUuid, category))
      ensures ok ==> fs.entries == old(fs.entries)[LinkPath(archive, fileUuid, category) := FS.Symlink(archive)]
      ensures !ok ==> fs.entries == old(fs.entries)
    {
      var link := LinkPath(archive, fileUuid, category);
      ok := ReplaceLink(fs, link, archive);
    }

    /**
     * What `_process_ingest_file` does to the tree (`entries0` to `entries`)
     * and the table (`rows0` to `rows`), and the step it stops at: the move
     * fails exactly when `shutil.move` cannot make it; the record fails
     * exactly on a store fault, a name too long for the column or a taken
     * key, and then the file stays moved; otherwise revision 1 of the new
     * identity is appended and its link is made exactly when nothing blocks it.
     */
    ghost predicate IngestEffect(entries0: map<Path, FS.Entry>, rows0: seq<Row>, entries: map<Path, FS.Entry>, rows: seq<Row>,
                                 filePath: Path, env: Ambient, step: Step)
    {
      var category := FileCategory(filePath);
      var target := ArchiveTarget(archivePath, category, env.clockSeconds, filePath);
      && (step.MoveFailed? <==> !FS.CanMove(entries0, filePath, target))
      && (step.MoveFailed? ==> entries == entries0 && rows == rows0)
      && (step.RecordFailed? <==>
            FS.CanMove(entries0, filePath, target) &&
            (env.storeFault || |Name(filePath)| > MAX_FILENAME_LENGTH || HasKey(rows0, env.freshUuid, 1)))
      && (step.RecordFailed? ==> entries == FS.Moved(entries0, filePath, target) && rows == rows0)
      && (step.LinkFailed? || step.Processed? ==>
            && step.record == NewCalRecord(Name(filePath), Render(target), NO_OVERRIDES, env)
            && rows == rows0 + [ToRow(step.record)]
            && (step.Processed? <==>
                  FS.CanReplaceLink(FS.Moved(entries0, filePath, target), LinkPath(target, step.record.id, category)))
            && (step.LinkFailed? ==> entries == FS.Moved(entries0, filePath, target))
            && (step.Processed? ==>
                  entries == FS.Moved(entries0, filePath, target)[LinkPath(target, step.record.id, category) := FS.Symlink(target)]))
    }

    /**
     * What `_process_update_file` does: as ingest, except that the record
     * fails exactly on a store fault or when no row carries the file's name,
     * and the record appended is the next revision of the identity whose
     * latest row has that name, with its tags and notes.
     */
    ghost predicate UpdateEffect(entries0: map<Path, FS.Entry>, rows0: seq<Row>, entries: map<Path, FS.Entry>, rows: seq<Row>,
                                 filePath: Path, env: Ambient, step: Step)
    {
      var category := FileCategory(filePath);
      var target := ArchiveTarget(archivePath, category, env.clockSeconds, filePath);
      && (step.MoveFailed? <==> !FS.CanMove(entries0, filePath, target))
      && (step.MoveFailed? ==> entries == entries0 && rows == rows0)
      && (step.RecordFailed? <==>
            FS.CanMove(entries0, filePath, target) &&
            (env.storeFault || forall i :: 0 <= i < |rows0| ==> rows0[i].originalFilename != Name(filePath)))
      && (step.RecordFailed? ==> entries == FS.Moved(entries0, filePath, target) && rows == rows0)
      && (step.LinkFailed? || step.Processed? ==>
            && IsUpdatedRecord(rows0, Name(filePath), Render(target), env, step.record)
            && rows == rows0 + [ToRow(step.record)]
            && (step.Processed? <==>
                  FS.CanReplaceLink(FS.Moved(entries0, filePath, target), LinkPath(target, step.record.id, category)))
            && (step.LinkFailed? ==> entries == FS.Moved(entries0, filePath, target))
            && (step.Processed? ==>
                  entries == FS.Moved(entries0, filePath, target)[LinkPath(target, step.record.id, category) := FS.Symlink(target)]))
    }

    /**
     * `_process_ingest_file`: archive the file under its category, record
     * revision 1 of a new identity, and link that identity to the archived file.
     */
    method ProcessIngestFile(fs: FS.FileSystem, store: LineageStore, filePath: Path, env: Ambient)
      returns (step: Step)
      requires fs.Valid() && store.Valid()
      modifies fs, store
      ensures fs.Valid() && store.Valid()
      ensures IngestEffect(old(fs.entries), old(store.rows), fs.entries, store.rows, filePath, env, step)
    {
      var category := FileCategory(filePath);
      var archive := MoveToArchive(fs, filePath, category, env.clockSeconds);
      if archive.None? {
        return MoveFailed;
      }
      var calRecord := store.CreateNewCalRecord(Name(filePath), Render(archive.value), env);
      if calRecord.None? {
        return RecordFailed;
      }
      var linked := CreateSymlink(fs, archive.value, calRecord.value.id, category);
      if !linked {
        return LinkFailed(calRecord.value);
      }
      step := Processed(calRecord.value);
    }

    /**
     * `_process_update_file`: archive the file under its category, record the
     * next revision of the identity whose latest row carries the same
     * original filename, and point that identity's link at the new file.
     */
    method ProcessUpdateFile(fs: FS.FileSystem, store: LineageStore, filePath: Path, env: Ambient)
      returns (step: Step)
      requires fs.Valid() && store.Valid()
      modifies fs, store
      ensures fs.Valid() && store.Valid()
      ensures UpdateEffect(old(fs.entries), old(store.rows), fs.entries, store.rows, filePath, env, step)
    {
      var category := FileCategory(filePath);
      var archive := MoveToArchive(fs, filePath, category, env.clockSeconds);
      if archive.None? {
        return MoveFailed;
      }
      var calRecord := store.FindAndCreateUpdatedRecord(Name(filePath), Render(archive.value), env);
      if calRecord.None? {
        return RecordFailed;
      }
      var linked := CreateSymlink(fs, archive.value, calRecord.value.id, category);
      if !linked {
        return LinkFailed(calRecord.value);
      }
      step := Processed(calRecord.value);
    }

    /** `on_created`: route the event and run the matching pipeline. */
    method OnCreated(fs: FS.FileSystem, store: LineageStore, event: FileEvent, env: Ambient)
      returns (outcome: Outcome)
      requires fs.Valid() && store.Valid()
      modifies fs, store
      ensures fs.Valid() && store.Valid()
      ensures outcome.Ignored? <==> RouteEvent(event, ingestPath, updatePath) == IgnoreEvent
      ensures outcome.Ingested? <==> RouteEvent(event, ingestPath, updatePath) == ToIngest
      ensures outcome.Updated? <==> RouteEvent(event, ingestPath, updatePath) == ToUpdate
      ensures outcome.Ignored? ==> fs.entries == old(fs.entries) && store.rows == old(store.rows)
      ensures outcome.Ingested? ==>
        IngestEffect(old(fs.entries), old(store.rows), fs.entries, store.rows, event.srcPath, env, outcome.step)
      ensures outcome.Updated? ==>
        UpdateEffect(old(fs.entries), old(store.rows), fs.entries, store.rows, event.srcPath, env, outcome.step)
      ensures outcome.Ingested? && outcome.step.Processed? ==>
        outcome.step.record.revision == 1 &&
        store.rows == old(store.rows) + [ToRow(outcome.step.record)]
      ensures outcome.Updated? && outcome.step.Processed? ==>
        outcome.step.record.revision == LatestRevision(old(store.rows), outcome.step.record.id) + 1 &&
        store.rows == old(store.rows) + [ToRow(outcome.step.record)]
    {
      match RouteEvent(event, ingestPath, updatePath)
      case IgnoreEvent =>
        outcome := Ignored;
      case ToIngest =>
        var step := ProcessIngestFile(fs, store, event.srcPath, env);
        outcome := Ingested(step);
      case ToUpdate =>
        var step := ProcessUpdateFile(fs, store, event.srcPath, env);
        outcome := Updated(step);
    }
  }

  /**
   * `SFTFileHandler.__init__` with a base path: the handler exists only if
   * every folder it needs could be made.
   */
  method NewFileHandler(fs: FS.FileSystem, base: Path) returns (h: Option<FileHandler>)
    requires fs.Valid()
    modifies fs
    ensures fs.Valid()
    ensures h.Some? ==>
      h.value.ingestPath == IngestDir(base) && h.value.updatePath == UpdateDir(base) &&
      h.value.archivePath == ArchiveDir(base) && h.value.symlinkPath == SymlinkDir(base)
    ensures h.Some? <==> CanMakeAll(old(fs.entries), RequiredDirectories(IngestDir(base), UpdateDir(base), ArchiveDir(base), SymlinkDir(base)))
    ensures h.Some? ==> forall d :: d in RequiredDirectories(IngestDir(base), UpdateDir(base), ArchiveDir(base), SymlinkDir(base)) ==>
      FS.IsDirAt(fs.entries, d)
    ensures forall p :: p in old(fs.entries) ==> p in fs.entries && fs.entries[p] == old(fs.entries)[p]
    ensures forall p :: p in fs.entries && p !in old(fs.entries) ==> fs.entries[p].Dir?
    ensures forall p :: p in fs.entries && p !in old(fs.entries) ==>
      exists d :: d in RequiredDirectories(IngestDir(base), UpdateDir(base), ArchiveDir(base), SymlinkDir(base)) &&
        p in FS.Prefixes(d)
  {
    var handler := new FileHandler(base);
    var ok := handler.EnsureDirectories(fs);
    if ok {
      h := Some(handler);
    } else {
      h := None;
    }
  }
}
