# Sovereign File Tracker — a verified model of the lineage core

The Sovereign File Tracker gives every tracked file a stable identity (a
uuid7) and records each version as a numbered revision in the
`file_lineage` table. The physical copies of those versions live in an
archive tree, and a per-category symlink tree points at them. Files enter
through two watched folders. A file dropped anywhere under `_INGEST`
becomes revision 1 of a new identity. A file dropped directly into
`_UPDATE` becomes the next revision of the identity whose latest revision
has the same file name.

This project models that core in Dafny:

- **`Lineage`**: the `file_lineage` table as a class holding a sequence of
  rows, with the four store operations of `logic.py` as methods.
  - The table invariant (`WellFormed`) has five parts:
    - (id, revision) is unique;
    - all revisions of an identity carry one file name;
    - revisions count up from 1 with no gaps;
    - names fit the VARCHAR(255) column;
    - every id is a canonical, lower-case UUID text, as the `UUID` column
      holds it.
  - Every method keeps the invariant. The update's insert never collides
    with an existing key (`UpdateKeyIsFresh`).
  - The lookup by UUID returns the identity's revisions newest first.
- **`FileSystem`**: the directory tree as a map from absolute paths to
  entries (file, symlink, directory). It supports the library calls the
  tracker makes: `shutil.move`, `unlink`, `symlink_to`,
  `mkdir(parents=True, exist_ok=True)`, `exists`, `is_file` and
  `is_symlink`.
- **`Categories`, `Naming`, `Paths`, `Config`**: the category rule, the
  `<timestamp>_<name>` archive name, the `<uuid><suffix>` link name, and
  the directory layout.
  - `_get_file_category` appears twice in the source with the same body,
    once in `logic.py` and once in `watcher.py`. It is modelled once.
- **`Logic`**: `ingest_new_file`, and the "exactly one record" gate of
  `edit_notes_interactive`.
- **`Watcher`**: the `SFTFileHandler` class, modelled as follows.
  - Directory setup.
  - Event routing.
  - The two pipelines. Each runs move → record → symlink and stops at the
    first failure.
  - Link replacement.
- **`Checkout`**: the barcode file name and the choice of the newest
  record.
- **`Diff`**: the binary-file test, default revision selection with its
  guards, and the file probes that come before the line diff.
- **`Schemas`**: `CalRecord` and its field defaults.

Inputs from outside the program are parameters of the model. Those the
store and the watcher pipelines share are gathered in `Schemas.Ambient`:

- the clock, in whole seconds and in microseconds;
- the uuid7 the id factory would produce, as its canonical lower-case
  text (its time-ordered bits are not modelled);
- whether the database fails.

The others are plain parameters of the methods that need them:

- `lookupFault`: whether the lookup fails, in
  `Logic.EditNotesInteractive`, `Checkout.CheckoutCommand` and
  `Diff.DiffCommand`; `updateFault`: whether the notes update fails;
- `edited`: what the editor session produced;
- `archiveExists` and `desktopExists`: what checkout finds on disk;
- `fileInfo`, `isPresent` and `contents`: the diff's path lookup, which
  revision files exist, and what reading them yields.

The two queries that leave the database some freedom are modelled as
follows:

- **`ORDER BY revision DESC` without a tie-breaker.** Contracts promise a
  result sorted by revision that is a permutation of the matching rows.
- **`LIMIT 1`.** Contracts promise "some row of maximal revision".

## Model

| member | source | states |
|---|---|---|
| Text.Lower | logic.py:95 | `str.lower()` on ASCII: the same length, each character folded on its own |
| Text.LastIndexOf | commands/core/checkout.py:58-59 | the index of the last occurrence of a character, -1 exactly when it is absent, with none after it |
| Text.LastIndexOfBeforeSuffix | commands/core/checkout.py:59 | `rsplit('.', 1)` splits at the dot that is followed by no other dot |
| Paths.SuffixShape | watcher.py:157 | `Path.suffix` is empty exactly when the name has no dot, or its last dot is first or last; otherwise it is a tail of the name: a dot followed by no other dot |
| Categories.ExtensionCategory | watcher.py:102-115 | the result is a category; AUDIO, IMAGES or TEXT exactly when the extension is in that set; BLOBS exactly when it is in none |
| Categories.FileCategory | logic.py:91-108 | the result is always one of the four categories; a category-named parent folder wins; otherwise the lower-cased suffix decides |
| Categories.SuffixOfDottedName | watcher.py:102 | the suffix of `stem.ext`, with no dot in either part, is `.ext` |
| Categories.CategoryOfDottedName | watcher.py:98-102 | outside a category folder, `stem.ext` is classified by `.ext` lower-cased, so `A.JPG` and `a.jpg` agree |
| Naming.ArchiveNameRoundTrip | watcher.py:130-132 | the original name can be read back from `<timestamp>_<name>` whatever `name` contains |
| Naming.ArchivePrefixHasNoDot | watcher.py:131 | the `<timestamp>_` prefix of an archive name contains no dot |
| Naming.ArchiveNameKeepsSuffix | watcher.py:131 | prefixing the timestamp keeps the suffix of every name not starting with a dot |
| Naming.SymlinkNameKeepsSuffix | watcher.py:157 | a watched file's link sits in `<symlinks>/<category>` and is named `<uuid>` plus the original file's suffix |
| Schemas.NowUtc | schemas.py:48 | the default timestamp is timezone-aware |
| Schemas.CanonicalUuidIsLower | schemas.py:24 | the text of a generated uuid7 is its own lower-case form |
| Schemas.NewCalRecord | schemas.py:24-48 | the required fields are as given; every field passed is kept as passed; each field left out takes its default: a fresh uuid7, revision 1, no tags, no notes; the timestamp is the current UTC time, so it is timezone-aware |
| Lineage.LatestRevision | logic.py:372-377 | the largest revision stored for an id (0 if none), and it is stored |
| Lineage.LatestWithFilename | logic.py:372-385 | no row exactly when no row has the name; otherwise a row with that exact name and maximal revision |
| Lineage.InsertByRevision | logic.py:193-206 | placing a record in the result keeps the same multiset plus that record |
| Lineage.InsertKeepsSorted | logic.py:193 | placing a record keeps the result ordered by non-increasing revision |
| Lineage.RevisionsAreContiguous | logic.py:388-390 | in a table whose revisions count from 1, every revision below a stored one is stored too |
| Lineage.RevisionsAreOneToN | logic.py:388-390 | in a well-formed table, the revisions of an id are exactly 1..latest |
| Lineage.NoFirstRevisionMeansAbsent | logic.py:36-39 | if revision 1 of an id is missing, the id has no rows at all |
| Lineage.AppendKeepsKeysUnique | logic.py:46-59 | inserting a row whose key is absent keeps (id, revision) unique |
| Lineage.AppendKeepsOneFilename | logic.py:388-395 | inserting a row that carries its identity's file name keeps one name per identity |
| Lineage.AppendKeepsRevisionsCountFromOne | logic.py:388-390 | inserting revision 1, or the successor of a stored revision, keeps revisions gap-free |
| Lineage.AppendKeepsFilenamesFit | logic.py:46-59 | an insert whose name fits keeps every name within 255 characters |
| Lineage.AppendKeepsIdsCanonical | database.py:62 | inserting a row whose id is a canonical UUID keeps every stored id canonical, as the `id UUID` column does |
| Lineage.CreateKeepsWellFormed | logic.py:36-59 | inserting revision 1 of an absent identity, with a canonical id and a name that fits, keeps the table well-formed |
| Lineage.UpdateKeyIsFresh | logic.py:372-395 | the latest row with a name has its identity's latest revision, so latest+1 is not yet a key |
| Lineage.UpdateKeepsWellFormed | logic.py:388-411 | inserting revision+1 of the latest row with a name, with its id and name, keeps the table well-formed |
| Lineage.SameKeysKeepWellFormed | logic.py:248-254 | changing non-key, non-name fields row by row keeps the table well-formed |
| Lineage.MatchingMembers | logic.py:187-219 | a record is in the lookup exactly when some matching row reads back as it |
| Lineage.MatchingGrows | logic.py:206-219 | scanning more rows never yields fewer records |
| Lineage.MatchingAtLeastTwo | logic.py:288-296 | two matching rows yield at least two records |
| Lineage.MatchingKeysDistinct | logic.py:187-204 | on a table with unique keys, the lookup never yields one key twice |
| Lineage.UuidLookupMembers | logic.py:178-195 | looked up by UUID, the result is exactly the rows of that identity |
| Lineage.UuidMatchIsByValue | logic.py:187-195 | by UUID, a row is found exactly when its id and the identifier name the same UUID in either case, as the `id = %s` comparison of UUID values does |
| Lineage.UuidLookupHead | commands/core/checkout.py:36-37 | the first record of a UUID lookup is the identity's latest revision; the lookup is empty exactly when the identity is absent |
| Lineage.UuidLookupSecond | commands/history/diff.py:84-85 | the second record of a UUID lookup is the revision before the latest |
| Lineage.UuidLookupHasTwo | commands/history/diff.py:79-82 | an identity with two revisions yields at least two records |
| Lineage.UuidLookupNewestFirst | logic.py:187-195 | a UUID lookup starts with revisions n and n-1 and has two records exactly when n > 1 |
| Lineage.LineageStore.constructor | database.py:61-72 | a newly created `file_lineage` table is empty and satisfies the table invariant |
| Lineage.LineageStore.CreateNewCalRecord | logic.py:22-77 | succeeds exactly without a store fault, with a name that fits and a fresh id; then it appends exactly the default record with revision 1, no tags and no notes; otherwise the table is unchanged; the invariant holds |
| Lineage.LineageStore.FindAndCreateUpdatedRecord | logic.py:354-429 | succeeds exactly without a fault when some row has the exact name; then it appends latest+1 of the identity whose latest row has that name, with its id, name, tags (NULL read as []), notes and the new path, under a key that was absent; otherwise nothing changes |
| Lineage.LineageStore.GetRecordsByIdentifier | logic.py:165-228 | empty on a fault; otherwise a permutation of the matching rows, sorted by non-increasing revision |
| Lineage.LineageStore.UpdateRecordNotes | logic.py:231-271 | true exactly when the store works, the id reads as a UUID and a row with that UUID, in either letter case, and that revision exists; only that row's notes change; false changes nothing |
| FileSystem.FileSystem.ExistsOrSymlinkIffPresent | watcher.py:160 | `exists() or is_symlink()` holds exactly when there is an entry at the path |
| FileSystem.FileSystem.Move | watcher.py:135 | `shutil.move` of a file or link succeeds exactly when the source is present and the target's folder exists with no folder in the way; then the entry moves, replacing any file at the target |
| FileSystem.FileSystem.Unlink | watcher.py:161 | removes a file or link, fails on a folder or on nothing |
| FileSystem.FileSystem.SymlinkTo | watcher.py:164 | creates the link exactly when the path is free and its folder exists |
| FileSystem.FileSystem.MakeDirs | watcher.py:84 | succeeds exactly when no prefix is a file or link; then every prefix is a folder, and existing entries are untouched |
| Logic.IngestNewFile | logic.py:111-162 | a missing or non-file path is refused with no change; the tree afterwards is the old one, or the one with the category folder made, or that one with the file moved, according to which step failed; it succeeds exactly when folder, move and insert can all happen; then the file has left its path for `<archive>/<category>/<timestamp>_<name>` and revision 1 was recorded under the original name |
| Logic.NotesTarget | logic.py:288-298 | a record to edit exists exactly when the lookup found one record |
| Logic.MatchingEmpty | logic.py:288-290 | with no matching row, the lookup is empty |
| Logic.MatchingSingle | logic.py:292-298 | with exactly one matching row, the lookup is that row |
| Logic.NotesTargetIsTheOnlyMatch | logic.py:286-298 | the gate opens exactly when one row matches, so several revisions of one identity are refused; the edited record is that row |
| Logic.NotesOfOneKey | logic.py:248-254 | on a table with unique keys, updating the rows with one row's (id, revision) changes the notes of that row alone |
| Logic.EditNotesInteractive | logic.py:274-351 | succeeds exactly when the lookup works, exactly one row matches, the editor produced notes and the update works; success replaces the notes of that row only; otherwise nothing changes |
| Watcher.RouteEvent | watcher.py:252-272 | directories and hidden files are ignored; anything below the ingest root is ingested; otherwise only a file directly in the update root is an update |
| Watcher.StandardLayoutRouting | watcher.py:264-269 | in the standard layout: `_UPDATE/f` is an update, `_INGEST/…/f` an ingest, `_UPDATE/sub/f` ignored |
| Watcher.CategoryDirsMembers | watcher.py:78-81 | three folders per category, and only those |
| Watcher.RequiredDirectoriesContents | watcher.py:70-81 | sixteen folders: the four roots and each category under the ingest, archive and symlink roots, nothing else |
| Watcher.FileHandler.constructor | watcher.py:44-49 | the four roots are `_INGEST`, `_UPDATE`, `SovereignArchive` and `SFT_Symlink` under the base |
| Watcher.FileHandler.DirectoryList | watcher.py:70-81 | the folder list built is exactly the four roots followed by each category under the ingest, archive and symlink roots |
| Watcher.FileHandler.EnsureDirectories | watcher.py:68-85 | succeeds exactly when no file or link lies on the path of any required folder; then every required folder exists; existing entries never change; only folders are added, each on the way to a required folder |
| Watcher.FileHandler.MoveToArchive | watcher.py:117-142 | returns `<archive>/<category>/<timestamp>_<name>` exactly when the move can happen, and the file is then there; otherwise nothing changes |
| Watcher.FileHandler.LinkPath | watcher.py:157 | the link lies directly in the category folder of the symlink root |
| Watcher.FileHandler.ReplaceLink | watcher.py:159-171 | removes whatever file or link is at the link path, then links it to the archive file; fails exactly when a folder is in the way or the category folder is missing, changing nothing |
| Watcher.FileHandler.CreateSymlink | watcher.py:144-171 | succeeds exactly when no folder is in the way and the category folder exists; the link then points at the archived file, replacing any file or link; otherwise nothing changes |
| Watcher.FileHandler.ProcessIngestFile | watcher.py:173-207 | the step reached is decided by the move condition, then the insert condition (fault, name length, taken key), then the link condition on the tree after the move; the tree and table after each step are stated; on success revision 1 of the new identity is recorded and its link points at the archived file |
| Watcher.FileHandler.ProcessUpdateFile | watcher.py:209-243 | as ingest, but the insert fails exactly on a fault or when no row has the name; the record is the next revision of the identity whose latest row has the name, with its id, tags and notes; the link is keyed by that existing identity |
| Watcher.FileHandler.OnCreated | watcher.py:245-275 | the outcome follows the route; an ignored event changes nothing; an ingest or update has the full effect of its pipeline |
| Watcher.NewFileHandler | watcher.py:37-59 | a handler exists exactly when no file or link lies on the path of any required folder; its roots are under the base and every required folder exists; existing entries never change and only folders on the way to required folders are added |
| Checkout.BarcodeFilename | commands/core/checkout.py:61-63 | a name without a dot becomes `<name>._._.<uuid>` |
| Checkout.BarcodeSplitsAtLastDot | commands/core/checkout.py:58-60 | `name.ext` with a dot-free `ext` becomes `name._._.<uuid>.-.-.ext`, even if `name` has dots |
| Checkout.BarcodeRoundTripWithExtension | commands/core/checkout.py:58-60 | for a name with a dot, the barcode gives back the original name |
| Checkout.ExtensionFormReadsBack | commands/core/checkout.py:58-60 | a barcode built as `name._._.<uuid>.-.-.ext`, with a dot-free `ext`, reads back as `name.ext` |
| Checkout.BarcodeRoundTripWithoutExtension | commands/core/checkout.py:61-63 | for a name without a dot, the barcode gives back the original name |
| Checkout.BarcodeRoundTrip | commands/core/checkout.py:53-63 | every original name can be read back from its barcode name, given a UUID without dots |
| Checkout.PlanCheckout | commands/core/checkout.py:19-75 | no identifier, then nothing found, then a missing archive file for the first record, then a missing Desktop are the errors, each exactly when the earlier checks passed; success copies the first record under its barcode name; an existing destination is no error |
| Checkout.CheckoutTakesNewest | commands/core/checkout.py:36-37 | on a lookup sorted newest first, the record checked out has the highest revision found |
| Checkout.CheckoutCommand | commands/core/checkout.py:12-86 | without a fault it is the plan on some newest-first ordering of the matching records; no match is "not found"; with a match, a Desktop and every matching archive file present it succeeds; the copied record matches with no higher matching revision, and by UUID it is the identity's latest revision |
| Diff.IsBinaryFile | commands/history/diff.py:20-25 | a file that cannot be read counts as binary |
| Diff.BinaryIffZeroInProbe | commands/history/diff.py:20-23 | a readable file is binary exactly when a zero byte occurs among its first 1024 bytes |
| Diff.OnlyTheProbeMatters | commands/history/diff.py:22-23 | bytes after the first 1024 never change the verdict |
| Diff.SelectRevisions | commands/history/diff.py:61-85 | both revisions given are used; if either is missing, both are replaced by the second and first records; no records is "not found", one is "insufficient" |
| Diff.DefaultsAreTheTwoNewest | commands/history/diff.py:84-85 | on a lookup sorted newest first, the defaults are the two highest revisions, oldest first |
| Diff.UuidDefaultsAreLastTwoRevisions | commands/history/diff.py:70-85 | by UUID on a well-formed store, with a revision missing, the defaults are n-1 and n for the identity's latest revision n; an absent identity is "not found" and a single revision "insufficient" |
| Diff.ProbeRevisionFiles | commands/history/diff.py:88-118 | a failed path lookup and no paths are errors; then a missing first file names the first revision and a missing second file the second; when both exist the result is a success; a binary file skips the comparison, otherwise the two found paths are compared |
| Diff.DiffCommand | commands/history/diff.py:52-118 | no identifier is an error; two given revisions are probed as they are; with a revision missing, a failed lookup is "not found", otherwise the probe runs on the defaults chosen from some newest-first ordering of the matching records: no match is "not found", one is "insufficient", and by UUID revisions n-1 and n of the identity are probed |

## Left out

- Database I/O. Connections, SQL text, schema creation and migrations are
  not modelled. A failing connection or statement is the `storeFault`
  input, and the table is the `rows` field of `LineageStore`.
- Concurrency. The watchdog observer thread, its scheduling and the sleep
  loop (watcher.py:278-348) are not modelled. Every call in the model runs
  alone, so no two inserts race.
- Logging and all printed output are not modelled.
- The editor session of `edit_notes_interactive` (temporary file,
  subprocess, `input()`) is not modelled. Its result is the `edited`
  input: the new notes, or None when the editor or the temporary file
  failed.
- The Desktop copy made by `shutil.copy2` in checkout is not modelled. The
  model returns what would be copied, from where, and under which name.
- `difflib.unified_diff` is not modelled, and neither is the
  UTF-8/latin-1 reading of the two texts. The model stops at the decision
  to compare the two text files.
- The bodies of `get_file_paths_for_revisions`, the link graph, the path
  tracer, the archive auditor, soft delete and the tag operations are not
  part of this model.
  - The diff's path lookup is the `fileInfo` input.
- Pagination: the model follows the lookup as written in `logic.py`.
  - `get_records_by_identifier` takes only an identifier, with no `limit`
    or `offset` (logic.py:165).
  - The commands rely on a version of `logic.py` that differs from that one.
    The diff command passes `limit=10` (commands/history/diff.py:73). It
    also imports `get_file_paths_for_revisions` (commands/history/diff.py:7),
    which that file does not define. The find command passes `limit` and
    `offset` (commands/core/find.py:33).
  - `Diff.DiffCommand` drops the limit and looks up by identifier alone. A
    limit of 10 would not change the first two records, which are all the
    defaults use.
- Only canonical UUID text is modelled. It is 8-4-4-4-12 hexadecimal
  digits, compared with the stored id after lower-casing, both by the
  lookup and by `update_record_notes`. The braced, URN and undashed forms
  that `uuid.UUID` also accepts are not.
- Case folding is modelled for ASCII letters only. Python's full Unicode
  `lower()` is not modelled, and neither is PostgreSQL's ILIKE folding.
- `%` and `_` inside the identifier are treated as plain characters.
  PostgreSQL's ILIKE would read them as wildcards.
- `Watcher.NewFileHandler`, `Watcher.FileHandler.CreateSymlink`: a
  relative base path given on the command line is not modelled; every
  path in the model is absolute. The source passes `sys.argv[1]` on
  without resolving it (watcher.py:355-367, 44-49). Only the default base
  is resolved (config.py:20). With a relative base, the archive path is
  relative (watcher.py:132), so two things go wrong:
  - `symlink_to` stores that relative target (watcher.py:164), which the
    OS resolves from the link's own folder, so the link dangles;
  - the record stores the relative archive path (watcher.py:194, 230).
  The promise that the link points at the archived file holds for an
  absolute base only.
- The filesystem follows symlinks only in the last path component.
  Modelled failures:
  - moving onto an existing directory (which `shutil.move` would move
    into);
  - any link or file where `mkdir` needs a directory.
  
  Permission errors, full disks and other OS failures are not modelled.
- `Checkout.PlanCheckout`: whether the archive file and the Desktop exist
  are inputs (`archiveExists`, `desktopExists`), not lookups in the
  modelled filesystem.
- `Diff.ProbeRevisionFiles`: the same holds for whether the revision files
  exist (`isPresent`) and what reading them yields (`contents`).

## Behaviour of the code worth knowing

- **Edit gate.** `edit_notes_interactive` refuses whenever the lookup
  returns more than one record, including several revisions of one
  identity (logic.py:288-296; `Logic.NotesTargetIsTheOnlyMatch`).
- **Category of an update.** The update pipeline computes the category
  from the update file's own location and suffix (watcher.py:219-236). The
  new link can therefore go to a different category folder than the
  identity's first link, which is left in place
  (`Watcher.FileHandler.ProcessUpdateFile`).
- **Failed appends.** Every failure of an insert, including a primary-key
  clash, is the same `None` (logic.py:65-74, 417-426).
- **Archive name collisions.** Archive names are unique only to the
  second (watcher.py:130-135). Two files with the same name archived in
  one second map to the same target, and the second move replaces the
  first file (`FileSystem.FileSystem.Move`, `Naming.ArchiveTarget`).
