/**
 * The `file_lineage` table and the operations of logic.py that read and write
 * it. The table is a sequence of rows; (id, revision) is its primary key and
 * `original_filename` is a VARCHAR(255).
 */
module Lineage {
  import opened Wrappers
  import opened Text
  import opened Schemas

  const MAX_FILENAME_LENGTH: nat := 255

  /** One row of `file_lineage`; `tags` is None where the column holds SQL NULL. */
  datatype Row = Row(
    id: Uuid,
    revision: int,
    originalFilename: string,
    archivePath: string,
    tags: Option<seq<string>>,
    notes: Option<string>,
    timestamp: Timestamp)

  /** The row an INSERT of a `CalRecord` writes. */
  function ToRow(r: CalRecord): Row {
    Row(r.id, r.revision, r.originalFilename, r.archivePath, Some(r.tags), r.notes, r.timestamp)
  }

  /** The dictionary a SELECT yields for a row, with `tags or []`. */
  function ToRecord(row: Row): CalRecord {
    CalRecord(row.id, row.revision, row.originalFilename, row.archivePath,
              row.tags.GetOr([]), row.notes, row.timestamp)
  }

  predicate HasKey(rows: seq<Row>, id: Uuid, revision: int) {
    exists i :: 0 <= i < |rows| && rows[i].id == id && rows[i].revision == revision
  }

  // ---------------------------------------------------------------------------
  // The store invariant

  /** The primary key (id, revision). */
  predicate KeysUnique(rows: seq<Row>) {
    forall i, j :: 0 <= i < j < |rows| ==> rows[i].id != rows[j].id || rows[i].revision != rows[j].revision
  }

  /** All revisions of one identity carry the same original file name. */
  predicate OneFilenamePerIdentity(rows: seq<Row>) {
    forall i, j :: 0 <= i < |rows| && 0 <= j < |rows| && rows[i].id == rows[j].id ==>
      rows[i].originalFilename == rows[j].originalFilename
  }

  /** Revisions start at 1 and every revision above 1 has its predecessor. */
  predicate RevisionsCountFromOne(rows: seq<Row>) {
    && (forall i :: 0 <= i < |rows| ==> rows[i].revision >= 1)
    && (forall i {:trigger Revision(rows, i)} :: 0 <= i < |rows| && Revision(rows, i) > 1 ==>
          HasKey(rows, rows[i].id, Revision(rows, i) - 1))
  }

  /**
   * The revision of row `i`. The predecessor half of the invariant above is
   * stated through it, so that a row found by `HasKey` does not by itself
   * bring in its predecessor, and that one its own, without end.
   */
  function Revision(rows: seq<Row>, i: int): int
    requires 0 <= i < |rows|
  {
    rows[i].revision
  }

  /** The predecessor half of the invariant, for one row. */
  lemma PredecessorStored(rows: seq<Row>, i: int)
    requires RevisionsCountFromOne(rows) && 0 <= i < |rows| && rows[i].revision > 1
    ensures HasKey(rows, rows[i].id, rows[i].revision - 1)
  {
    assert Revision(rows, i) > 1;
  }

  /** The VARCHAR(255) column constraint. */
  predicate FilenamesFit(rows: seq<Row>) {
    forall i :: 0 <= i < |rows| ==> |rows[i].originalFilename| <= MAX_FILENAME_LENGTH
  }

  /** The `id UUID` column holds UUID values, which read back as canonical lower-case text. */
  predicate IdsCanonical(rows: seq<Row>) {
    forall i :: 0 <= i < |rows| ==> IsCanonicalUuid(rows[i].id)
  }

  predicate WellFormed(rows: seq<Row>) {
    && KeysUnique(rows) && OneFilenamePerIdentity(rows) && RevisionsCountFromOne(rows) && FilenamesFit(rows)
    && IdsCanonical(rows)
  }

  /** The highest revision stored for `id`, or 0 when there is none. */
  function LatestRevision(rows: seq<Row>, id: Uuid): (n: int)
    ensures n >= 0
    ensures forall i :: 0 <= i < |rows| && rows[i].id == id ==> rows[i].revision <= n
    ensures n > 0 ==> HasKey(rows, id, n)
  {
    if |rows| == 0 then 0
    else
      var front := rows[..|rows| - 1];
      var m := LatestRevision(front, id);
      var last := rows[|rows| - 1];
      assert forall i :: 0 <= i < |front| ==> front[i] == rows[i];
      if last.id == id && last.revision > m then last.revision else m
  }

  // ---------------------------------------------------------------------------
  // The queries, as the database evaluates them

  /** Row `k` is one that `WHERE original_filename = f ORDER BY revision DESC LIMIT 1` may return. */
  predicate IsLatestMatch(rows: seq<Row>, f: string, k: int) {
    0 <= k < |rows| && rows[k].originalFilename == f &&
    forall j :: 0 <= j < |rows| && rows[j].originalFilename == f ==> rows[j].revision <= rows[k].revision
  }

  /** One answer of the latest-by-exact-filename query: the first row of maximal revision. */
  function LatestWithFilename(rows: seq<Row>, f: string): (r: Option<nat>)
    ensures r.None? <==> forall i :: 0 <= i < |rows| ==> rows[i].originalFilename != f
    ensures r.Some? ==> IsLatestMatch(rows, f, r.value)
  {
    if |rows| == 0 then None
    else
      var front := rows[..|rows| - 1];
      var m := LatestWithFilename(front, f);
      var last := rows[|rows| - 1];
      assert forall i :: 0 <= i < |front| ==> front[i] == rows[i];
      if last.originalFilename == f && (m.None? || last.revision > rows[m.value].revision)
      then Some(|rows| - 1)
      else m
  }

  /** The lookup test: the id when the identifier reads as a UUID, else ILIKE '%identifier%'. */
  predicate Matches(row: Row, identifier: string) {
    if IsUuidText(identifier) then row.id == Lower(identifier)
    else ContainsIgnoringCase(row.originalFilename, identifier)
  }

  /**
   * The `id = %s` test against the UUID column: the argument must read as a
   * UUID, and then it names the row's id whatever the case of its letters.
   */
  predicate IdIs(row: Row, recordId: string) {
    IsUuidText(recordId) && row.id == Lower(recordId)
  }

  /** The matching rows as records, in table order. */
  function Matching(rows: seq<Row>, identifier: string): seq<CalRecord> {
    if |rows| == 0 then []
    else
      var last := rows[|rows| - 1];
      Matching(rows[..|rows| - 1], identifier) + (if Matches(last, identifier) then [ToRecord(last)] else [])
  }

  predicate SortedByRevisionDesc(records: seq<CalRecord>) {
    forall i, j :: 0 <= i < j < |records| ==> records[i].revision >= records[j].revision
  }

  /** Places `x` after every record whose revision is at least its own. */
  function InsertByRevision(x: CalRecord, s: seq<CalRecord>): (r: seq<CalRecord>)
    ensures multiset(r) == multiset(s) + multiset{x}
    ensures forall i :: 0 <= i < |r| ==> r[i] == x || r[i] in s
  {
    if |s| == 0 then [x]
    else if x.revision > s[0].revision then [x] + s
    else
      assert s == [s[0]] + s[1..];
      [s[0]] + InsertByRevision(x, s[1..])
  }

  /** A record at least as new as every record of a sorted result can go in front. */
  lemma ConsKeepsSorted(x: CalRecord, s: seq<CalRecord>)
    requires SortedByRevisionDesc(s)
    requires forall i :: 0 <= i < |s| ==> s[i].revision <= x.revision
    ensures SortedByRevisionDesc([x] + s)
  {
    var r := [x] + s;
    forall i, j | 0 <= i < j < |r| ensures r[i].revision >= r[j].revision {
      if i > 0 { assert r[i] == s[i - 1] && r[j] == s[j - 1]; }
    }
  }

  /** Placing a record no newer than a bound among records no newer than it gives records no newer than it. */
  lemma {:induction false} InsertKeepsBound(x: CalRecord, s: seq<CalRecord>, bound: int)
    requires x.revision <= bound
    requires forall i :: 0 <= i < |s| ==> s[i].revision <= bound
    ensures forall i :: 0 <= i < |InsertByRevision(x, s)| ==> InsertByRevision(x, s)[i].revision <= bound
  {
    if |s| > 0 && x.revision <= s[0].revision {
      InsertKeepsBound(x, s[1..], bound);
      var rest := InsertByRevision(x, s[1..]);
      assert InsertByRevision(x, s) == [s[0]] + rest;
    }
  }

  /** Inserting into a list sorted newest first keeps it sorted. */
  lemma {:induction false} InsertKeepsSorted(x: CalRecord, s: seq<CalRecord>)
    requires SortedByRevisionDesc(s)
    ensures SortedByRevisionDesc(InsertByRevision(x, s))
  {
    if |s| > 0 && x.revision <= s[0].revision {
      var rest := InsertByRevision(x, s[1..]);
      InsertKeepsSorted(x, s[1..]);
      InsertKeepsBound(x, s[1..], s[0].revision);
      assert InsertByRevision(x, s) == [s[0]] + rest;
      ConsKeepsSorted(s[0], rest);
    }
  }

  // ---------------------------------------------------------------------------
  // Lemmas about the invariant

  /** Every revision between 1 and a stored one is stored too. */
  lemma {:induction false} RevisionsAreContiguous(rows: seq<Row>, i: int, r: int)
    requires RevisionsCountFromOne(rows)
    requires 0 <= i < |rows| && 1 <= r <= rows[i].revision
    ensures HasKey(rows, rows[i].id, r)
    decreases rows[i].revision - r
  {
    if r < rows[i].revision {
      PredecessorStored(rows, i);
      var j :| 0 <= j < |rows| && rows[j].id == rows[i].id && rows[j].revision == rows[i].revision - 1;
      RevisionsAreContiguous(rows, j, r);
    }
  }

  /** In a well-formed table the revisions of every identity are exactly 1..n. */
  lemma RevisionsAreOneToN(rows: seq<Row>, id: Uuid, r: int)
    requires WellFormed(rows)
    ensures HasKey(rows, id, r) <==> 1 <= r <= LatestRevision(rows, id)
  {
    var n := LatestRevision(rows, id);
    if 1 <= r <= n {
      var i :| 0 <= i < |rows| && rows[i].id == id && rows[i].revision == n;
      RevisionsAreContiguous(rows, i, r);
    }
  }

  /** An identity without a revision 1 has no rows at all. */
  lemma NoFirstRevisionMeansAbsent(rows: seq<Row>, id: Uuid)
    requires RevisionsCountFromOne(rows)
    requires !HasKey(rows, id, 1)
    ensures forall i :: 0 <= i < |rows| ==> rows[i].id != id
  {
    forall i | 0 <= i < |rows| ensures rows[i].id != id {
      if rows[i].id == id {
        RevisionsAreContiguous(rows, i, 1);
      }
    }
  }

  /** Appending a row whose key is absent keeps the keys unique. */
  lemma AppendKeepsKeysUnique(rows: seq<Row>, row: Row)
    requires KeysUnique(rows) && !HasKey(rows, row.id, row.revision)
    ensures KeysUnique(rows + [row])
  {
    var t := rows + [row];
    forall i, j | 0 <= i < j < |t| ensures t[i].id != t[j].id || t[i].revision != t[j].revision {
      assert t[i] == rows[i];
    }
  }

  /** Appending a row whose identity is absent or stored under the same name keeps one name per identity. */
  lemma AppendKeepsOneFilename(rows: seq<Row>, row: Row)
    requires OneFilenamePerIdentity(rows)
    requires forall i :: 0 <= i < |rows| && rows[i].id == row.id ==> rows[i].originalFilename == row.originalFilename
    ensures OneFilenamePerIdentity(rows + [row])
  {
    var t := rows + [row];
    forall i, j | 0 <= i < |t| && 0 <= j < |t| && t[i].id == t[j].id
      ensures t[i].originalFilename == t[j].originalFilename
    {
      if i < |rows| { assert t[i] == rows[i]; }
      if j < |rows| { assert t[j] == rows[j]; }
    }
  }

  /** Appending revision 1, or the successor of a stored revision, keeps revisions counting from 1. */
  lemma AppendKeepsRevisionsCountFromOne(rows: seq<Row>, row: Row)
    requires RevisionsCountFromOne(rows)
    requires row.revision == 1 || (row.revision > 1 && HasKey(rows, row.id, row.revision - 1))
    ensures RevisionsCountFromOne(rows + [row])
  {
    var t := rows + [row];
    forall i | 0 <= i < |t| && t[i].revision > 1
      ensures HasKey(t, t[i].id, t[i].revision - 1)
    {
      if i < |rows| {
        PredecessorStored(rows, i);
        var j :| 0 <= j < |rows| && rows[j].id == rows[i].id && rows[j].revision == rows[i].revision - 1;
        assert t[j] == rows[j];
      } else {
        var j :| 0 <= j < |rows| && rows[j].id == row.id && rows[j].revision == row.revision - 1;
        assert t[j] == rows[j];
      }
    }
  }

  lemma AppendKeepsFilenamesFit(rows: seq<Row>, row: Row)
    requires FilenamesFit(rows) && |row.originalFilename| <= MAX_FILENAME_LENGTH
    ensures FilenamesFit(rows + [row])
  {
    var t := rows + [row];
    assert forall i :: 0 <= i < |rows| ==> t[i] == rows[i];
  }

  lemma AppendKeepsIdsCanonical(rows: seq<Row>, row: Row)
    requires IdsCanonical(rows) && IsCanonicalUuid(row.id)
    ensures IdsCanonical(rows + [row])
  {
    var t := rows + [row];
    assert forall i :: 0 <= i < |rows| ==> t[i] == rows[i];
  }

  /** Inserting revision 1 of an identity with no revision 1 keeps the table well formed. */
  lemma CreateKeepsWellFormed(rows: seq<Row>, row: Row)
    requires WellFormed(rows)
    requires row.revision == 1 && !HasKey(rows, row.id, 1)
    requires |row.originalFilename| <= MAX_FILENAME_LENGTH && IsCanonicalUuid(row.id)
    ensures WellFormed(rows + [row])
  {
    NoFirstRevisionMeansAbsent(rows, row.id);
    AppendKeepsKeysUnique(rows, row);
    AppendKeepsOneFilename(rows, row);
    AppendKeepsRevisionsCountFromOne(rows, row);
    AppendKeepsFilenamesFit(rows, row);
    AppendKeepsIdsCanonical(rows, row);
  }

  /**
   * The row the update reads is the identity's latest revision, so the key it
   * inserts is free: the sequential insert never collides with the primary key.
   */
  lemma UpdateKeyIsFresh(rows: seq<Row>, f: string, k: int)
    requires WellFormed(rows)
    requires IsLatestMatch(rows, f, k)
    ensures rows[k].revision == LatestRevision(rows, rows[k].id)
    ensures !HasKey(rows, rows[k].id, rows[k].revision + 1)
  {
    var id := rows[k].id;
    var n := LatestRevision(rows, id);
    var i :| 0 <= i < |rows| && rows[i].id == id && rows[i].revision == n;
    assert rows[i].originalFilename == f;
  }

  /** Inserting revision n+1 of an identity whose latest revision is n keeps the table well formed. */
  lemma UpdateKeepsWellFormed(rows: seq<Row>, f: string, k: int, row: Row)
    requires WellFormed(rows)
    requires IsLatestMatch(rows, f, k)
    requires row.id == rows[k].id && row.revision == rows[k].revision + 1
    requires row.originalFilename == rows[k].originalFilename
    ensures WellFormed(rows + [row])
  {
    UpdateKeyIsFresh(rows, f, k);
    AppendKeepsKeysUnique(rows, row);
    AppendKeepsOneFilename(rows, row);
    AppendKeepsRevisionsCountFromOne(rows, row);
    AppendKeepsFilenamesFit(rows, row);
    AppendKeepsIdsCanonical(rows, row);
  }

  /** A change that touches neither ids, revisions nor file names keeps the table well formed. */
  lemma SameKeysKeepWellFormed(a: seq<Row>, b: seq<Row>)
    requires WellFormed(a)
    requires |a| == |b|
    requires forall i :: 0 <= i < |a| ==>
      b[i].id == a[i].id && b[i].revision == a[i].revision && b[i].originalFilename == a[i].originalFilename
    ensures WellFormed(b)
  {
    forall i | 0 <= i < |b| && b[i].revision > 1
      ensures HasKey(b, b[i].id, b[i].revision - 1)
    {
      PredecessorStored(a, i);
      var j :| 0 <= j < |a| && a[j].id == a[i].id && a[j].revision == a[i].revision - 1;
      assert b[j].id == b[i].id && b[j].revision == b[i].revision - 1;
    }
  }

  // ---------------------------------------------------------------------------
  // Lemmas about the lookup

  /** The lookup yields exactly the matching rows, each read back as a record. */
  lemma {:induction false} MatchingMembers(rows: seq<Row>, identifier: string, x: CalRecord)
    ensures x in Matching(rows, identifier) <==>
      exists i :: 0 <= i < |rows| && Matches(rows[i], identifier) && x == ToRecord(rows[i])
  {
    if |rows| > 0 {
      var front := rows[..|rows| - 1];
      MatchingMembers(front, identifier, x);
      assert forall i :: 0 <= i < |front| ==> front[i] == rows[i];
      if x in Matching(rows, identifier) && x !in Matching(front, identifier) {
        assert x == ToRecord(rows[|rows| - 1]);
      }
    }
  }

  /** Matching over a longer prefix yields at least as many records. */
  lemma {:induction false} MatchingGrows(rows: seq<Row>, identifier: string, k: int, m: int)
    requires 0 <= k <= m <= |rows|
    ensures |Matching(rows[..k], identifier)| <= |Matching(rows[..m], identifier)|
    decreases m - k
  {
    if k < m {
      MatchingGrows(rows, identifier, k, m - 1);
      assert rows[..m][..m - 1] == rows[..m - 1];
    }
  }

  /** Two distinct matching rows give at least two records. */
  lemma MatchingAtLeastTwo(rows: seq<Row>, identifier: string, i: int, j: int)
    requires 0 <= i < j < |rows|
    requires Matches(rows[i], identifier) && Matches(rows[j], identifier)
    ensures |Matching(rows, identifier)| >= 2
  {
    assert rows[..i + 1][..i] == rows[..i];
    assert rows[..j + 1][..j] == rows[..j];
    MatchingGrows(rows, identifier, i + 1, j);
    MatchingGrows(rows, identifier, j + 1, |rows|);
    assert rows[..|rows|] == rows;
  }

  /** No two records share the key (id, revision). */
  predicate DistinctKeys(records: seq<CalRecord>) {
    forall a, b :: 0 <= a < b < |records| ==>
      records[a].id != records[b].id || records[a].revision != records[b].revision
  }

  /** On a table whose keys are unique, the lookup never yields one key twice. */
  lemma {:induction false} MatchingKeysDistinct(rows: seq<Row>, identifier: string)
    requires KeysUnique(rows)
    ensures DistinctKeys(Matching(rows, identifier))
  {
    if |rows| > 0 {
      var front := rows[..|rows| - 1];
      var last := rows[|rows| - 1];
      assert forall i :: 0 <= i < |front| ==> front[i] == rows[i];
      MatchingKeysDistinct(front, identifier);
      var mf := Matching(front, identifier);
      if Matches(last, identifier) {
        forall a | 0 <= a < |mf| ensures mf[a].id != last.id || mf[a].revision != last.revision {
          MatchingMembers(front, identifier, mf[a]);
        }
      }
    }
  }

  /** A sequence with distinct keys holds every record at most once. */
  lemma {:induction false} DistinctKeysOccurOnce(t: seq<CalRecord>, x: CalRecord)
    requires DistinctKeys(t)
    ensures multiset(t)[x] <= 1
  {
    if |t| > 0 {
      var front := t[..|t| - 1];
      assert t == front + [t[|t| - 1]];
      DistinctKeysOccurOnce(front, x);
      if x == t[|t| - 1] {
        assert x !in front;
      }
    }
  }

  /** In a sequence with distinct keys, a key names one record. */
  lemma DistinctKeysIdentify(t: seq<CalRecord>, x: CalRecord, y: CalRecord)
    requires DistinctKeys(t) && x in t && y in t
    ensures x == y || x.id != y.id || x.revision != y.revision
  {
    var p :| 0 <= p < |t| && t[p] == x;
    var q :| 0 <= q < |t| && t[q] == y;
    if p < q {
      assert t[p].id != t[q].id || t[p].revision != t[q].revision;
    } else if q < p {
      assert t[q].id != t[p].id || t[q].revision != t[p].revision;
    }
  }

  /** Reordering keeps keys distinct. */
  lemma PermutationKeepsDistinctKeys(s: seq<CalRecord>, t: seq<CalRecord>)
    requires multiset(s) == multiset(t) && DistinctKeys(t)
    ensures DistinctKeys(s)
  {
    forall a, b | 0 <= a < b < |s| ensures s[a].id != s[b].id || s[a].revision != s[b].revision {
      if s[a] == s[b] {
        assert s == s[..b] + s[b..];
        assert s[a] in s[..b];
        assert s[b] in s[b..];
        assert multiset(s)[s[a]] == multiset(s[..b])[s[a]] + multiset(s[b..])[s[a]];
        DistinctKeysOccurOnce(t, s[a]);
      } else {
        assert s[a] in multiset(t) && s[b] in multiset(t);
        DistinctKeysIdentify(t, s[a], s[b]);
      }
    }
  }

  /** A lookup by UUID yields exactly the rows of that identity. */
  lemma UuidLookupMembers(rows: seq<Row>, identifier: string, records: seq<CalRecord>, x: CalRecord)
    requires IsUuidText(identifier)
    requires multiset(records) == multiset(Matching(rows, identifier))
    ensures x in records <==> exists i :: 0 <= i < |rows| && rows[i].id == Lower(identifier) && x == ToRecord(rows[i])
  {
    assert x in records <==> x in multiset(Matching(rows, identifier));
    MatchingMembers(rows, identifier, x);
  }

  /**
   * In a table of canonical ids, a UUID identifier finds a row exactly when
   * both name the same UUID, whatever the case of its hexadecimal digits:
   * the lookup compares UUID values, not texts.
   */
  lemma UuidMatchIsByValue(rows: seq<Row>, identifier: string, i: int)
    requires IdsCanonical(rows) && IsUuidText(identifier) && 0 <= i < |rows|
    ensures Matches(rows[i], identifier) <==> Lower(rows[i].id) == Lower(identifier)
  {
    CanonicalUuidIsLower(rows[i].id);
  }

  /** The first record of a UUID lookup, newest first, is the identity's latest revision. */
  lemma UuidLookupHead(rows: seq<Row>, identifier: string, records: seq<CalRecord>)
    requires WellFormed(rows) && IsUuidText(identifier)
    requires multiset(records) == multiset(Matching(rows, identifier))
    requires SortedByRevisionDesc(records)
    ensures |records| > 0 <==> LatestRevision(rows, Lower(identifier)) > 0
    ensures |records| > 0 ==>
      records[0].id == Lower(identifier) && records[0].revision == LatestRevision(rows, Lower(identifier))
  {
    var id := Lower(identifier);
    var n := LatestRevision(rows, id);
    if n > 0 {
      var j :| 0 <= j < |rows| && rows[j].id == id && rows[j].revision == n;
      UuidLookupMembers(rows, identifier, records, ToRecord(rows[j]));
      var p :| 0 <= p < |records| && records[p] == ToRecord(rows[j]);
      UuidLookupMembers(rows, identifier, records, records[0]);
      var i :| 0 <= i < |rows| && rows[i].id == id && records[0] == ToRecord(rows[i]);
    } else if |records| > 0 {
      UuidLookupMembers(rows, identifier, records, records[0]);
      assert false;
    }
  }

  /** The second record of a UUID lookup, newest first, is the revision before the latest. */
  lemma UuidLookupSecond(rows: seq<Row>, identifier: string, records: seq<CalRecord>)
    requires WellFormed(rows) && IsUuidText(identifier)
    requires multiset(records) == multiset(Matching(rows, identifier))
    requires SortedByRevisionDesc(records)
    requires |records| > 1
    ensures records[1].id == Lower(identifier)
    ensures records[1].revision == LatestRevision(rows, Lower(identifier)) - 1
    ensures LatestRevision(rows, Lower(identifier)) > 1
  {
    var id := Lower(identifier);
    var n := LatestRevision(rows, id);
    UuidLookupHead(rows, identifier, records);
    MatchingKeysDistinct(rows, identifier);
    PermutationKeepsDistinctKeys(records, Matching(rows, identifier));
    UuidLookupMembers(rows, identifier, records, records[1]);
    var i :| 0 <= i < |rows| && rows[i].id == id && records[1] == ToRecord(rows[i]);
    assert records[1].revision < n;
    RevisionsAreOneToN(rows, id, n - 1);
    var j :| 0 <= j < |rows| && rows[j].id == id && rows[j].revision == n - 1;
    UuidLookupMembers(rows, identifier, records, ToRecord(rows[j]));
    var p :| 0 <= p < |records| && records[p] == ToRecord(rows[j]);
    assert p != 0;
  }

  /** An identity with two revisions yields at least two records. */
  lemma UuidLookupHasTwo(rows: seq<Row>, identifier: string, records: seq<CalRecord>)
    requires WellFormed(rows) && IsUuidText(identifier)
    requires multiset(records) == multiset(Matching(rows, identifier))
    requires LatestRevision(rows, Lower(identifier)) > 1
    ensures |records| > 1
  {
    var id := Lower(identifier);
    var n := LatestRevision(rows, id);
    RevisionsAreOneToN(rows, id, n - 1);
    var j :| 0 <= j < |rows| && rows[j].id == id && rows[j].revision == n;
    var k :| 0 <= k < |rows| && rows[k].id == id && rows[k].revision == n - 1;
    if j < k { MatchingAtLeastTwo(rows, identifier, j, k); } else { MatchingAtLeastTwo(rows, identifier, k, j); }
    assert |records| == |multiset(Matching(rows, identifier))|;
  }

  /**
   * A lookup by UUID on a well-formed table, newest first, starts with the
   * identity's latest revision and continues with the one before it; it has
   * two records exactly when the identity has at least two revisions.
   */
  lemma UuidLookupNewestFirst(rows: seq<Row>, identifier: string, records: seq<CalRecord>)
    requires WellFormed(rows) && IsUuidText(identifier)
    requires multiset(records) == multiset(Matching(rows, identifier))
    requires SortedByRevisionDesc(records)
    ensures |records| > 0 <==> LatestRevision(rows, Lower(identifier)) > 0
    ensures |records| > 1 <==> LatestRevision(rows, Lower(identifier)) > 1
    ensures |records| > 0 ==>
      records[0].id == Lower(identifier) && records[0].revision == LatestRevision(rows, Lower(identifier))
    ensures |records| > 1 ==>
      records[1].id == Lower(identifier) && records[1].revision == LatestRevision(rows, Lower(identifier)) - 1
  {
    var id := Lower(identifier);
    var n := LatestRevision(rows, id);
    UuidLookupHead(rows, identifier, records);
    if |records| > 1 {
      UuidLookupSecond(rows, identifier, records);
    }
    if n > 1 {
      UuidLookupHasTwo(rows, identifier, records);
    }
  }

  /**
   * `record` is what `find_and_create_updated_record` inserts for the name
   * `f`: the next revision of the identity whose latest row carries `f`, with
   * that row's id, name, tags (NULL read as []) and notes, and the new path.
   */
  ghost predicate IsUpdatedRecord(rows: seq<Row>, f: string, newArchivePath: string, env: Ambient, record: CalRecord) {
    && (exists k ::
          IsLatestMatch(rows, f, k) &&
          record == NewCalRecord(f, newArchivePath,
                                 Overrides(Some(rows[k].id), Some(rows[k].revision + 1),
                                           Some(rows[k].tags.GetOr([])), rows[k].notes), env))
    && record.revision == LatestRevision(rows, record.id) + 1
  }

  // ---------------------------------------------------------------------------
  // The table and its operations

  class LineageStore {
    var rows: seq<Row>

    ghost predicate Valid()
      reads this
    {
      WellFormed(rows)
    }

    constructor ()
      ensures Valid() && rows == []
    {
      rows := [];
    }

    /**
     * `create_new_cal_record`: insert revision 1 of a new identity. The insert
     * is rejected on a store fault, a name longer than the column allows or a
     * primary-key clash, and then the table is left as it was.
     */
    method CreateNewCalRecord(originalFilename: string, archivePath: string, env: Ambient)
      returns (r: Option<CalRecord>)
      requires Valid()
      modifies this
      ensures Valid()
      ensures r.Some? <==>
        !env.storeFault && |originalFilename| <= MAX_FILENAME_LENGTH && !HasKey(old(rows), env.freshUuid, 1)
      ensures r.Some? ==>
        r.value == NewCalRecord(originalFilename, archivePath, NO_OVERRIDES, env) &&
        r.value.revision == 1 && r.value.tags == [] && r.value.notes == None &&
        rows == old(rows) + [ToRow(r.value)]
      ensures r.Some? ==> forall i :: 0 <= i < |old(rows)| ==> old(rows)[i].id != r.value.id
      ensures r.None? ==> rows == old(rows)
    {
      var record := NewCalRecord(originalFilename, archivePath, NO_OVERRIDES, env);
      if env.storeFault || |originalFilename| > MAX_FILENAME_LENGTH || HasKey(rows, record.id, record.revision) {
        return None;
      }
      NoFirstRevisionMeansAbsent(rows, record.id);
      CreateKeepsWellFormed(rows, ToRow(record));
      rows := rows + [ToRow(record)];
      r := Some(record);
    }

    /**
     * `find_and_create_updated_record`: read the latest revision stored under
     * exactly this file name and insert the next revision of that identity
     * with the same name, tags (NULL read as []) and notes and the new path.
     */
    method FindAndCreateUpdatedRecord(originalFilename: string, newArchivePath: string, env: Ambient)
      returns (r: Option<CalRecord>)
      requires Valid()
      modifies this
      ensures Valid()
      ensures r.Some? <==>
        !env.storeFault && exists i :: 0 <= i < |old(rows)| && old(rows)[i].originalFilename == originalFilename
      ensures r.Some? ==> exists k ::
        IsLatestMatch(old(rows), originalFilename, k) &&
        r.value == NewCalRecord(originalFilename, newArchivePath,
                                Overrides(Some(old(rows)[k].id), Some(old(rows)[k].revision + 1),
                                          Some(old(rows)[k].tags.GetOr([])), old(rows)[k].notes), env)
      ensures r.Some? ==>
        r.value.revision == LatestRevision(old(rows), r.value.id) + 1 &&
        !HasKey(old(rows), r.value.id, r.value.revision) &&
        rows == old(rows) + [ToRow(r.value)]
      ensures r.Some? ==> IsUpdatedRecord(old(rows), originalFilename, newArchivePath, env, r.value)
      ensures r.None? ==> rows == old(rows)
    {
      if env.storeFault {
        return None;
      }
      var latest := LatestWithFilename(rows, originalFilename);
      if latest.None? {
        return None;
      }
      var k := latest.value;
      var prior := rows[k];
      var record := NewCalRecord(prior.originalFilename, newArchivePath,
                                 Overrides(Some(prior.id), Some(prior.revision + 1),
                                           Some(prior.tags.GetOr([])), prior.notes), env);
      UpdateKeyIsFresh(rows, originalFilename, k);
      UpdateKeepsWellFormed(rows, originalFilename, k, ToRow(record));
      rows := rows + [ToRow(record)];
      r := Some(record);
    }

    /**
     * `get_records_by_identifier`: every matching row, as a record, newest
     * revision first; the empty list when the store fails. Rows of equal
     * revision may come in any order.
     */
    method GetRecordsByIdentifier(identifier: string, storeFault: bool) returns (records: seq<CalRecord>)
      ensures storeFault ==> records == []
      ensures !storeFault ==> multiset(records) == multiset(Matching(rows, identifier))
      ensures SortedByRevisionDesc(records)
    {
      records := [];
      if storeFault {
        return;
      }
      var i := 0;
      while i < |rows|
        invariant 0 <= i <= |rows|
        invariant SortedByRevisionDesc(records)
        invariant multiset(records) == multiset(Matching(rows[..i], identifier))
      {
        assert Matching(rows[..i + 1], identifier) ==
          Matching(rows[..i], identifier) + (if Matches(rows[i], identifier) then [ToRecord(rows[i])] else [])
        by {
          assert rows[..i + 1][..i] == rows[..i];
        }
        if Matches(rows[i], identifier) {
          InsertKeepsSorted(ToRecord(rows[i]), records);
          records := InsertByRevision(ToRecord(rows[i]), records);
        }
        i := i + 1;
      }
      assert rows[..|rows|] == rows;
    }

    /**
     * `update_record_notes`: replace the notes of the row with this id and
     * revision; true iff such a row existed. An argument that does not read
     * as a UUID makes the statement fail, which is false as well. Nothing
     * else changes.
     */
    method UpdateRecordNotes(recordId: Uuid, revision: int, newNotes: string, storeFault: bool)
      returns (ok: bool)
      requires Valid()
      modifies this
      ensures Valid()
      ensures ok <==> !storeFault && IsUuidText(recordId) && HasKey(old(rows), Lower(recordId), revision)
      ensures !ok ==> rows == old(rows)
      ensures |rows| == |old(rows)|
      ensures forall i :: 0 <= i < |rows| ==>
        rows[i] == if !storeFault && IdIs(old(rows)[i], recordId) && old(rows)[i].revision == revision
                   then old(rows)[i].(notes := Some(newNotes))
                   else old(rows)[i]
    {
      if storeFault || !IsUuidText(recordId) {
        return false;
      }
      var table := rows;
      var key := Lower(recordId);
      ok := HasKey(table, key, revision);
      var updated := seq(|table|, i requires 0 <= i < |table| =>
        if table[i].id == key && table[i].revision == revision then table[i].(notes := Some(newNotes)) else table[i]);
      SameKeysKeepWellFormed(table, updated);
      if !ok {
        assert updated == table;
      }
      rows := updated;
    }
  }
}
