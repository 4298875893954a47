/**
 * `CalRecord`: one snapshot of a tracked file, and the values its default
 * factories draw from outside (a new uuid7, the current UTC time).
 */
module Schemas {
  import opened Wrappers
  import opened Text

  /** A file identity, as the text the database and the CLI exchange. */
  type Uuid = string

  /**
   * The text `str(uuid.uuid7())` yields: the canonical 8-4-4-4-12 form with
   * lower-case hexadecimal digits.
   */
  predicate IsCanonicalUuid(s: string) {
    IsUuidText(s) && forall i :: 0 <= i < |s| ==> LowerChar(s[i]) == s[i]
  }

  /** A canonical UUID is its own lower-case form. */
  lemma CanonicalUuidIsLower(s: string)
    requires IsCanonicalUuid(s)
    ensures Lower(s) == s
  {
  }

  /** The identities the id factory hands out. */
  type FreshUuid = s: string | IsCanonicalUuid(s)
    witness seq(36, i => if i == 8 || i == 13 || i == 18 || i == 23 then '-' else '0')

  /** An instant; `utcOffsetMinutes` is None for a naive (zone-less) datetime. */
  datatype Timestamp = Timestamp(epochMicros: int, utcOffsetMinutes: Option<int>)

  predicate IsTimezoneAware(t: Timestamp) {
    t.utcOffsetMinutes.Some?
  }

  /** `datetime.now(timezone.utc)` read from a clock showing `epochMicros`. */
  function NowUtc(epochMicros: int): (t: Timestamp)
    ensures IsTimezoneAware(t) && t.epochMicros == epochMicros
  {
    Timestamp(epochMicros, Some(0))
  }

  datatype CalRecord = CalRecord(
    id: Uuid,
    revision: int,
    originalFilename: string,
    archivePath: string,
    tags: seq<string>,
    notes: Option<string>,
    timestamp: Timestamp)

  /**
   * What the source obtains from its surroundings on one call: the clock in
   * whole seconds (`int(time.time())`), the clock in microseconds
   * (`datetime.now`), the uuid7 the id factory would produce, and whether the
   * database connection or statement fails.
   */
  datatype Ambient = Ambient(clockSeconds: nat, clockMicros: int, freshUuid: FreshUuid, storeFault: bool)

  /**
   * The fields a caller may pass to `CalRecord(...)` besides the two required
   * ones; a field left as None takes its default.
   */
  datatype Overrides = Overrides(
    id: Option<Uuid>,
    revision: Option<int>,
    tags: Option<seq<string>>,
    notes: Option<string>)

  const NO_OVERRIDES: Overrides := Overrides(None, None, None, None)

  /**
   * `CalRecord(original_filename=..., archive_path=..., **overrides)`: the two
   * required fields as given, every other field as given or else its default:
   * a fresh uuid7, revision 1, no tags, no notes and the current UTC time.
   */
  function NewCalRecord(originalFilename: string, archivePath: string, overrides: Overrides, env: Ambient): (r: CalRecord)
    ensures r.originalFilename == originalFilename && r.archivePath == archivePath
    ensures overrides.id.None? ==> r.id == env.freshUuid
    ensures overrides.id.Some? ==> r.id == overrides.id.value
    ensures overrides.revision.None? ==> r.revision == 1
    ensures overrides.revision.Some? ==> r.revision == overrides.revision.value
    ensures overrides.tags.None? ==> r.tags == []
    ensures overrides.tags.Some? ==> r.tags == overrides.tags.value
    ensures r.notes == overrides.notes
    ensures r.timestamp == NowUtc(env.clockMicros)
    ensures IsTimezoneAware(r.timestamp)
  {
    CalRecord(
      overrides.id.GetOr(env.freshUuid),
      overrides.revision.GetOr(1),
      originalFilename,
      archivePath,
      overrides.tags.GetOr([]),
      overrides.notes,
      NowUtc(env.clockMicros))
  }
}
