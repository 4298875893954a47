/**
 * The checkout command: copy the newest revision a lookup finds to the
 * Desktop under a "barcode" name that carries the identity's UUID between
 * the original name and its extension.
 */
module Checkout {
  import opened Wrappers
  import opened Text
  import opened Schemas
  import opened Lineage

  /** The marker before the UUID, and the one between the UUID and the extension. */
  const NAME_MARK: string := "._._."
  const EXTENSION_MARK: string := ".-.-."

  /**
   * `<name_part>._._.<uuid>.-.-.<extension>`, splitting the original name at
   * its last dot, or `<original>._._.<uuid>` when it has no dot.
   */
  function BarcodeFilename(originalFilename: string, uuid: string): (r: string)
    ensures '.' !in originalFilename ==> r == originalFilename + NAME_MARK + uuid
  {
    if '.' in originalFilename then
      var i := LastIndexOf(originalFilename, '.');
      originalFilename[..i] + NAME_MARK + uuid + EXTENSION_MARK + originalFilename[i + 1..]
    else
      originalFilename + NAME_MARK + uuid
  }

  /** The split is `rsplit('.', 1)`: the extension is what follows the last dot. */
  lemma BarcodeSplitsAtLastDot(namePart: string, extension: string, uuid: string)
    requires '.' !in extension
    ensures BarcodeFilename(namePart + "." + extension, uuid) ==
      namePart + NAME_MARK + uuid + EXTENSION_MARK + extension
  {
    var original := namePart + "." + extension;
    assert original == namePart + ['.'] + extension;
    LastIndexOfBeforeSuffix(namePart, '.', extension);
    assert original[..|namePart|] == namePart;
    assert original[|namePart| + 1..] == extension;
  }

  /** Reads the original name back out of a barcode name, given the UUID. */
  function OriginalFromBarcode(barcode: string, uuid: string): Option<string> {
    var i := LastIndexOf(barcode, '.');
    var withExtension := NAME_MARK + uuid + ".-.-";
    var withoutExtension := NAME_MARK + uuid;
    if i >= 0 && EndsWith(barcode[..i], withExtension) then
      Some(barcode[..i - |withExtension|] + "." + barcode[i + 1..])
    else if EndsWith(barcode, withoutExtension) then
      Some(barcode[..|barcode| - |withoutExtension|])
    else
      None
  }

  lemma BarcodeRoundTripWithExtension(originalFilename: string, uuid: string)
    requires '.' !in uuid && '.' in originalFilename
    ensures OriginalFromBarcode(BarcodeFilename(originalFilename, uuid), uuid) == Some(originalFilename)
  {
    var i := LastIndexOf(originalFilename, '.');
    var namePart := originalFilename[..i];
    var extension := originalFilename[i + 1..];
    assert originalFilename == namePart + "." + extension;
    BarcodeSplitsAtLastDot(namePart, extension, uuid);
    ExtensionFormReadsBack(namePart, uuid, extension);
  }

  /** The name built with an extension is read back as `<name_part>.<extension>`. */
  lemma ExtensionFormReadsBack(namePart: string, uuid: string, extension: string)
    requires '.' !in extension
    ensures OriginalFromBarcode(namePart + NAME_MARK + uuid + EXTENSION_MARK + extension, uuid) ==
      Some(namePart + "." + extension)
  {
    var withExtension := NAME_MARK + uuid + ".-.-";
    var head := namePart + withExtension;
    var barcode := namePart + NAME_MARK + uuid + EXTENSION_MARK + extension;
    assert barcode == head + ['.'] + extension;
    assert LastIndexOf(barcode, '.') == |head| by {
      LastIndexOfBeforeSuffix(head, '.', extension);
    }
    assert barcode[..|head|] == head;
    assert barcode[|head| + 1..] == extension;
    EndsWithAppended(namePart, withExtension);
    assert barcode[..|head| - |withExtension|] == namePart;
  }

  /** `a + b` ends with `b`, and cutting `b` off gives back `a`. */
  lemma EndsWithAppended(a: string, b: string)
    ensures EndsWith(a + b, b) && (a + b)[..|a + b| - |b|] == a
  {
    assert (a + b)[|a|..] == b;
  }

  /** A name ending in `_` cannot end with the extension marker's prefix `.-.-`. */
  lemma UnderscoreEndIsNotExtensionMark(p: string, uuid: string)
    ensures !EndsWith(p + "._._", NAME_MARK + uuid + ".-.-")
  {
    var s := p + "._._";
    var w := NAME_MARK + uuid + ".-.-";
    if |w| <= |s| {
      assert s[|s| - 1] == '_';
      assert w[|w| - 1] == '-';
      assert s[|s| - |w|..][|w| - 1] == s[|s| - 1];
    }
  }

  lemma BarcodeRoundTripWithoutExtension(originalFilename: string, uuid: string)
    requires '.' !in uuid && '.' !in originalFilename
    ensures OriginalFromBarcode(BarcodeFilename(originalFilename, uuid), uuid) == Some(originalFilename)
  {
    var barcode := BarcodeFilename(originalFilename, uuid);
    var head := originalFilename + "._._";
    assert barcode == head + ['.'] + uuid;
    LastIndexOfBeforeSuffix(head, '.', uuid);
    assert barcode[..|head|] == head;
    UnderscoreEndIsNotExtensionMark(originalFilename, uuid);
    assert barcode == originalFilename + (NAME_MARK + uuid);
    EndsWithAppended(originalFilename, NAME_MARK + uuid);
  }

  /** A barcode name gives back the original name, for any UUID without a dot. */
  lemma BarcodeRoundTrip(originalFilename: string, uuid: string)
    requires '.' !in uuid
    ensures OriginalFromBarcode(BarcodeFilename(originalFilename, uuid), uuid) == Some(originalFilename)
  {
    if '.' in originalFilename {
      BarcodeRoundTripWithExtension(originalFilename, uuid);
    } else {
      BarcodeRoundTripWithoutExtension(originalFilename, uuid);
    }
  }

  datatype CheckoutError =
    | IdentifierRequired
    | FileNotFound
    | ArchiveFileMissing(path: string)
    | DesktopMissing

  /** What the copy does: the archived file goes to the Desktop under its barcode name. */
  datatype CheckoutCopy = CheckoutCopy(record: CalRecord, source: string, barcodeFilename: string)

  /**
   * `checkout_command` after the lookup: an empty identifier, an empty
   * lookup, a missing archive file and a missing Desktop are errors, checked
   * in that order; otherwise the first record -- the newest -- is copied. A
   * file already at the destination is overwritten.
   */
  function PlanCheckout(identifier: string, records: seq<CalRecord>,
                        archiveExists: string -> bool, desktopExists: bool): (r: Result<CheckoutCopy, CheckoutError>)
    ensures r == Err(IdentifierRequired) <==> identifier == ""
    ensures r == Err(FileNotFound) <==> identifier != "" && records == []
    ensures identifier != "" && records != [] && !archiveExists(records[0].archivePath) ==>
      r == Err(ArchiveFileMissing(records[0].archivePath))
    ensures identifier != "" && records != [] && archiveExists(records[0].archivePath) && !desktopExists ==>
      r == Err(DesktopMissing)
    ensures r.Ok? <==>
      identifier != "" && records != [] && archiveExists(records[0].archivePath) && desktopExists
    ensures r.Ok? ==>
      r.value.record == records[0] &&
      r.value.source == r.value.record.archivePath &&
      r.value.barcodeFilename == BarcodeFilename(r.value.record.originalFilename, r.value.record.id)
  {
    if identifier == "" then Err(IdentifierRequired)
    else if records == [] then Err(FileNotFound)
    else
      var record := records[0];
      if !archiveExists(record.archivePath) then Err(ArchiveFileMissing(record.archivePath))
      else if !desktopExists then Err(DesktopMissing)
      else
        Ok(CheckoutCopy(record, record.archivePath, BarcodeFilename(record.originalFilename, record.id)))
  }

  /** On a lookup sorted newest first, checkout copies a record of the highest revision found. */
  lemma CheckoutTakesNewest(identifier: string, records: seq<CalRecord>,
                            archiveExists: string -> bool, desktopExists: bool)
    requires SortedByRevisionDesc(records)
    ensures var r := PlanCheckout(identifier, records, archiveExists, desktopExists);
      r.Ok? ==> forall x :: x in records ==> x.revision <= r.value.record.revision
  {
    var r := PlanCheckout(identifier, records, archiveExists, desktopExists);
    if r.Ok? {
      forall x | x in records ensures x.revision <= records[0].revision {
        var k :| 0 <= k < |records| && records[k] == x;
        if k > 0 {
          assert records[0].revision >= records[k].revision;
        }
      }
    }
  }

  /**
   * `checkout_command` with its lookup: the store is read, not changed. The
   * copied record is one the identifier matches with no higher matching
   * revision; looked up by UUID, it is that identity's latest revision.
   */
  method CheckoutCommand(store: LineageStore, identifier: string, lookupFault: bool,
                         archiveExists: string -> bool, desktopExists: bool)
    returns (r: Result<CheckoutCopy, CheckoutError>)
    requires store.Valid()
    ensures identifier == "" ==> r == Err(IdentifierRequired)
    ensures identifier != "" && lookupFault ==> r == Err(FileNotFound)
    ensures identifier != "" && !lookupFault ==>
      exists records :: multiset(records) == multiset(Matching(store.rows, identifier)) &&
        SortedByRevisionDesc(records) && r == PlanCheckout(identifier, records, archiveExists, desktopExists)
    ensures identifier != "" && !lookupFault && Matching(store.rows, identifier) == [] ==> r == Err(FileNotFound)
    ensures (&& identifier != "" && !lookupFault && Matching(store.rows, identifier) != [] && desktopExists
             && forall x :: x in Matching(store.rows, identifier) ==> archiveExists(x.archivePath))
            ==> r.Ok?
    ensures r.Ok? ==> r.value.record in Matching(store.rows, identifier)
    ensures r.Ok? ==> forall x :: x in Matching(store.rows, identifier) ==> x.revision <= r.value.record.revision
    ensures r.Ok? && IsUuidText(identifier) ==>
      r.value.record.id == Lower(identifier) &&
      r.value.record.revision == LatestRevision(store.rows, Lower(identifier))
  {
    if identifier == "" {
      return Err(IdentifierRequired);
    }
    var records := store.GetRecordsByIdentifier(identifier, lookupFault);
    r := PlanCheckout(identifier, records, archiveExists, desktopExists);
    if r.Ok? {
      CheckoutTakesNewest(identifier, records, archiveExists, desktopExists);
      assert records[0] in multiset(Matching(store.rows, identifier));
      forall x | x in Matching(store.rows, identifier) ensures x.revision <= r.value.record.revision {
        assert x in multiset(records);
      }
      if IsUuidText(identifier) {
        UuidLookupHead(store.rows, identifier, records);
      }
    }
  }
}
