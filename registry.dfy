/** The family registry: the constant `supported_tags` table, one row per
    signature a card of a family presents at the radio layer. */
module Registry {
  import opened Types

  /** A row of `supported_tags`. `sak` is the ISO/IEC 14443-3 type A Select
      Acknowledge byte (clause 6.5.3); for the rows that have one, the answer
      to select (ISO/IEC 14443-4 clause 5.2) must be at least `atsMinLength`
      bytes long and begin with the first `atsCompareLength` bytes of `ats`.
      `checkTagOnReader` says whether the row also needs a probe sent to the
      card (only Ultralight-C has one). */
  datatype SupportedTag = SupportedTag(
    tagType: TagType,
    friendlyName: string,
    modulationType: ModulationType,
    sak: byte,
    atsMinLength: nat,
    atsCompareLength: nat,
    ats: seq<byte>,
    checkTagOnReader: bool)

  const SupportedTags: seq<SupportedTag> := [
    SupportedTag(Felica, "FeliCA", NmtFelica, 0x00, 0, 0, [0x00], false),
    SupportedTag(MifareClassic1k, "Mifare Classic 1k", NmtIso14443a, 0x08, 0, 0, [0x00], false),
    SupportedTag(MifareClassic1k, "Mifare Classic 1k (Emulated)", NmtIso14443a, 0x28, 0, 0, [0x00], false),
    SupportedTag(MifareClassic1k, "Mifare Classic 1k (Emulated)", NmtIso14443a, 0x68, 0, 0, [0x00], false),
    SupportedTag(MifareClassic1k, "Infineon Mifare Classic 1k", NmtIso14443a, 0x88, 0, 0, [0x00], false),
    SupportedTag(MifareClassic4k, "Mifare Classic 4k", NmtIso14443a, 0x18, 0, 0, [0x00], false),
    SupportedTag(MifareClassic4k, "Mifare Classic 4k (Emulated)", NmtIso14443a, 0x38, 0, 0, [0x00], false),
    SupportedTag(MifareDesfire, "Mifare DESFire", NmtIso14443a, 0x20, 5, 4, [0x75, 0x77, 0x81, 0x02], false),
    SupportedTag(MifareDesfire, "Cyanogenmod card emulation", NmtIso14443a, 0x60, 4, 3, [0x78, 0x33, 0x88], false),
    SupportedTag(MifareDesfire, "Android HCE", NmtIso14443a, 0x60, 4, 3, [0x78, 0x80, 0x70], false),
    SupportedTag(MifareUltralightC, "Mifare UltraLightC", NmtIso14443a, 0x00, 0, 0, [0x00], true),
    SupportedTag(MifareUltralight, "Mifare UltraLight", NmtIso14443a, 0x00, 0, 0, [0x00], false)
  ]

  /** A row is consistent: its prefix pattern is as long as it says, a prefix is
      compared exactly when a minimum answer-to-select length is set and then
      covers fewer bytes than that minimum, FeliCa rows and only they use the
      FeliCa modulation, and only Ultralight-C needs a probe on the reader. */
  predicate RowWellFormed(row: SupportedTag)
  {
    row.atsCompareLength <= |row.ats| &&
    (row.atsMinLength == 0 <==> row.atsCompareLength == 0) &&
    (row.atsMinLength != 0 ==> row.atsCompareLength < row.atsMinLength) &&
    (row.modulationType == NmtIso14443a || row.modulationType == NmtFelica) &&
    (row.modulationType == NmtFelica <==> row.tagType == Felica) &&
    (row.checkTagOnReader <==> row.tagType == MifareUltralightC) &&
    !row.tagType.UnknownTagType?
  }

  lemma SupportedTagsWellFormed()
    ensures forall i :: 0 <= i < |SupportedTags| ==> RowWellFormed(SupportedTags[i])
  {
  }

  /** The static part of a row's match: same modulation and, for a type A
      target, the same SAK and the answer-to-select prefix when the row has
      one; then the probe on the reader, for the row that needs it. */
  predicate RowMatches(row: SupportedTag, target: Target, probe: Target -> bool)
  {
    target.nmt == row.modulationType &&
    (target.nti.Iso14443aInfo? ==>
       target.nti.btSak == row.sak &&
       (row.atsMinLength == 0 ||
        (row.atsCompareLength <= |row.ats| &&
         row.atsCompareLength <= row.atsMinLength <= |target.nti.abtAts| &&
         target.nti.abtAts[..row.atsCompareLength] == row.ats[..row.atsCompareLength]))) &&
    (row.checkTagOnReader ==> probe(target))
  }

  /** Some row of `rows` for family `f` matches `target`. */
  function RowsAccept(rows: seq<SupportedTag>, f: TagType, target: Target, probe: Target -> bool): (r: bool)
    ensures r <==> exists i :: 0 <= i < |rows| && rows[i].tagType == f && RowMatches(rows[i], target, probe)
  {
    if rows == [] then false
    else if rows[0].tagType == f && RowMatches(rows[0], target, probe) then true
    else
      var r := RowsAccept(rows[1..], f, target, probe);
      assert r ==> exists i :: 0 <= i < |rows| && rows[i].tagType == f && RowMatches(rows[i], target, probe) by {
        if r {
          var i :| 0 <= i < |rows[1..]| && rows[1..][i].tagType == f && RowMatches(rows[1..][i], target, probe);
          assert rows[i + 1] == rows[1..][i];
        }
      }
      r
  }

  /** Row `k` is the first row of family `f`. */
  predicate IsFirstRowOf(rows: seq<SupportedTag>, k: nat, f: TagType)
  {
    k < |rows| && rows[k].tagType == f && forall j :: 0 <= j < k ==> rows[j].tagType != f
  }
}
