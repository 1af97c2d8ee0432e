/** Values shared by the tag identification core: bytes, the card families,
    libnfc's modulation types and target descriptors, and a tag handle. */
module Types {

  newtype byte = x: int | 0 <= x < 256

  /** A NULL-able value: `None` stands for NULL. */
  datatype Option<T> = None | Some(value: T)

  /** `enum freefare_tag_type`. `UnknownTagType` stands for any value of the
      enum's storage that names none of the six families. */
  datatype TagType =
    | Felica
    | MifareClassic1k
    | MifareClassic4k
    | MifareDesfire
    | MifareUltralightC
    | MifareUltralight
    | UnknownTagType(code: int)

  /** libnfc's `nfc_modulation_type` (`NMT_*`). `NmtOther` stands for any value
      that the switch in freefare_get_tag_uid does not list. */
  datatype ModulationType =
    | NmtIso14443a
    | NmtJewel
    | NmtIso14443b
    | NmtIso14443bi
    | NmtIso14443b2sr
    | NmtIso14443b2ct
    | NmtFelica
    | NmtDep
    | NmtOther(code: int)

  /** The part of libnfc's `nfc_target_info` union this core reads: the
      ISO/IEC 14443 type A descriptor (`nai`) or the FeliCa one (`nfi`). */
  datatype TargetInfo =
    | Iso14443aInfo(abtUid: seq<byte>, szUidLen: nat, btSak: byte, abtAts: seq<byte>)
    | FelicaInfo(abtId: seq<byte>)
    | OtherInfo

  /** `nfc_target`: the modulation it was found with and its descriptor. */
  datatype Target = Target(nmt: ModulationType, nti: TargetInfo)

  /** What libnfc guarantees of a target it reports: the descriptor matches the
      modulation, the UID buffer holds 10 bytes of which `szUidLen` are used,
      and a FeliCa IDm is 8 bytes. */
  predicate WellFormedTarget(t: Target)
  {
    (t.nmt == NmtIso14443a <==> t.nti.Iso14443aInfo?) &&
    (t.nmt == NmtFelica <==> t.nti.FelicaInfo?) &&
    (t.nti.Iso14443aInfo? ==> |t.nti.abtUid| == 10 && t.nti.szUidLen <= 10) &&
    (t.nti.FelicaInfo? ==> |t.nti.abtId| == 8)
  }

  /** A `FreefareTag`: its family, the copy of the target it was built from and,
      meaningful for DESFire handles only, the last reader-side (PCD) and
      card-side (PICC) error codes the DESFire driver recorded. */
  datatype Tag = Tag(tagType: TagType, info: Target, lastPcdError: byte, lastPiccError: byte)
}
