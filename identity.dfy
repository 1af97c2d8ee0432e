/** The identity and diagnostics surface of a tag handle: its type, its
    friendly name, its UID as a hexadecimal string and its error message. */
module Identity {
  import opened Types
  import Registry

  /** freefare_get_tag_type: the family a handle was built for. */
  function GetTagType(tag: Tag): (t: TagType)
    ensures t == tag.tagType
  {
    tag.tagType
  }

  /** freefare_get_tag_friendly_name: a fixed name per family, "UNKNOWN" for
      anything else, never NULL. */
  function GetTagFriendlyName(tag: Tag): (name: string)
    ensures name != []
    ensures name == "UNKNOWN" <==> tag.tagType.UnknownTagType?
  {
    match tag.tagType
    case Felica => "FeliCA"
    case MifareClassic1k => "Mifare Classic 1k"
    case MifareClassic4k => "Mifare Classic 4k"
    case MifareDesfire => "Mifare DESFire"
    case MifareUltralightC => "Mifare UltraLightC"
    case MifareUltralight => "Mifare UltraLight"
    case UnknownTagType(_) => "UNKNOWN"
  }

  /** The name of each known family is the name of the first row of that
      family in `supported_tags`. */
  lemma FriendlyNameIsFirstRowName(tag: Tag)
    requires !tag.tagType.UnknownTagType?
    ensures exists k: nat ::
      (Registry.IsFirstRowOf(Registry.SupportedTags, k, tag.tagType) &&
       Registry.SupportedTags[k].friendlyName == GetTagFriendlyName(tag))
  {
    var rows := Registry.SupportedTags;
    var k := match tag.tagType
      case Felica => 0
      case MifareClassic1k => 1
      case MifareClassic4k => 5
      case MifareDesfire => 7
      case MifareUltralightC => 10
      case MifareUltralight => 11;
    assert Registry.IsFirstRowOf(rows, k, tag.tagType);
  }

  /** Two families never share a friendly name. */
  lemma FriendlyNamesDistinct(tag: Tag, other: Tag)
    requires !tag.tagType.UnknownTagType?
    ensures GetTagFriendlyName(tag) == GetTagFriendlyName(other) <==> tag.tagType == other.tagType
  {
  }

  // ---------------------------------------------------------------------
  // Lower-case hexadecimal, two digits per byte ("%02x")

  /** A lower-case hexadecimal digit, as "%02x" writes them. */
  predicate IsHexDigit(c: char)
  {
    '0' <= c <= '9' || 'a' <= c <= 'f'
  }

  predicate IsHexString(s: string)
  {
    forall i :: 0 <= i < |s| ==> IsHexDigit(s[i])
  }

  /** The value of one lower-case hexadecimal digit. */
  function DigitValue(c: char): (v: nat)
    requires IsHexDigit(c)
    ensures v < 16
  {
    if '0' <= c <= '9' then (c as int - '0' as int) else (c as int - 'a' as int) + 10
  }

  /** The digit for a value below 16. */
  function HexDigit(n: nat): (c: char)
    requires n < 16
    ensures IsHexDigit(c) && DigitValue(c) == n
  {
    if n < 10 then ('0' as int + n) as char else ('a' as int + n - 10) as char
  }

  function HexPair(b: byte): (s: string)
    ensures |s| == 2 && IsHexString(s)
    ensures DigitValue(s[0]) * 16 + DigitValue(s[1]) == b as int
  {
    [HexDigit(b as int / 16), HexDigit(b as int % 16)]
  }

  /** The bytes written as lower-case hexadecimal, most significant digit
      first, with no separator. */
  function Hex(bytes: seq<byte>): (s: string)
    ensures |s| == 2 * |bytes| && IsHexString(s)
  {
    if bytes == [] then [] else Hex(bytes[..|bytes| - 1]) + HexPair(bytes[|bytes| - 1])
  }

  lemma HexSnoc(bytes: seq<byte>, b: byte)
    ensures Hex(bytes + [b]) == Hex(bytes) + HexPair(b)
  {
    assert (bytes + [b])[..|bytes|] == bytes;
  }

  /** Reads back a string of lower-case hexadecimal digit pairs. */
  function Unhex(s: string): (bytes: seq<byte>)
    requires |s| % 2 == 0 && IsHexString(s)
  {
    if s == [] then []
    else Unhex(s[..|s| - 2]) + [(DigitValue(s[|s| - 2]) * 16 + DigitValue(s[|s| - 1])) as byte]
  }

  /** Reading a UID string back gives the UID bytes: distinct UIDs never print
      the same. */
  lemma {:induction false} UnhexHex(bytes: seq<byte>)
    ensures Unhex(Hex(bytes)) == bytes
  {
    if bytes != [] {
      var init, last := bytes[..|bytes| - 1], bytes[|bytes| - 1];
      var s, h, pair := Hex(bytes), Hex(init), HexPair(last);
      assert s == h + pair;
      UnhexHex(init);
      assert s[..|s| - 2] == h;
      assert s[|s| - 2] == pair[0] && s[|s| - 1] == pair[1];
      assert Unhex(s) == Unhex(h) + [last];
      assert bytes == init + [last];
    }
  }

  /** The buffer loop of freefare_get_tag_uid: `snprintf(res + 2*i, 3, "%02x", b)`
      for each byte in turn. */
  method FormatHex(bytes: seq<byte>) returns (s: string)
    ensures s == Hex(bytes)
  {
    var res := new char[2 * |bytes|];
    for i := 0 to |bytes|
      invariant res[..2 * i] == Hex(bytes[..i])
    {
      var pair := HexPair(bytes[i]);
      res[2 * i] := pair[0];
      res[2 * i + 1] := pair[1];
      assert bytes[..i + 1][..i] == bytes[..i];
      assert res[..2 * (i + 1)] == res[..2 * i] + pair;
    }
    assert bytes[..|bytes|] == bytes;
    s := res[..];
  }

  /** What freefare_get_tag_uid returns: the hexadecimal of the 8-byte IDm of
      a FeliCa tag or of the `szUidLen` UID bytes of a type A tag, "UNKNOWN"
      for the other listed modulations, NULL for a modulation the switch does
      not list or when the result cannot be allocated. */
  function TagUid(tag: Tag, allocOk: bool): (r: Option<string>)
    requires WellFormedTarget(tag.info)
    ensures r.Some? <==> allocOk && !tag.info.nmt.NmtOther?
    ensures r.Some? && tag.info.nmt == NmtFelica ==> |r.value| == 16 && IsHexString(r.value)
    ensures r.Some? && tag.info.nmt == NmtIso14443a ==> |r.value| == 2 * tag.info.nti.szUidLen && IsHexString(r.value)
  {
    match tag.info.nmt
    case NmtFelica => if allocOk then Some(Hex(tag.info.nti.abtId[..8])) else None
    case NmtIso14443a =>
      if allocOk then Some(Hex(tag.info.nti.abtUid[..tag.info.nti.szUidLen])) else None
    case NmtOther(_) => None
    case _ => if allocOk then Some("UNKNOWN") else None
  }

  /** The UID of a FeliCa tag is 16 lower-case hexadecimal digits that read
      back to its IDm; that of a type A tag is 2 * szUidLen of them that read
      back to the used part of its UID buffer. */
  lemma TagUidReadsBack(tag: Tag)
    requires WellFormedTarget(tag.info)
    ensures tag.info.nmt == NmtFelica ==>
      var s := TagUid(tag, true).value;
      |s| == 16 && IsHexString(s) &&
      Unhex(s) == tag.info.nti.abtId
    ensures tag.info.nmt == NmtIso14443a ==>
      var s := TagUid(tag, true).value;
      |s| == 2 * tag.info.nti.szUidLen && IsHexString(s) &&
      Unhex(s) == tag.info.nti.abtUid[..tag.info.nti.szUidLen]
  {
    if tag.info.nmt == NmtFelica {
      assert tag.info.nti.abtId[..8] == tag.info.nti.abtId;
      UnhexHex(tag.info.nti.abtId);
    } else if tag.info.nmt == NmtIso14443a {
      UnhexHex(tag.info.nti.abtUid[..tag.info.nti.szUidLen]);
    }
  }

  /** Encoding two runs of bytes in turn gives the two encodings one after
      the other. */
  lemma {:induction false} HexConcat(a: seq<byte>, b: seq<byte>)
    ensures Hex(a + b) == Hex(a) + Hex(b)
    decreases |b|
  {
    if b == [] {
      assert a + b == a;
    } else {
      var init := b[..|b| - 1];
      HexConcat(a, init);
      assert (a + b)[..|a + b| - 1] == a + init;
      assert (a + b)[|a + b| - 1] == b[|b| - 1];
    }
  }

  lemma HexOfFour(b0: byte, b1: byte, b2: byte, b3: byte)
    ensures Hex([b0, b1, b2, b3]) == HexPair(b0) + HexPair(b1) + HexPair(b2) + HexPair(b3)
  {
    var p0: seq<byte> := [];
    var p1 := p0 + [b0];
    HexSnoc(p0, b0);
    var p2 := p1 + [b1];
    HexSnoc(p1, b1);
    var p3 := p2 + [b2];
    HexSnoc(p2, b2);
    HexSnoc(p3, b3);
    assert p3 + [b3] == [b0, b1, b2, b3];
  }

  lemma HexOfEight(b: seq<byte>)
    requires |b| == 8
    ensures Hex(b) == HexPair(b[0]) + HexPair(b[1]) + HexPair(b[2]) + HexPair(b[3]) +
      (HexPair(b[4]) + HexPair(b[5]) + HexPair(b[6]) + HexPair(b[7]))
  {
    assert b == b[..4] + b[4..];
    assert b[..4] == [b[0], b[1], b[2], b[3]] && b[4..] == [b[4], b[5], b[6], b[7]];
    HexConcat(b[..4], b[4..]);
    HexOfFour(b[0], b[1], b[2], b[3]);
    HexOfFour(b[4], b[5], b[6], b[7]);
  }

  /** IDm 01 23 45 67 89 AB CD EF reads "0123456789abcdef". */
  lemma FelicaUidExample(tag: Tag)
    requires tag.info == Target(NmtFelica, FelicaInfo([0x01, 0x23, 0x45, 0x67, 0x89, 0xAB, 0xCD, 0xEF]))
    ensures TagUid(tag, true) == Some("0123456789abcdef")
  {
    var id := tag.info.nti.abtId;
    assert id[..8] == id;
    HexOfEight(id);
    assert HexPair(id[0]) + HexPair(id[1]) + HexPair(id[2]) + HexPair(id[3]) == "01234567" by {
      assert HexPair(0x01) == "01" && HexPair(0x23) == "23" && HexPair(0x45) == "45" && HexPair(0x67) == "67";
    }
    assert HexPair(id[4]) + HexPair(id[5]) + HexPair(id[6]) + HexPair(id[7]) == "89abcdef" by {
      assert HexPair(0x89) == "89" && HexPair(0xAB) == "ab" && HexPair(0xCD) == "cd" && HexPair(0xEF) == "ef";
    }
    assert "01234567" + "89abcdef" == "0123456789abcdef";
  }

  /** The 4-byte UID DE AD BE EF reads "deadbeef". */
  lemma Iso14443aUidExample(tag: Tag)
    requires tag.info.nmt == NmtIso14443a && tag.info.nti.Iso14443aInfo?
    requires |tag.info.nti.abtUid| == 10 && tag.info.nti.szUidLen == 4
    requires tag.info.nti.abtUid[..4] == [0xDE, 0xAD, 0xBE, 0xEF]
    ensures TagUid(tag, true) == Some("deadbeef")
  {
    HexOfFour(0xDE, 0xAD, 0xBE, 0xEF);
    assert HexPair(0xDE) == "de" && HexPair(0xAD) == "ad" && HexPair(0xBE) == "be" && HexPair(0xEF) == "ef";
    assert Hex(tag.info.nti.abtUid[..4]) == "de" + "ad" + "be" + "ef";
    assert "de" + "ad" + "be" + "ef" == "deadbeef";
  }

  /** freefare_get_tag_uid, with the allocation of the result as an input. */
  method GetTagUid(tag: Tag, allocOk: bool) returns (res: Option<string>)
    requires WellFormedTarget(tag.info)
    ensures res == TagUid(tag, allocOk)
  {
    match tag.info.nmt
    case NmtFelica =>
      if allocOk {
        var s := FormatHex(tag.info.nti.abtId[..8]);
        res := Some(s);
      } else {
        res := None;
      }
    case NmtIso14443a =>
      if allocOk {
        var s := FormatHex(tag.info.nti.abtUid[..tag.info.nti.szUidLen]);
        res := Some(s);
      } else {
        res := None;
      }
    case NmtOther(_) =>
      res := None;
    case _ =>
      res := if allocOk then Some("UNKNOWN") else None;
  }

  // ---------------------------------------------------------------------
  // Error messages

  /** Where the message freefare_strerror returns comes from. */
  datatype ErrorSource =
    | DeviceError
    | DesfirePcdError(code: byte)
    | DesfirePiccError(code: byte)
    | NoRecordedError

  /** The three tiers of freefare_strerror: a negative last error of the
      device first, then for a DESFire handle a nonzero reader-side code, then
      a nonzero card-side code, and otherwise nothing recorded. */
  function ErrorSourceOf(tag: Tag, deviceLastError: int): (s: ErrorSource)
    ensures s.DeviceError? <==> deviceLastError < 0
    ensures s.DesfirePcdError? <==>
      deviceLastError >= 0 && tag.tagType == MifareDesfire && tag.lastPcdError != 0
    ensures s.DesfirePiccError? <==>
      deviceLastError >= 0 && tag.tagType == MifareDesfire && tag.lastPcdError == 0 && tag.lastPiccError != 0
    ensures s.DesfirePcdError? ==> s.code == tag.lastPcdError
    ensures s.DesfirePiccError? ==> s.code == tag.lastPiccError
  {
    if deviceLastError < 0 then DeviceError
    else if tag.tagType == MifareDesfire && tag.lastPcdError != 0 then DesfirePcdError(tag.lastPcdError)
    else if tag.tagType == MifareDesfire && tag.lastPiccError != 0 then DesfirePiccError(tag.lastPiccError)
    else NoRecordedError
  }

  /** freefare_strerror. `deviceLastError` and `deviceErrorText` are what
      libnfc reports for the tag's device; `lookup` is the DESFire driver's
      mifare_desfire_error_lookup. */
  function Strerror(tag: Tag, deviceLastError: int, deviceErrorText: string, lookup: byte -> string): (msg: string)
    ensures msg == match ErrorSourceOf(tag, deviceLastError)
      case DeviceError => deviceErrorText
      case DesfirePcdError(code) => lookup(code)
      case DesfirePiccError(code) => lookup(code)
      case NoRecordedError => "Unknown error"
  {
    var p := "Unknown error";
    if deviceLastError < 0 then deviceErrorText
    else if tag.tagType == MifareDesfire then
      if tag.lastPcdError != 0 then lookup(tag.lastPcdError)
      else if tag.lastPiccError != 0 then lookup(tag.lastPiccError)
      else p
    else p
  }

  /** The DESFire error fields of any other family never reach the message,
      and a device error hides whatever the DESFire driver recorded. */
  lemma StrerrorIgnoresMaskedFields(tag: Tag, other: Tag, deviceLastError: int, deviceErrorText: string, lookup: byte -> string)
    requires tag.tagType == other.tagType
    requires deviceLastError < 0 || tag.tagType != MifareDesfire
    ensures Strerror(tag, deviceLastError, deviceErrorText, lookup) == Strerror(other, deviceLastError, deviceErrorText, lookup)
    ensures Strerror(tag, deviceLastError, deviceErrorText, lookup) ==
      if deviceLastError < 0 then deviceErrorText else "Unknown error"
  {
  }
}
