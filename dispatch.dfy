/** freefare_tag_new: try the family probes in a fixed order and build the tag
    with the first family whose probe accepts the target. */
module Dispatch {
  import opened Types
  import Registry
  import Identity

  /** A family's probe ("taste") applied to a target. The probes themselves
      live in the family drivers; here they are an oracle. */
  type Taster = (TagType, Target) -> bool

  /** A family's constructor applied to a target; `None` is the NULL it returns
      when it cannot allocate the handle. */
  type Builder = (TagType, Target) -> Option<Tag>

  /** The order in which freefare_tag_new tries the families. */
  const TasteOrder: seq<TagType> :=
    [Felica, MifareClassic1k, MifareClassic4k, MifareDesfire, MifareUltralightC, MifareUltralight]

  /** The position of the first family of `order` whose probe accepts
      `target`, or `|order|` when none does. */
  function FirstAcceptingIndex(order: seq<TagType>, taste: Taster, target: Target): (k: nat)
    ensures k <= |order|
    ensures forall j :: 0 <= j < k ==> !taste(order[j], target)
    ensures k < |order| ==> taste(order[k], target)
  {
    if order == [] then 0
    else if taste(order[0], target) then 0
    else 1 + FirstAcceptingIndex(order[1..], taste, target)
  }

  lemma FirstAcceptingAt(order: seq<TagType>, taste: Taster, target: Target, k: nat)
    requires k <= |order|
    requires forall j :: 0 <= j < k ==> !taste(order[j], target)
    requires k < |order| ==> taste(order[k], target)
    ensures FirstAcceptingIndex(order, taste, target) == k
  {
    var i := FirstAcceptingIndex(order, taste, target);
    assert !(i < k) && !(k < i);
  }

  /** freefare_tag_new: the if/else chain of family probes. */
  function TagNew(taste: Taster, build: Builder, target: Target): (tag: Option<Tag>)
    ensures tag.Some? ==>
      exists k :: 0 <= k < |TasteOrder| && taste(TasteOrder[k], target) && tag == build(TasteOrder[k], target)
    ensures (forall k :: 0 <= k < |TasteOrder| ==> !taste(TasteOrder[k], target)) ==> tag.None?
  {
    assert TasteOrder[0] == Felica && TasteOrder[1] == MifareClassic1k && TasteOrder[2] == MifareClassic4k;
    assert TasteOrder[3] == MifareDesfire && TasteOrder[4] == MifareUltralightC && TasteOrder[5] == MifareUltralight;
    if taste(Felica, target) then build(Felica, target)
    else if taste(MifareClassic1k, target) then build(MifareClassic1k, target)
    else if taste(MifareClassic4k, target) then build(MifareClassic4k, target)
    else if taste(MifareDesfire, target) then build(MifareDesfire, target)
    else if taste(MifareUltralightC, target) then build(MifareUltralightC, target)
    else if taste(MifareUltralight, target) then build(MifareUltralight, target)
    else None
  }

  /** The tag freefare_tag_new returns is what the constructor of the first
      family in `TasteOrder` whose probe accepts the target builds, and NULL
      when no probe accepts. */
  lemma TagNewPicksFirstAccepting(taste: Taster, build: Builder, target: Target)
    ensures var k := FirstAcceptingIndex(TasteOrder, taste, target);
      TagNew(taste, build, target) == if k < |TasteOrder| then build(TasteOrder[k], target) else None
  {
    var k := if taste(Felica, target) then 0
      else if taste(MifareClassic1k, target) then 1
      else if taste(MifareClassic4k, target) then 2
      else if taste(MifareDesfire, target) then 3
      else if taste(MifareUltralightC, target) then 4
      else if taste(MifareUltralight, target) then 5
      else 6;
    FirstAcceptingAt(TasteOrder, taste, target, k);
  }

  /** Two sets of probes that agree up to the first one that accepts pick
      the same family. */
  lemma {:induction false} FirstAcceptingAgree(order: seq<TagType>, taste: Taster, other: Taster, target: Target)
    requires forall j :: 0 <= j < |order| && j <= FirstAcceptingIndex(order, taste, target) ==>
      taste(order[j], target) == other(order[j], target)
    ensures FirstAcceptingIndex(order, other, target) == FirstAcceptingIndex(order, taste, target)
  {
    if order != [] && !taste(order[0], target) {
      forall j | 0 <= j < |order[1..]| && j <= FirstAcceptingIndex(order[1..], taste, target)
        ensures taste(order[1..][j], target) == other(order[1..][j], target)
      {
        assert order[1..][j] == order[j + 1];
      }
      FirstAcceptingAgree(order[1..], taste, other, target);
    }
  }

  /** The probes after the winning family are irrelevant to the result. */
  lemma LaterProbesIrrelevant(taste: Taster, other: Taster, build: Builder, target: Target)
    requires forall j :: 0 <= j < |TasteOrder| && j <= FirstAcceptingIndex(TasteOrder, taste, target) ==>
      taste(TasteOrder[j], target) == other(TasteOrder[j], target)
    ensures TagNew(taste, build, target) == TagNew(other, build, target)
  {
    FirstAcceptingAgree(TasteOrder, taste, other, target);
    TagNewPicksFirstAccepting(taste, build, target);
    TagNewPicksFirstAccepting(other, build, target);
  }

  /** A constructor that builds handles of the family it is asked for. */
  ghost predicate BuildsOwnFamily(build: Builder)
  {
    forall f, t :: build(f, t).Some? ==> build(f, t).value.tagType == f
  }

  /** The position of a known family in `TasteOrder`. */
  function Rank(f: TagType): (k: nat)
    requires !f.UnknownTagType?
    ensures k < |TasteOrder| && TasteOrder[k] == f
  {
    match f
    case Felica => 0
    case MifareClassic1k => 1
    case MifareClassic4k => 2
    case MifareDesfire => 3
    case MifareUltralightC => 4
    case MifareUltralight => 5
  }

  /** The type of a dispatched tag is a family whose probe accepted the
      target while every family tried before it declined. */
  lemma DispatchedType(taste: Taster, build: Builder, target: Target, tag: Tag)
    requires BuildsOwnFamily(build)
    requires TagNew(taste, build, target) == Some(tag)
    ensures !Identity.GetTagType(tag).UnknownTagType?
    ensures taste(Identity.GetTagType(tag), target)
    ensures forall j :: 0 <= j < Rank(Identity.GetTagType(tag)) ==> !taste(TasteOrder[j], target)
  {
    var k := FirstAcceptingIndex(TasteOrder, taste, target);
    TagNewPicksFirstAccepting(taste, build, target);
    assert build(TasteOrder[k], target) == Some(tag);
    assert tag.tagType == TasteOrder[k];
    assert Rank(tag.tagType) == k;
  }

  /** The rows of `supported_tags` are grouped by family in the order in which
      the dispatcher tries the families. */
  lemma SupportedTagsFollowTasteOrder()
    ensures forall i :: 0 <= i < |Registry.SupportedTags| ==> !Registry.SupportedTags[i].tagType.UnknownTagType?
    ensures forall i, j :: 0 <= i && j == i + 1 && j < |Registry.SupportedTags| ==>
      Rank(Registry.SupportedTags[i].tagType) <= Rank(Registry.SupportedTags[j].tagType)
  {
  }

  // ---------------------------------------------------------------------
  // Probes read off the supported_tags table

  /** A family's probe as its `supported_tags` rows describe it: some row of
      the family matches the target statically, and `probe` (the command sent
      to the card) answers for the row that needs one. */
  function TableTaster(probe: Target -> bool): Taster
  {
    (f: TagType, t: Target) => Registry.RowsAccept(Registry.SupportedTags, f, t, probe)
  }

  /** With the table's probes, no family accepts a type A target unless one
      of its type A rows carries the target's SAK. */
  lemma {:induction false} OnlyFamiliesWithSak(probe: Target -> bool, target: Target, f: TagType)
    requires target.nmt == NmtIso14443a && target.nti.Iso14443aInfo?
    requires forall i :: 0 <= i < |Registry.SupportedTags| ==>
      (Registry.SupportedTags[i].modulationType == NmtIso14443a && Registry.SupportedTags[i].sak == target.nti.btSak ==>
       Registry.SupportedTags[i].tagType != f)
    ensures !TableTaster(probe)(f, target)
  {
  }

  /** Ultralight-C and Ultralight share SAK 0x00: with the table's probes a
      type A target with that SAK is an Ultralight-C exactly when the card
      answers the Ultralight-C probe, and a plain Ultralight otherwise. */
  lemma UltralightCNeedsProbe(probe: Target -> bool, build: Builder, target: Target)
    requires target.nmt == NmtIso14443a && target.nti.Iso14443aInfo? && target.nti.btSak == 0x00
    ensures TagNew(TableTaster(probe), build, target) ==
      build(if probe(target) then MifareUltralightC else MifareUltralight, target)
  {
    var taste := TableTaster(probe);
    OnlyFamiliesWithSak(probe, target, Felica);
    OnlyFamiliesWithSak(probe, target, MifareClassic1k);
    OnlyFamiliesWithSak(probe, target, MifareClassic4k);
    OnlyFamiliesWithSak(probe, target, MifareDesfire);
    if probe(target) {
      assert Registry.RowMatches(Registry.SupportedTags[10], target, probe);
    } else {
      assert Registry.RowMatches(Registry.SupportedTags[11], target, probe);
    }
  }

  /** A FeliCa target is always a FeliCa tag: its family is tried first. */
  lemma FelicaByModulation(probe: Target -> bool, build: Builder, target: Target)
    requires target.nmt == NmtFelica && target.nti.FelicaInfo?
    ensures TagNew(TableTaster(probe), build, target) == build(Felica, target)
  {
    assert Registry.RowMatches(Registry.SupportedTags[0], target, probe);
  }

  /** The Classic families are told apart by SAK alone. */
  lemma ClassicBySak(probe: Target -> bool, build: Builder, target: Target)
    requires target.nmt == NmtIso14443a && target.nti.Iso14443aInfo?
    requires target.nti.btSak in {0x08, 0x28, 0x68, 0x88, 0x18, 0x38}
    ensures TagNew(TableTaster(probe), build, target) ==
      build(if target.nti.btSak in {0x18, 0x38} then MifareClassic4k else MifareClassic1k, target)
  {
    var rows := Registry.SupportedTags;
    OnlyFamiliesWithSak(probe, target, Felica);
    var sak := target.nti.btSak;
    if sak == 0x08 {
      assert Registry.RowMatches(rows[1], target, probe);
    } else if sak == 0x28 {
      assert Registry.RowMatches(rows[2], target, probe);
    } else if sak == 0x68 {
      assert Registry.RowMatches(rows[3], target, probe);
    } else if sak == 0x88 {
      assert Registry.RowMatches(rows[4], target, probe);
    } else {
      OnlyFamiliesWithSak(probe, target, MifareClassic1k);
      if sak == 0x18 {
        assert Registry.RowMatches(rows[5], target, probe);
      } else {
        assert Registry.RowMatches(rows[6], target, probe);
      }
    }
  }

  /** A family accepts a type A target exactly when its one type A row with the
      target's SAK matches. */
  lemma OnlyRowWithSak(probe: Target -> bool, target: Target, f: TagType, k: nat)
    requires target.nmt == NmtIso14443a && target.nti.Iso14443aInfo?
    requires k < |Registry.SupportedTags| && Registry.SupportedTags[k].tagType == f
    requires forall i :: 0 <= i < |Registry.SupportedTags| ==>
      ((Registry.SupportedTags[i].tagType == f && Registry.SupportedTags[i].modulationType == NmtIso14443a &&
        Registry.SupportedTags[i].sak == target.nti.btSak) ==> i == k)
    ensures TableTaster(probe)(f, target) <==> Registry.RowMatches(Registry.SupportedTags[k], target, probe)
  {
  }

  /** SAK 0x20 is DESFire only when the answer to select is at least five
      bytes long and begins 75 77 81 02; otherwise no family accepts it and
      freefare_tag_new returns NULL. */
  lemma DesfireByAts(probe: Target -> bool, build: Builder, target: Target)
    requires target.nmt == NmtIso14443a && target.nti.Iso14443aInfo? && target.nti.btSak == 0x20
    ensures TagNew(TableTaster(probe), build, target) ==
      var ats := target.nti.abtAts;
      if |ats| >= 5 && ats[..4] == [0x75, 0x77, 0x81, 0x02] then build(MifareDesfire, target) else None
  {
    OnlyFamiliesWithSak(probe, target, Felica);
    OnlyFamiliesWithSak(probe, target, MifareClassic1k);
    OnlyFamiliesWithSak(probe, target, MifareClassic4k);
    OnlyFamiliesWithSak(probe, target, MifareUltralightC);
    OnlyFamiliesWithSak(probe, target, MifareUltralight);
    OnlyRowWithSak(probe, target, MifareDesfire, 7);
  }
}
