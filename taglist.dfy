/** freefare_get_tags and freefare_free_tags: the NULL-terminated tag array
    built over two polling rounds, and its release. */
module TagList {
  import opened Types
  import Dispatch

  /** The most targets one poll may report. */
  const MaxCandidates: nat := 16

  /** What nfc_initiator_list_passive_targets reports: a negative error code
      or the candidates it found. */
  datatype PollResult = PollFailed(code: int) | Polled(candidates: seq<Target>)

  predicate ValidPoll(p: PollResult)
  {
    match p
    case PollFailed(code) => code < 0
    case Polled(candidates) => |candidates| <= MaxCandidates
  }

  // ---------------------------------------------------------------------
  // Specification

  /** The tags a round of candidates yields, in candidate order: those that
      freefare_tag_new identifies; the others are skipped. */
  function Identified(taste: Dispatch.Taster, build: Dispatch.Builder, candidates: seq<Target>): (tags: seq<Tag>)
  {
    if candidates == [] then []
    else
      var rest := Identified(taste, build, candidates[1..]);
      match Dispatch.TagNew(taste, build, candidates[0])
      case Some(t) => [t] + rest
      case None => rest
  }

  /** How a round of appends ends, and the tags listed when it does. */
  datatype RoundEnd = Completed(tags: seq<Tag>) | GrowFailed(tags: seq<Tag>)

  /** Appending `found` one tag at a time to a list of `listed` tags: each
      append first grows the array to `|listed| + 2` slots (the tags and the
      NULL sentinel), and `growOk(n)` says whether growing to `n` slots
      succeeds. The first failure ends the round with the list as it was. */
  function AppendAll(listed: seq<Tag>, found: seq<Tag>, growOk: nat -> bool): RoundEnd
    decreases |found|
  {
    if found == [] then Completed(listed)
    else if !growOk(|listed| + 2) then GrowFailed(listed)
    else AppendAll(listed + [found[0]], found[1..], growOk)
  }

  /** What freefare_get_tags returns, NULL being `None`: NULL when the first
      poll fails or the first one-slot array cannot be allocated; the list so
      far when growing fails; NULL when the FeliCa poll fails, whatever the
      first round found; otherwise every identified tag. */
  function GetTagsSpec(taste: Dispatch.Taster, build: Dispatch.Builder, first: PollResult, second: PollResult,
                       growOk: nat -> bool): (r: Option<seq<Tag>>)
    ensures r.Some? ==> first.Polled? && growOk(1)
    ensures r.Some? && PollsFelica(taste, build, first, growOk) ==> second.Polled?
  {
    match first
    case PollFailed(_) => None
    case Polled(candidates) =>
      if !growOk(1) then None
      else match AppendAll([], Identified(taste, build, candidates), growOk)
        case GrowFailed(partial) => Some(partial)
        case Completed(round1) =>
          match second
          case PollFailed(_) => None
          case Polled(felicaCandidates) =>
            Some(AppendAll(round1, Identified(taste, build, felicaCandidates), growOk).tags)
  }

  /** Whether freefare_get_tags gets as far as the FeliCa poll. */
  predicate PollsFelica(taste: Dispatch.Taster, build: Dispatch.Builder, first: PollResult, growOk: nat -> bool)
  {
    first.Polled? && growOk(1) && AppendAll([], Identified(taste, build, first.candidates), growOk).Completed?
  }

  // ---------------------------------------------------------------------
  // Properties

  /** At most one tag per candidate. */
  lemma {:induction false} IdentifiedBound(taste: Dispatch.Taster, build: Dispatch.Builder, candidates: seq<Target>)
    ensures |Identified(taste, build, candidates)| <= |candidates|
  {
    if candidates != [] {
      IdentifiedBound(taste, build, candidates[1..]);
    }
  }

  /** Identifying two runs of candidates in turn lists the tags of the first
      run, then those of the second. */
  lemma {:induction false} IdentifiedAppend(taste: Dispatch.Taster, build: Dispatch.Builder, c1: seq<Target>, c2: seq<Target>)
    ensures Identified(taste, build, c1 + c2) == Identified(taste, build, c1) + Identified(taste, build, c2)
  {
    if c1 != [] {
      assert (c1 + c2)[1..] == c1[1..] + c2;
      IdentifiedAppend(taste, build, c1[1..], c2);
    } else {
      assert c1 + c2 == c2;
    }
  }

  /** A round keeps what was listed, adds a prefix of what it found, and
      either adds all of it or stops exactly where growing failed. */
  lemma {:induction false} AppendAllPrefix(listed: seq<Tag>, found: seq<Tag>, growOk: nat -> bool)
    ensures var r := AppendAll(listed, found, growOk);
      |listed| <= |r.tags| <= |listed| + |found| && r.tags == (listed + found)[..|r.tags|]
    ensures AppendAll(listed, found, growOk).Completed? ==> AppendAll(listed, found, growOk).tags == listed + found
    ensures AppendAll(listed, found, growOk).GrowFailed? ==>
      var n := |AppendAll(listed, found, growOk).tags|;
      n < |listed| + |found| && !growOk(n + 2)
    decreases |found|
  {
    if found != [] && growOk(|listed| + 2) {
      AppendAllPrefix(listed + [found[0]], found[1..], growOk);
      assert listed + [found[0]] + found[1..] == listed + found;
    }
  }

  /** When no allocation fails, a round appends everything it found. */
  lemma AppendAllSucceeds(listed: seq<Tag>, found: seq<Tag>, growOk: nat -> bool)
    requires forall n :: growOk(n)
    ensures AppendAll(listed, found, growOk) == Completed(listed + found)
  {
    AppendAllPrefix(listed, found, growOk);
  }

  /** A failed first poll gives NULL, and the FeliCa poll is never made. */
  lemma FirstPollFailure(taste: Dispatch.Taster, build: Dispatch.Builder, first: PollResult, second: PollResult,
                         growOk: nat -> bool)
    requires first.PollFailed?
    ensures GetTagsSpec(taste, build, first, second, growOk) == None
    ensures !PollsFelica(taste, build, first, growOk)
  {
  }

  /** A failed FeliCa poll gives NULL even when the first round identified
      tags: they are dropped, not returned. */
  lemma SecondPollFailureDropsFirstRound(taste: Dispatch.Taster, build: Dispatch.Builder, first: PollResult,
                                         second: PollResult, growOk: nat -> bool)
    requires first.Polled? && second.PollFailed?
    requires forall n :: growOk(n)
    ensures PollsFelica(taste, build, first, growOk)
    ensures GetTagsSpec(taste, build, first, second, growOk) == None
  {
    AppendAllSucceeds([], Identified(taste, build, first.candidates), growOk);
  }

  /** With both polls and every allocation successful, the list is the type A
      tags in candidate order followed by the FeliCa tags in candidate order,
      at most 2 * MaxCandidates of them. */
  lemma GetTagsSuccess(taste: Dispatch.Taster, build: Dispatch.Builder, first: PollResult, second: PollResult,
                       growOk: nat -> bool)
    requires ValidPoll(first) && ValidPoll(second) && first.Polled? && second.Polled?
    requires forall n :: growOk(n)
    ensures GetTagsSpec(taste, build, first, second, growOk) ==
      Some(Identified(taste, build, first.candidates + second.candidates))
    ensures |GetTagsSpec(taste, build, first, second, growOk).value| <= 2 * MaxCandidates
  {
    var round1 := Identified(taste, build, first.candidates);
    var round2 := Identified(taste, build, second.candidates);
    AppendAllSucceeds([], round1, growOk);
    assert [] + round1 == round1;
    AppendAllSucceeds(round1, round2, growOk);
    IdentifiedAppend(taste, build, first.candidates, second.candidates);
    IdentifiedBound(taste, build, first.candidates + second.candidates);
  }

  /** The candidates a poll reported; none when it failed. */
  function CandidatesOf(p: PollResult): seq<Target>
  {
    if p.Polled? then p.candidates else []
  }

  /** Whatever happens, a returned list is a prefix of what the two rounds
      identified, in order, with at most 2 * MaxCandidates tags; and if it
      stops short, growing the array past it failed. */
  lemma GetTagsResultIsPrefix(taste: Dispatch.Taster, build: Dispatch.Builder, first: PollResult, second: PollResult,
                              growOk: nat -> bool)
    requires ValidPoll(first) && ValidPoll(second)
    requires GetTagsSpec(taste, build, first, second, growOk).Some?
    ensures first.Polled?
    ensures var all := Identified(taste, build, first.candidates + CandidatesOf(second));
      var r := GetTagsSpec(taste, build, first, second, growOk).value;
      |r| <= |all| <= 2 * MaxCandidates && r == all[..|r|] && (|r| < |all| ==> !growOk(|r| + 2))
  {
    var round1 := Identified(taste, build, first.candidates);
    var round2 := Identified(taste, build, CandidatesOf(second));
    AppendAllPrefix([], round1, growOk);
    assert [] + round1 == round1;
    IdentifiedAppend(taste, build, first.candidates, CandidatesOf(second));
    IdentifiedBound(taste, build, first.candidates + CandidatesOf(second));
    var r1 := AppendAll([], round1, growOk);
    if r1.Completed? {
      AppendAllPrefix(r1.tags, round2, growOk);
    }
  }

  // ---------------------------------------------------------------------
  // The array

  /** The `FreefareTag *` array: `slots[..tagCount]` hold the tags found so
      far and `slots[tagCount]` is the NULL that ends the list. */
  class TagArray {
    var slots: array<Option<Tag>>
    var tagCount: nat
    ghost var Contents: seq<Tag>

    /** No NULL before the last tag, and the NULL sentinel right after it. */
    ghost predicate Valid()
      reads this, slots
    {
      tagCount < slots.Length &&
      |Contents| == tagCount &&
      (forall i :: 0 <= i < tagCount ==> slots[i] == Some(Contents[i])) &&
      slots[tagCount] == None
    }

    /** `tags = malloc(sizeof (void *)); tags[0] = NULL;` */
    constructor ()
      ensures Valid() && fresh(slots) && slots.Length == 1
      ensures tagCount == 0 && Contents == []
    {
      slots := new Option<Tag>[1](_ => None);
      tagCount := 0;
      Contents := [];
    }

    /** Appends one tag: `realloc` to `tagCount + 2` slots (`growOk` says
      whether it succeeds), then the tag, then a new NULL sentinel. On
      failure the array is left exactly as it was. */
    method Append(t: Tag, growOk: bool) returns (ok: bool)
      requires Valid()
      modifies this
      ensures Valid()
      ensures ok == growOk
      ensures ok ==> Contents == old(Contents) + [t] && tagCount == old(tagCount) + 1
      ensures ok ==> fresh(slots) && slots.Length == old(tagCount) + 2
      ensures !ok ==> slots == old(slots) && tagCount == old(tagCount) && Contents == old(Contents)
    {
      if !growOk {
        return false;
      }
      var kept := slots[..tagCount];
      var grown := new Option<Tag>[tagCount + 2](i => if 0 <= i < |kept| then kept[i] else None);
      slots := grown;
      slots[tagCount] := Some(t);
      tagCount := tagCount + 1;
      slots[tagCount] := None;
      Contents := Contents + [t];
      return true;
    }
  }

  /** One round of freefare_get_tags: each candidate goes through
      freefare_tag_new, and each tag found is appended. Stops at the first
      append that cannot grow the array. */
  method AddRound(tags: TagArray, taste: Dispatch.Taster, build: Dispatch.Builder, candidates: seq<Target>,
                  growOk: nat -> bool) returns (completed: bool)
    requires tags.Valid()
    modifies tags
    ensures tags.Valid()
    ensures AppendAll(old(tags.Contents), Identified(taste, build, candidates), growOk) ==
      if completed then Completed(tags.Contents) else GrowFailed(tags.Contents)
  {
    ghost var goal := AppendAll(tags.Contents, Identified(taste, build, candidates), growOk);
    var c := 0;
    while c < |candidates|
      invariant 0 <= c <= |candidates|
      invariant tags.Valid()
      invariant AppendAll(tags.Contents, Identified(taste, build, candidates[c..]), growOk) == goal
    {
      assert candidates[c..][1..] == candidates[c + 1..];
      var t := Dispatch.TagNew(taste, build, candidates[c]);
      if t.Some? {
        var ok := tags.Append(t.value, growOk(tags.tagCount + 2));
        if !ok {
          return false;
        }
      }
      c := c + 1;
    }
    return true;
  }

  /** freefare_get_tags. The two polls' results and the outcome of each
      allocation are inputs; `felicaPolled` says whether the FeliCa poll was
      made. */
  method GetTags(taste: Dispatch.Taster, build: Dispatch.Builder, first: PollResult, second: PollResult,
                 growOk: nat -> bool) returns (tags: TagArray?, felicaPolled: bool)
    requires ValidPoll(first) && ValidPoll(second)
    ensures felicaPolled == PollsFelica(taste, build, first, growOk)
    ensures tags == null <==> GetTagsSpec(taste, build, first, second, growOk) == None
    ensures tags != null ==>
      fresh(tags) && tags.Valid() && GetTagsSpec(taste, build, first, second, growOk) == Some(tags.Contents)
  {
    felicaPolled := false;
    if first.PollFailed? {
      return null, felicaPolled;
    }
    if !growOk(1) {
      return null, felicaPolled;
    }
    tags := new TagArray();
    var completed := AddRound(tags, taste, build, first.candidates, growOk);
    if !completed {
      return tags, felicaPolled;
    }
    felicaPolled := true;
    if second.PollFailed? {
      return null, felicaPolled;
    }
    completed := AddRound(tags, taste, build, second.candidates, growOk);
  }

  /** freefare_free_tag: the family's `free_tag` callback runs once for a
      tag and not at all for NULL. The result lists the tags released. */
  function FreeTag(tag: Option<Tag>): (released: seq<Tag>)
    ensures tag.Some? ==> released == [tag.value]
    ensures tag.None? ==> released == []
  {
    match tag
    case Some(t) => [t]
    case None => []
  }

  /** freefare_free_tags: walks the array up to its NULL sentinel releasing
      each tag; does nothing for a NULL list. The result lists the tags
      released, in order: each listed tag exactly once. */
  method FreeTags(tags: TagArray?) returns (released: seq<Tag>)
    requires tags != null ==> tags.Valid()
    ensures tags == null ==> released == []
    ensures tags != null ==> released == tags.Contents
  {
    released := [];
    if tags != null {
      var i := 0;
      while tags.slots[i] != None
        invariant 0 <= i <= tags.tagCount
        invariant released == tags.Contents[..i]
        decreases tags.tagCount - i
      {
        released := released + FreeTag(tags.slots[i]);
        i := i + 1;
      }
      assert tags.Contents[..tags.tagCount] == tags.Contents;
    }
  }
}
