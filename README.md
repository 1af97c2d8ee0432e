# libfreefare tag identification core, in Dafny

This project models the core of `libfreefare/freefare.c`. That code turns the raw targets an NFC reader lists into typed MIFARE/FeliCa tag handles and keeps them in a NULL-terminated array. The model covers:

- **Family registry** (`Registry`): the constant `supported_tags` table. Each row holds a family, a display name, a modulation, the ISO/IEC 14443-3 type A SAK byte (clause 6.5.3) and an answer-to-select prefix pattern (ISO/IEC 14443-4 clause 5.2). A flag marks the one row that also needs a probe sent to the card (Ultralight-C).
- **Dispatcher** (`Dispatch`): `freefare_tag_new`, written as the source's if/else chain of family probes in the order FeliCA, Classic 1k, Classic 4k, DESFire, Ultralight-C, Ultralight. It is proved equal to an independent "first accepting family" definition. The probes and constructors live in the family drivers, so they are oracle parameters. A constructor may return NULL, and then so does `freefare_tag_new`, without trying later families. The probes are also instantiated from the table (`TableTaster`), which gives the SAK and answer-to-select cases.
- **Tag list** (`TagList`): `freefare_get_tags` is an imperative method over a class `TagArray`. The class holds an `array` of nullable tag slots and a `tagCount`, and its invariant puts the NULL sentinel right after the last tag. Each `realloc` becomes a fresh array of `tagCount + 2` slots. The two polls' results and each allocation's outcome are inputs. The method is proved against a specification function `GetTagsSpec`, and the lemmas state the exit paths, the ordering, the bound and the prefix property. `freefare_free_tags` walks to the sentinel and returns the tags it released.
- **Identity and diagnostics** (`Identity`): the tag type, the friendly name, the UID as lower-case hex, and `freefare_strerror`'s three-tier fallback. The UID is written by a buffer loop proved equal to a hex function, which reads back to the UID bytes.
- **Low level** (`LowLevel`): `memdup`.

When the FeliCa poll fails, the code returns NULL (line 136), which drops the tags the first round identified. It does not return the partial list that the comment at line 126 describes for allocation failure. The model follows the code.

## Model

| member | source | states |
|---|---|---|
| `Registry.SupportedTags` | libfreefare/freefare.c:31-44 | The twelve rows of `supported_tags`, in the source's order, with each row's family, display name, modulation, SAK and answer-to-select pattern. |
| `Registry.SupportedTagsWellFormed` | libfreefare/freefare.c:31-44 | Every row of `supported_tags` is consistent: its prefix pattern is as long as it says, and a prefix is compared exactly when a minimum ATS length is set (and is shorter than it). FeliCA rows, and only they, use the FeliCa modulation, and only Ultralight-C needs a probe on the reader. |
| `Registry.RowsAccept` | libfreefare/freefare.c:31-44 | A family accepts a target under the table exactly when some row of that family matches it. |
| `Dispatch.SupportedTagsFollowTasteOrder` | libfreefare/freefare.c:31-44 | The table's rows all name known families and are grouped in the order in which `freefare_tag_new` tries the families. |
| `Dispatch.FirstAcceptingIndex` | libfreefare/freefare.c:54-66 | The position of the first family whose probe accepts the target: every earlier probe declines, and the one at that position accepts, unless no probe does. |
| `Dispatch.TagNew` | libfreefare/freefare.c:49-69 | `freefare_tag_new`'s chain of probes: any tag it returns was built by the constructor of a family whose probe accepted the target, and it returns NULL when no probe accepts. |
| `Dispatch.TagNewPicksFirstAccepting` | libfreefare/freefare.c:49-69 | `freefare_tag_new` returns what the constructor of the first accepting family (in the order FeliCA, Classic 1k, Classic 4k, DESFire, Ultralight-C, Ultralight) builds, and NULL when no probe accepts. |
| `Dispatch.FirstAcceptingAgree` | libfreefare/freefare.c:54-66 | Two sets of probes that agree up to the first accepting family pick the same family. |
| `Dispatch.LaterProbesIrrelevant` | libfreefare/freefare.c:54-66 | The probes after the winning family do not affect the tag returned. |
| `Dispatch.DispatchedType` | libfreefare/freefare.c:52-68 | Stated about `Identity.GetTagType`, the accessor `freefare_get_tag_type` (lines 158-162). If each constructor builds handles of its own family, the type of a dispatched tag is a known family whose probe accepted while every earlier family's probe declined. |
| `Dispatch.FelicaByModulation` | libfreefare/freefare.c:32 | With the table's probes, a FeliCa target is always dispatched to the FeliCA family. |
| `Dispatch.ClassicBySak` | libfreefare/freefare.c:33-38 | With the table's probes, SAK 0x08, 0x28, 0x68 or 0x88 gives Classic 1k and SAK 0x18 or 0x38 gives Classic 4k, whatever the answer to select. |
| `Dispatch.DesfireByAts` | libfreefare/freefare.c:39 | With the table's probes, SAK 0x20 gives DESFire exactly when the answer to select has at least 5 bytes and begins 75 77 81 02. Otherwise the result is NULL. |
| `Dispatch.UltralightCNeedsProbe` | libfreefare/freefare.c:42-43 | With the table's probes, a type A target with SAK 0x00 is Ultralight-C when the card answers the on-reader probe and plain Ultralight otherwise. |
| `TagList.IdentifiedBound` | libfreefare/freefare.c:118-120 | A round yields at most one tag per candidate. |
| `TagList.IdentifiedAppend` | libfreefare/freefare.c:118-150 | Identifying two runs of candidates lists the first run's tags and then the second run's, each in candidate order. |
| `TagList.AppendAllPrefix` | libfreefare/freefare.c:122-128 | A round of appends keeps the tags already listed and adds a prefix of the tags it found. It either adds all of them or stops exactly where growing the array failed. |
| `TagList.AppendAllSucceeds` | libfreefare/freefare.c:122-128 | When no allocation fails, a round appends every tag it found. |
| `TagList.GetTagsSpec` | libfreefare/freefare.c:85-153 | What `freefare_get_tags` returns over both polls and every allocation: a non-NULL result means the ISO14443A poll succeeded and the first array was allocated, and, once the FeliCa poll is made, that it succeeded too. |
| `TagList.FirstPollFailure` | libfreefare/freefare.c:111-112 | A failed ISO14443A poll makes `freefare_get_tags` return NULL, and the FeliCa poll is never made. |
| `TagList.SecondPollFailureDropsFirstRound` | libfreefare/freefare.c:135-136 | A failed FeliCa poll makes `freefare_get_tags` return NULL, even when the first round identified tags. |
| `TagList.GetTagsSuccess` | libfreefare/freefare.c:118-152 | With both polls and every allocation successful, the result is the identified ISO14443A tags in candidate order, then the identified FeliCa tags in candidate order, at most 2 × 16 of them. |
| `TagList.GetTagsResultIsPrefix` | libfreefare/freefare.c:118-150 | Any non-NULL result is a prefix of everything the two rounds identified, with at most 32 tags. If it stops short, growing the array past its last tag failed. |
| `TagList.TagArray.constructor` | libfreefare/freefare.c:114-116 | The first array has one slot, holding the NULL sentinel, and no tags. |
| `TagList.TagArray.Append` | libfreefare/freefare.c:122-128 | On a successful `realloc` to `tagCount + 2` slots, the tag is added and the sentinel moves right after it. On failure the array, its count and its contents are exactly as before. The sentinel invariant holds either way. |
| `TagList.AddRound` | libfreefare/freefare.c:118-130 | One polling round passes each candidate through `freefare_tag_new` and appends each tag found. The round ends as `AppendAll` predicts: completed, or stopped at the failed growth with the list as it was. |
| `TagList.GetTags` | libfreefare/freefare.c:85-153 | `freefare_get_tags` returns NULL exactly when `GetTagsSpec` does. Otherwise it returns a fresh NULL-terminated array holding the specified tags. It makes the FeliCa poll exactly when the first round completed. |
| `TagList.FreeTags` | libfreefare/freefare.c:271-280 | Walking the array up to its NULL sentinel releases exactly the listed tags, once each and in order. Each slot goes through `TagList.FreeTag`, which is `freefare_free_tag` (lines 230-236) and runs the tag's `free_tag` callback once. A NULL list releases nothing. |
| `Identity.GetTagFriendlyName` | libfreefare/freefare.c:167-186 | The friendly name is never empty, and it is "UNKNOWN" exactly for a type that is none of the six families. |
| `Identity.FriendlyNameIsFirstRowName` | libfreefare/freefare.c:170-182 | Each known family's friendly name is the name in the first `supported_tags` row of that family. |
| `Identity.FriendlyNamesDistinct` | libfreefare/freefare.c:170-185 | Two families never share a friendly name. |
| `Identity.Hex` | libfreefare/freefare.c:198-205 | The `%02x` encoding of the bytes: n bytes give 2n characters, all lower-case hexadecimal digits. |
| `Identity.UnhexHex` | libfreefare/freefare.c:204-205 | Decoding the hex string gives back the bytes, so distinct UIDs never print the same. |
| `Identity.HexConcat` | libfreefare/freefare.c:198-205 | The hex of two runs of bytes is the hex of the first followed by the hex of the second: each byte's two digits depend on that byte alone. |
| `Identity.FormatHex` | libfreefare/freefare.c:198-205 | The `snprintf("%02x")` buffer loop writes exactly the hex encoding of the bytes. |
| `Identity.TagUid` | libfreefare/freefare.c:191-217 | The UID string is NULL exactly when allocation fails or the modulation is not one the switch lists. A FeliCa UID has 16 hexadecimal digits, and an ISO14443A UID has 2 × szUidLen. |
| `Identity.GetTagUid` | libfreefare/freefare.c:191-217 | The result depends on the modulation: the hex of the 8-byte IDm for FeliCa, the hex of `abtUid[0..szUidLen)` for ISO14443A, and "UNKNOWN" for DEP, the ISO14443B variants and Jewel. It is NULL for an unlisted modulation or when allocation fails. |
| `Identity.TagUidReadsBack` | libfreefare/freefare.c:195-207 | A FeliCa UID is 16 hex digits that decode to the IDm. An ISO14443A UID is 2 × szUidLen hex digits that decode to the used part of the UID buffer. |
| `Identity.FelicaUidExample` | libfreefare/freefare.c:196-201 | IDm 01 23 45 67 89 AB CD EF gives "0123456789abcdef". |
| `Identity.Iso14443aUidExample` | libfreefare/freefare.c:202-207 | UID DE AD BE EF gives "deadbeef". |
| `Identity.ErrorSourceOf` | libfreefare/freefare.c:241-252 | The message source: a negative device error comes first. Then, for DESFire only, a nonzero PCD code, then a nonzero PICC code. Otherwise nothing is recorded. Each tier holds exactly under its conditions. |
| `Identity.Strerror` | libfreefare/freefare.c:238-254 | `freefare_strerror` returns the device text, the DESFire lookup of the chosen code, or "Unknown error", according to the source of the error. |
| `Identity.StrerrorIgnoresMaskedFields` | libfreefare/freefare.c:242-251 | A non-DESFire tag's error fields never reach the message, and a device error hides whatever the DESFire driver recorded. |
| `LowLevel.Memdup` | libfreefare/freefare.c:287-295 | On a successful allocation, the result is a copy of the first n bytes. On failure it is NULL. |

## Left out

- The libnfc transport is not modelled. `nfc_initiator_init` and the field, CRC, parity and auto-ISO14443-4 property settings (lines 91-102) happen before the polls and have no effect the model can see. Each `nfc_initiator_list_passive_targets` result is a `PollResult` input, and `nfc_device_get_last_error` and `nfc_strerror` are parameters of `Strerror`.
- `freefare_selected_tag_is_present` is a one-line wrapper of `nfc_initiator_target_is_present` (foreign I/O), so it is not modelled.
- `freefare_strerror_r` and `freefare_perror` only format `freefare_strerror`'s message into a buffer or onto stderr, so they are not modelled.
- The family probes (`*_taste`), constructors (`*_tag_new`) and `is_mifare_ultralightc_on_reader` are defined in driver files that are not part of this model. They are oracles. `TableTaster` is the reading of their `supported_tags` rows, not the drivers' code. A probe is a function of the family and the target, so a card that answers the Ultralight-C probe differently at two moments is not captured. The probe's traffic to the card is not modelled either.
- The `free_tag` callbacks are modelled only as "called once per tag": `FreeTags` returns the tags it released. Releasing the array itself (`free`) and all memory ownership are not modelled. So are the leaks: the tag built just before a failed `realloc` (line 126), and the array and first-round tags when the FeliCa poll fails (line 136).
- `NXP_MANUFACTURER_CODE` (line 29) is not used by this file, so it is not modelled.
- `Identity.GetTagUid`: for an ISO14443A target with `szUidLen == 0`, the C buffer is never written, so the returned string is not terminated. The model returns the empty string.
- `int` counters (`tag_count`, `candidates_count`) never exceed 32 here, so there is no overflow to model.
